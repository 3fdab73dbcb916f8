/** The parts of the reader and of the rewrite on the characters and lines themselves. */
module GitConfigMeaning {
  import opened Text
  import opened GitConfig

  // ----- headers and sections

  /** A header is a name in square brackets with nothing but space around it. */
  lemma HeaderIff(line: string)
    ensures IsHeader(line) <==>
            exists a, name, b :: OnlySpace(a) && OnlySpace(b) && line == a + "[" + name + "]" + b
    ensures forall a, name, b :: OnlySpace(a) && OnlySpace(b) && line == a + "[" + name + "]" + b ==>
              IsHeader(line) && HeaderName(line) == name
  {
    forall a, name, b | OnlySpace(a) && OnlySpace(b) && line == a + "[" + name + "]" + b
      ensures IsHeader(line) && HeaderName(line) == name
    {
      Bracketed(line, a, name, b);
    }
    hide *;
    if IsHeader(line) {
      var a, name, b := HeaderParts(line);
    }
  }

  lemma HeaderParts(line: string) returns (a: string, name: string, b: string)
    requires IsHeader(line)
    ensures OnlySpace(a) && OnlySpace(b) && line == a + "[" + name + "]" + b
  {
    var m, n := TrimIsMiddle(line);
    hide TrimSpace;
    a, name, b := line[..m], line[m + 1..n - 1], line[n..];
    assert line[m..n] == "[" + name + "]";
    assert line == line[..m] + line[m..n] + line[n..];
  }

  lemma Bracketed(line: string, a: string, name: string, b: string)
    requires OnlySpace(a) && OnlySpace(b) && line == a + "[" + name + "]" + b
    ensures IsHeader(line) && HeaderName(line) == name
  {
    var i, j := |a|, |a| + |name| + 2;
    assert line[..i] == a && line[j..] == b && line[i] == '[' && line[j - 1] == ']';
    TrimUnique(line, i, j);
    hide TrimSpace;
    assert line[i..j] == "[" + name + "]";
  }

  predicate NoHeader(lines: Lines) {
    forall i :: 0 <= i < |lines| ==> !IsHeader(lines[i])
  }

  /** Lines before any header are the section without a name. */
  lemma {:induction false} ParseHeaderless(lines: Lines, current: Section)
    requires NoHeader(lines)
    ensures ParseLines(lines, current) == [current.(lines := current.lines + lines)]
  {
    hide IsHeader;
    if lines == [] {
      assert current.lines + [] == current.lines;
    } else {
      assert NoHeader(lines[1..]);
      ParseHeaderless(lines[1..], current.(lines := current.lines + [lines[0]]));
      assert current.lines + [lines[0]] + lines[1..] == current.lines + lines;
    }
  }

  /** A header and the lines after it up to the next are one section, after those of what comes before. */
  lemma {:induction false} ParseBlock(before: Lines, header: string, lines: Lines, current: Section)
    requires IsHeader(header) && NoHeader(lines)
    ensures ParseLines(before + [header] + lines, current) == ParseLines(before, current) + [Section(HeaderName(header), lines)]
    decreases |before|
  {
    hide IsHeader;
    hide HeaderName;
    var all := before + [header] + lines;
    if before == [] {
      assert all[0] == header && all[1..] == lines;
      ParseHeaderless(lines, Section(HeaderName(header), []));
      assert [] + lines == lines;
    } else {
      assert all[0] == before[0] && all[1..] == before[1..] + [header] + lines;
      if IsHeader(before[0]) {
        ParseBlock(before[1..], header, lines, Section(HeaderName(before[0]), []));
      } else {
        ParseBlock(before[1..], header, lines, current.(lines := current.lines + [before[0]]));
      }
    }
  }

  /** The sections of a document. */
  lemma SectionsOf(before: Lines, header: string, lines: Lines)
    requires NoHeader(lines)
    ensures Parse(lines) == [Section("", lines)]
    ensures IsHeader(header) ==> Parse(before + [header] + lines) == Parse(before) + [Section(HeaderName(header), lines)]
  {
    ParseHeaderless(lines, Section("", []));
    assert [] + lines == lines;
    if IsHeader(header) {
      ParseBlock(before, header, lines, Section("", []));
    }
  }

  // ----- managed lines

  /** A line is hazmat's exactly if it holds the marker, as every line written does. */
  lemma ManagedIff(line: string, entry: string)
    ensures Managed(line) <==> exists a, b :: line == a + " # hazmat-managed" + b
    ensures WantedLine(entry) == "\tdirectory = " + entry + " # hazmat-managed" && Managed(WantedLine(entry))
  {
    hide FindSub;
    var m := " # hazmat-managed";
    forall l: string, a, b | l == a + m + b
      ensures Managed(l)
    {
      assert l[|a|..] == m + b;
      assert m <= l[|a|..];
    }
    if Managed(line) {
      var i := FindSub(line, m);
      assert line == line[..i] + m + line[i + |m|..];
    }
    assert WantedLine(entry) == ("\tdirectory = " + entry) + m + "";
  }

  /** Unmanaged lines are kept, each in its place. */
  lemma {:induction false} UnmanagedOf(a: Lines, line: string, b: Lines)
    ensures Unmanaged(a + [line] + b) == Unmanaged(a) + (if Managed(line) then [] else [line]) + Unmanaged(b)
    ensures Unmanaged([]) == []
    decreases |a|
  {
    hide Managed;
    var all := a + [line] + b;
    if a == [] {
      assert all[0] == line && all[1..] == b;
    } else {
      assert all[0] == a[0] && all[1..] == a[1..] + [line] + b;
      UnmanagedOf(a[1..], line, b);
    }
  }

  predicate Blanks(lines: Lines) {
    forall i :: 0 <= i < |lines| ==> Blank(lines[i])
  }

  lemma {:induction false} FrontDropped(lines: Lines) returns (a: nat)
    ensures a <= |lines| && lines[a..] == DropBlankFront(lines) && Blanks(lines[..a])
  {
    hide Blank;
    if lines != [] && Blank(lines[0]) {
      var b := FrontDropped(lines[1..]);
      a := b + 1;
      assert lines[..a] == [lines[0]] + lines[1..][..b];
    } else {
      a := 0;
    }
  }

  lemma {:induction false} BackDropped(lines: Lines) returns (b: nat)
    ensures b <= |lines| && lines[..b] == DropBlankBack(lines) && Blanks(lines[b..])
  {
    hide Blank;
    if lines != [] && Blank(lines[|lines| - 1]) {
      b := BackDropped(lines[..|lines| - 1]);
      assert lines[b..] == lines[..|lines| - 1][b..] + [lines[|lines| - 1]];
    } else {
      b := |lines|;
    }
  }

  /** Of the unmanaged lines only the blank ones at either end go; those in between stay. */
  lemma KeptIs(lines: Lines) returns (a: Lines, b: Lines)
    ensures Unmanaged(lines) == a + Kept(lines) + b && Blanks(a) && Blanks(b)
    ensures Kept(lines) != [] ==> !Blank(Kept(lines)[0]) && !Blank(Kept(lines)[|Kept(lines)| - 1])
  {
    hide Blank;
    hide Unmanaged;
    hide DropBlankFront;
    hide DropBlankBack;
    var u := Unmanaged(lines);
    var i := FrontDropped(u);
    var j := BackDropped(u[i..]);
    a, b := u[..i], u[i..][j..];
    assert u == u[..i] + u[i..] && u[i..] == u[i..][..j] + u[i..][j..];
    assert Kept(lines) != [] ==> Kept(lines)[0] == u[i..][0];
  }

  // ----- the rewrite, section by section

  /** The sections a rewrite has no business with. */
  function Others(u: seq<Section>): seq<Section> {
    if u == [] then []
    else (if u[0].name != "safe" && !(u[0].name == "" && Blanks(u[0].lines)) then [u[0]] else []) + Others(u[1..])
  }

  lemma {:induction false} OthersConcat(a: seq<Section>, b: seq<Section>)
    ensures Others(a + b) == Others(a) + Others(b)
    decreases |a|
  {
    hide Blanks;
    if a == [] {
      assert a + b == b;
    } else {
      assert (a + b)[1..] == a[1..] + b;
      OthersConcat(a[1..], b);
    }
  }

  lemma OthersOfOne(s: Section, wl: Lines, inserted: bool)
    ensures Others(Rewritten(s, wl, inserted)) == Others([s])
  {
    DroppedIff(s);
    hide Kept;
    hide Blanks;
    hide Dropped;
    var first := Rewritten(s, wl, inserted);
    assert [s][1..] == [];
    if first != [] {
      assert first == [first[0]] && first[1..] == [];
    }
  }

  lemma OthersOfNone(wl: Lines)
    ensures Others([]) == [] && Others([Section("safe", wl)]) == []
  {
    assert [Section("safe", wl)][1..] == [];
  }

  /** They are left exactly as they are, in their order. */
  lemma {:induction false} OthersStay(u: seq<Section>, wl: Lines, inserted: bool)
    ensures Others(RewriteSections(u, wl, inserted)) == Others(u)
  {
    hide Rewritten;
    hide Others;
    if u == [] {
      OthersOfNone(wl);
    } else {
      var first, rest := Rewritten(u[0], wl, inserted), RewriteSections(u[1..], wl, inserted || u[0].name == "safe");
      OthersStay(u[1..], wl, inserted || u[0].name == "safe");
      OthersOfOne(u[0], wl, inserted);
      OthersConcat(first, rest);
      OthersConcat([u[0]], u[1..]);
      assert u == [u[0]] + u[1..];
    }
  }

  lemma {:induction false} BlanksDrop(lines: Lines)
    requires Blanks(lines)
    ensures DropBlankFront(lines) == []
  {
    hide Blank;
    if lines != [] {
      assert Blanks(lines[1..]);
      BlanksDrop(lines[1..]);
    }
  }

  lemma DroppedIff(s: Section)
    ensures Dropped(s) <==> s.name == "" && Blanks(s.lines)
  {
    var u := s.lines;
    var a := FrontDropped(u);
    var b := BackDropped(u[a..]);
    if Blanks(u) {
      BlanksDrop(u);
    }
    hide DropBlankFront;
    hide Blank;
    assert u == u[..a] + u[a..];
    assert TrimEdges(u) == [] ==> u[a..][b..] == u[a..];
  }

  // ----- where the managed lines go

  predicate NoneSafe(u: seq<Section>) {
    forall i :: 0 <= i < |u| ==> u[i].name != "safe"
  }

  lemma {:induction false} RewriteNoneSafe(u: seq<Section>, wl: Lines, inserted: bool)
    requires NoneSafe(u)
    ensures RewriteSections(u, wl, inserted) == Others(u) + if inserted || wl == [] then [] else [Section("safe", wl)]
  {
    hide Dropped;
    hide Blanks;
    if u != [] {
      assert NoneSafe(u[1..]);
      RewriteNoneSafe(u[1..], wl, inserted);
      DroppedIff(u[0]);
    }
  }

  lemma {:induction false} RewriteThen(a: seq<Section>, f: Section, c: seq<Section>, wl: Lines, inserted: bool)
    requires NoneSafe(a) && f.name == "safe"
    ensures RewriteSections(a + [f] + c, wl, inserted)
         == Others(a) + Rewritten(f, wl, inserted) + RewriteSections(c, wl, true)
    decreases |a|
  {
    hide Rewritten;
    hide RewriteSections;
    hide Blanks;
    if a == [] {
      assert a + [f] + c == [f] + c;
      RewriteFirst(f, c, wl, inserted);
      assert Others(a) + Rewritten(f, wl, inserted) == Rewritten(f, wl, inserted);
    } else {
      assert NoneSafe(a[1..]);
      var rest := a[1..] + [f] + c;
      assert a + [f] + c == [a[0]] + rest;
      RewriteThen(a[1..], f, c, wl, inserted);
      RewriteFirst(a[0], rest, wl, inserted);
      OtherFirst(a, wl, inserted);
      assert Rewritten(a[0], wl, inserted) + (Others(a[1..]) + Rewritten(f, wl, inserted) + RewriteSections(c, wl, true))
          == Rewritten(a[0], wl, inserted) + Others(a[1..]) + Rewritten(f, wl, inserted) + RewriteSections(c, wl, true);
    }
  }

  lemma RewriteFirst(s: Section, rest: seq<Section>, wl: Lines, inserted: bool)
    ensures RewriteSections([s] + rest, wl, inserted)
         == Rewritten(s, wl, inserted) + RewriteSections(rest, wl, inserted || s.name == "safe")
  {
    hide Rewritten;
    assert ([s] + rest)[1..] == rest;
  }

  lemma OtherFirst(a: seq<Section>, wl: Lines, inserted: bool)
    requires a != [] && a[0].name != "safe"
    ensures Others(a) == Rewritten(a[0], wl, inserted) + Others(a[1..])
  {
    hide Dropped;
    hide Blanks;
    DroppedIff(a[0]);
  }

  /** The managed lines go to the end of the first safe section, after its own lines, or into a new one at the end; any
      further safe section keeps its own lines alone, and one that would be empty is dropped. */
  lemma ManagedPlaced(a: seq<Section>, f: Section, c: seq<Section>, wl: Lines)
    requires NoneSafe(a) && f.name == "safe"
    ensures RewriteSections(a, wl, false) == Others(a) + if wl == [] then [] else [Section("safe", wl)]
    ensures RewriteSections(a, wl, true) == Others(a)
    ensures RewriteSections(a + [f] + c, wl, false) ==
            Others(a) + (if Kept(f.lines) + wl == [] then [] else [Section("safe", Kept(f.lines) + wl)]) + RewriteSections(c, wl, true)
    ensures RewriteSections(a + [f] + c, wl, true) ==
            Others(a) + (if Kept(f.lines) == [] then [] else [Section("safe", Kept(f.lines))]) + RewriteSections(c, wl, true)
  {
    RewriteNoneSafe(a, wl, false);
    RewriteNoneSafe(a, wl, true);
    RewriteThen(a, f, c, wl, false);
    RewriteThen(a, f, c, wl, true);
    hide Kept;
    hide RewriteSections;
    hide Others;
    assert Kept(f.lines) + [] == Kept(f.lines) && Others(a) + [] == Others(a);
  }
}
