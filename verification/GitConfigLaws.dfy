/**
 Algebraic laws of the safe.directory rewrite. A document is the list of lines
 of a file; writing sections and reading them back gives the same sections up
 to the empty lines at the very end, so the laws are proved on section lists
 and carried over to text.
 */
module GitConfigLaws {
  import opened Text
  import opened GitConfig

  // ----- writing and reading back

  predicate LineOk(line: string) {
    '\n' !in line && !IsHeader(line)
  }

  predicate LinesOk(lines: Lines) {
    forall i :: 0 <= i < |lines| ==> LineOk(lines[i])
  }

  /** A section that is written with a header and reads back as itself. */
  predicate NamedOk(s: Section) {
    s.name != "" && '\n' !in s.name && LinesOk(s.lines)
  }

  predicate AllNamed(u: seq<Section>) {
    forall i :: 0 <= i < |u| ==> NamedOk(u[i])
  }

  /** Only the first section may be a preamble without a header, and not a blank one. */
  predicate Writable(u: seq<Section>) {
    u != [] ==>
      && (NamedOk(u[0]) || (u[0].name == "" && LinesOk(u[0].lines) && !Dropped(u[0])))
      && AllNamed(u[1..])
  }

  lemma {:induction false} HeaderReads(name: string)
    ensures IsHeader("[" + name + "]") && HeaderName("[" + name + "]") == name
  {
    var line := "[" + name + "]";
    TrimTrimmed(line);
    assert line[1..|line| - 1] == name;
  }

  lemma {:induction false} ParsePlainLines(lines: Lines, rest: Lines, current: Section)
    requires LinesOk(lines)
    ensures ParseLines(lines + rest, current) == ParseLines(rest, current.(lines := current.lines + lines))
  {
    hide IsHeader;
    if lines == [] {
      assert lines + rest == rest && current.lines + [] == current.lines;
    } else {
      assert LineOk(lines[0]);
      assert (lines + rest)[1..] == lines[1..] + rest;
      ParsePlainLines(lines[1..], rest, current.(lines := current.lines + [lines[0]]));
      assert current.lines + [lines[0]] + lines[1..] == current.lines + lines;
    }
  }

  lemma {:induction false} ParseNamed(u: seq<Section>, current: Section)
    requires AllNamed(u)
    ensures ParseLines(RenderLines(u), current) == [current] + u
  {
    hide IsHeader;
    hide HeaderName;
    if u != [] {
      var s := u[0];
      assert NamedOk(s);
      var rest := RenderLines(u[1..]);
      var doc := RenderLines(u);
      assert doc == ["[" + s.name + "]"] + (s.lines + rest);
      assert doc[1..] == s.lines + rest;
      HeaderReads(s.name);
      ParsePlainLines(s.lines, rest, Section(s.name, []));
      assert [] + s.lines == s.lines;
      ParseNamed(u[1..], s);
      assert [s] + u[1..] == u;
    }
  }

  function WithPreamble(u: seq<Section>): seq<Section> {
    if u != [] && u[0].name == "" then u else [Section("", [])] + u
  }

  lemma ParseRendered(u: seq<Section>)
    requires Writable(u)
    ensures Parse(RenderLines(u)) == WithPreamble(u)
  {
    hide *;
    if u != [] && u[0].name == "" {
      WritableParts(u);
      ParsePreamble(u[0], u[1..]);
      assert [u[0]] + u[1..] == u;
    } else {
      WritableParts(u);
      ParseNamed(u, Section("", []));
    }
    ParseIs(RenderLines(u));
    WithPreambleIs(u);
  }

  lemma ParseIs(doc: Lines)
    ensures Parse(doc) == ParseLines(doc, Section("", []))
  {
  }

  lemma WithPreambleIs(u: seq<Section>)
    ensures WithPreamble(u) == if u != [] && u[0].name == "" then u else [Section("", [])] + u
  {
  }

  lemma WritableParts(u: seq<Section>)
    requires Writable(u)
    ensures if u != [] && u[0].name == "" then LinesOk(u[0].lines) && AllNamed(u[1..]) else AllNamed(u)
  {
    hide NamedOk;
    hide LinesOk;
    hide Dropped;
    if u != [] && u[0].name != "" {
      assert NamedOk(u[0]);
      assert forall i :: 0 < i < |u| ==> u[i] == u[1..][i - 1];
    }
    if u != [] && u[0].name == "" {
      NotNamedOk(u[0]);
    }
  }

  lemma NotNamedOk(s: Section)
    requires s.name == ""
    ensures !NamedOk(s)
  {
    hide LinesOk;
  }

  lemma ParsePreamble(p: Section, rest: seq<Section>)
    requires p.name == "" && LinesOk(p.lines) && AllNamed(rest)
    ensures ParseLines(RenderLines([p] + rest), Section("", [])) == [p] + rest
  {
    hide ParseLines;
    hide LinesOk;
    hide AllNamed;
    assert ([p] + rest)[1..] == rest;
    assert RenderLines([p] + rest) == p.lines + RenderLines(rest);
    hide RenderLines;
    ParsePlainLines(p.lines, RenderLines(rest), Section("", []));
    assert [] + p.lines == p.lines;
    ParseNamed(rest, p);
  }

  // ----- the end of the text

  /** Without the empty lines at the end. */
  function Stripped(lines: Lines): (r: Lines)
    ensures |r| <= |lines| && r == lines[..|r|]
    ensures r != [] ==> r[|r| - 1] != ""
    ensures forall i :: |r| <= i < |lines| ==> lines[i] == ""
  {
    if lines != [] && lines[|lines| - 1] == "" then Stripped(lines[..|lines| - 1]) else lines
  }

  /** A written text ends in exactly one newline. */
  function Closed(lines: Lines): Lines {
    if Stripped(lines) == [] then ["", ""] else Stripped(lines) + [""]
  }

  function CloseSection(s: Section): Section {
    s.(lines := Stripped(s.lines) + [""])
  }

  function Close(u: seq<Section>): (r: seq<Section>)
    ensures |r| == |u|
  {
    if u == [] then [] else u[..|u| - 1] + [CloseSection(u[|u| - 1])]
  }

  lemma {:induction false} StrippedIs(lines: Lines, r: Lines)
    requires |r| <= |lines| && r == lines[..|r|]
    requires r != [] ==> r[|r| - 1] != ""
    requires forall i :: |r| <= i < |lines| ==> lines[i] == ""
    ensures Stripped(lines) == r
  {
    var t := Stripped(lines);
    if |t| < |r| {
      assert lines[|r| - 1] == "";
    }
    if |r| < |t| {
      assert lines[|t| - 1] == "";
    }
  }

  lemma {:induction false} RenderAppend(u: seq<Section>, v: seq<Section>)
    ensures RenderLines(u + v) == RenderLines(u) + RenderLines(v)
  {
    if u == [] {
      assert u + v == v;
    } else {
      assert (u + v)[1..] == u[1..] + v;
      RenderAppend(u[1..], v);
    }
  }

  lemma {:induction false} RenderOne(s: Section)
    ensures RenderLines([s]) == SectionLines(s)
  {
    assert RenderLines([s]) == SectionLines(s) + RenderLines([]);
  }

  lemma {:induction false} ClosedRender(u: seq<Section>)
    requires u != []
    requires u[|u| - 1].name != "" || Stripped(u[|u| - 1].lines) != []
    ensures Closed(RenderLines(u)) == RenderLines(Close(u))
  {
    hide RenderLines;
    hide SectionLines;
    hide Stripped;
    var init, s := u[..|u| - 1], u[|u| - 1];
    var c := CloseSection(s);
    assert u == init + [s] && Close(u) == init + [c];
    RenderAppend(init, [s]);
    RenderAppend(init, [c]);
    RenderOne(s);
    RenderOne(c);
    ClosedLines(RenderLines(init), s);
  }

  lemma {:induction false} ClosedLines(before: Lines, s: Section)
    requires s.name != "" || Stripped(s.lines) != []
    ensures Closed(before + SectionLines(s)) == before + SectionLines(CloseSection(s))
  {
    hide Stripped;
    var head := before + (if s.name != "" then ["[" + s.name + "]"] else []);
    assert before + SectionLines(s) == head + s.lines;
    var r := head + Stripped(s.lines);
    var all := head + s.lines;
    assert r == all[..|r|];
    forall i | |r| <= i < |all|
      ensures all[i] == ""
    {
      assert all[i] == s.lines[i - |head|];
    }
    StrippedIs(all, r);
    assert before + SectionLines(CloseSection(s)) == r + [""];
  }

  lemma {:induction false} UnlinesLast(lines: Lines, l: string)
    ensures Unlines(lines) + l == Join(lines + [l], "\n")
  {
    if lines != [] {
      UnlinesLast(lines[1..], l);
      assert (lines + [l])[1..] == lines[1..] + [l];
      assert Unlines(lines) + l == lines[0] + "\n" + (Unlines(lines[1..]) + l);
    }
  }

  lemma {:induction false} TrimmedUnlines(lines: Lines)
    requires forall i :: 0 <= i < |lines| ==> '\n' !in lines[i]
    ensures TrimNewlines(Unlines(lines)) == Join(Stripped(lines), "\n")
  {
    if lines != [] {
      var init, l := lines[..|lines| - 1], lines[|lines| - 1];
      assert lines == init + [l];
      UnlinesAppend(init, [l]);
      assert Unlines([l]) == l + "\n";
      var t := Unlines(init) + l;
      assert Unlines(lines) == t + "\n";
      assert (t + "\n")[..|t|] == t;
      assert TrimNewlines(Unlines(lines)) == TrimNewlines(t);
      if l == "" {
        assert t == Unlines(init);
        TrimmedUnlines(init);
      } else {
        assert t[|t| - 1] == l[|l| - 1];
        assert l[|l| - 1] != '\n';
        UnlinesLast(init, l);
      }
    }
  }

  /** The lines of a written text. */
  lemma {:induction false} RenderSplits(u: seq<Section>)
    requires forall i :: 0 <= i < |RenderLines(u)| ==> '\n' !in RenderLines(u)[i]
    ensures Split(Render(u), '\n') == Closed(RenderLines(u))
  {
    hide RenderLines;
    var lines := RenderLines(u);
    TrimmedUnlines(lines);
    var k := Stripped(lines);
    if k == [] {
      assert Render(u) == "\n";
      assert Split("\n", '\n') == [""] + Split("", '\n');
    } else {
      var parts := k + [""];
      UnlinesLast(k, "");
      UnlinesJoin(k);
      assert Join(parts, "\n") == Join(k, "\n") + "\n";
      SplitJoin(parts, '\n');
    }
  }

  lemma {:induction false} UnlinesJoin(lines: Lines)
    requires lines != []
    ensures Unlines(lines) == Join(lines, "\n") + "\n"
  {
    if |lines| > 1 {
      UnlinesJoin(lines[1..]);
    } else {
      assert Unlines(lines[1..]) == "";
    }
  }

  // ----- what the rewrite keeps of a safe section

  lemma {:induction false} UnmanagedAppend(a: Lines, b: Lines)
    ensures Unmanaged(a + b) == Unmanaged(a) + Unmanaged(b)
  {
    hide Managed;
    if a == [] {
      assert a + b == b;
    } else {
      assert (a + b)[1..] == a[1..] + b;
      UnmanagedAppend(a[1..], b);
    }
  }

  lemma {:induction false} UnmanagedOfUnmanaged(lines: Lines)
    requires forall i :: 0 <= i < |lines| ==> !Managed(lines[i])
    ensures Unmanaged(lines) == lines
  {
    hide Managed;
    if lines != [] {
      UnmanagedOfUnmanaged(lines[1..]);
    }
  }

  lemma {:induction false} UnmanagedOfManaged(lines: Lines)
    requires forall i :: 0 <= i < |lines| ==> Managed(lines[i])
    ensures Unmanaged(lines) == []
  {
    hide Managed;
    if lines != [] {
      UnmanagedOfManaged(lines[1..]);
    }
  }

  lemma {:induction false} UnmanagedAreUnmanaged(lines: Lines)
    ensures forall i :: 0 <= i < |Unmanaged(lines)| ==> !Managed(Unmanaged(lines)[i]) && Unmanaged(lines)[i] in lines
  {
    hide Managed;
    if lines != [] {
      UnmanagedAreUnmanaged(lines[1..]);
      assert forall l :: l in lines[1..] ==> l in lines;
    }
  }

  lemma {:induction false} DropFrontParts(lines: Lines)
    ensures exists k :: 0 <= k <= |lines| && DropBlankFront(lines) == lines[k..]
  {
    hide Blank;
    if lines != [] && Blank(lines[0]) {
      DropFrontParts(lines[1..]);
      var k :| 0 <= k <= |lines[1..]| && DropBlankFront(lines[1..]) == lines[1..][k..];
      assert lines[1..][k..] == lines[k + 1..];
    } else {
      assert lines[0..] == lines;
    }
  }

  lemma {:induction false} DropBackParts(lines: Lines)
    ensures |DropBlankBack(lines)| <= |lines| && DropBlankBack(lines) == lines[..|DropBlankBack(lines)|]
  {
    hide Blank;
    if lines != [] && Blank(lines[|lines| - 1]) {
      DropBackParts(lines[..|lines| - 1]);
    }
  }

  /** The trimmed lines are among the lines, start and end without a blank line, and trimming again changes nothing. */
  lemma {:induction false} TrimEdgesStable(lines: Lines)
    ensures forall l :: l in TrimEdges(lines) ==> l in lines
    ensures TrimEdges(lines) != [] ==> !Blank(TrimEdges(lines)[0]) && !Blank(TrimEdges(lines)[|TrimEdges(lines)| - 1])
    ensures TrimEdges(TrimEdges(lines)) == TrimEdges(lines)
  {
    hide Blank;
    DropFrontParts(lines);
    DropBackParts(DropBlankFront(lines));
    var t := TrimEdges(lines);
    if t != [] {
      assert t[0] == DropBlankFront(lines)[0];
      assert DropBlankFront(t) == t && DropBlankBack(t) == t;
    }
  }

  lemma {:induction false} TrimBlankTail(lines: Lines, b: string)
    requires Blank(b)
    ensures TrimEdges(lines + [b]) == TrimEdges(lines)
  {
    hide Blank;
    FrontBlankTail(lines, b);
    var f := DropBlankFront(lines);
    if f != [] {
      assert (f + [b])[..|f|] == f;
    }
  }

  lemma {:induction false} FrontBlankTail(lines: Lines, b: string)
    requires Blank(b)
    ensures DropBlankFront(lines + [b]) == if DropBlankFront(lines) == [] then [] else DropBlankFront(lines) + [b]
  {
    hide Blank;
    if lines == [] {
      assert [b][1..] == [];
      assert lines + [b] == [b];
    } else if Blank(lines[0]) {
      assert (lines + [b])[1..] == lines[1..] + [b];
      FrontBlankTail(lines[1..], b);
    }
  }

  lemma EmptyIsUnmanaged()
    ensures Blank("") && !Managed("")
  {
  }

  lemma {:induction false} KeptBlankTail(lines: Lines)
    ensures Kept(lines + [""]) == Kept(lines)
  {
    EmptyIsUnmanaged();
    hide Managed;
    hide TrimEdges;
    UnmanagedAppend(lines, [""]);
    assert Unmanaged([""]) == [""];
    TrimBlankTail(Unmanaged(lines), "");
  }

  lemma {:induction false} KeptStripped(lines: Lines)
    ensures Kept(lines) == Kept(Stripped(lines))
    ensures TrimEdges(lines) == TrimEdges(Stripped(lines))
  {
    hide Kept;
    hide TrimEdges;
    if lines != [] && lines[|lines| - 1] == "" {
      var init := lines[..|lines| - 1];
      assert lines == init + [""];
      KeptStripped(init);
      KeptBlankTail(init);
      EmptyIsUnmanaged();
      TrimBlankTail(init, "");
    }
  }

  /** Closing a section at the end of the text changes nothing the rewrite keeps. */
  lemma KeptClosed(s: Section)
    ensures Kept(CloseSection(s).lines) == Kept(s.lines)
    ensures TrimEdges(CloseSection(s).lines) == TrimEdges(s.lines)
  {
    hide Kept;
    hide TrimEdges;
    KeptStripped(s.lines);
    KeptBlankTail(Stripped(s.lines));
    EmptyIsUnmanaged();
    TrimBlankTail(Stripped(s.lines), "");
  }

  /** Lines hazmat may write: marked and not blank. */
  predicate AllManaged(wl: Lines) {
    forall i :: 0 <= i < |wl| ==> Managed(wl[i]) && LineOk(wl[i]) && !Blank(wl[i])
  }

  /** Rewriting a section that has been rewritten: the earlier managed lines go, the rest is as it was. */
  lemma {:induction false} KeptAgain(lines: Lines, wl: Lines)
    requires AllManaged(wl)
    ensures Kept(Kept(lines) + wl) == Kept(lines)
  {
    hide Managed;
    hide LineOk;
    hide Blank;
    var k := Kept(lines);
    UnmanagedAreUnmanaged(lines);
    TrimEdgesStable(Unmanaged(lines));
    assert forall i :: 0 <= i < |k| ==> k[i] in Unmanaged(lines);
    UnmanagedOfUnmanaged(k);
    UnmanagedOfManaged(wl);
    UnmanagedAppend(k, wl);
    assert k + [] == k;
  }

  // ----- the laws on section lists

  lemma {:induction false} NothingWantedIgnoresFlag(u: seq<Section>, i: bool, j: bool)
    ensures RewriteSections(u, [], i) == RewriteSections(u, [], j)
  {
    hide Kept;
    hide Dropped;
    if u != [] {
      NothingWantedIgnoresFlag(u[1..], i || u[0].name == "safe", j || u[0].name == "safe");
    }
  }

  lemma RewriteCons(s: Section, rest: seq<Section>, wl: Lines, i: bool)
    ensures RewriteSections([s] + rest, wl, i) == Rewritten(s, wl, i) + RewriteSections(rest, wl, i || s.name == "safe")
  {
    assert ([s] + rest)[1..] == rest;
  }

  /** Writing `w1` and then `w2` over the same sections is writing `w2`, provided `w1` leaves the first safe section standing or `w2` needs none. */
  lemma {:induction false} RewriteTwice(u: seq<Section>, w1: Lines, w2: Lines, i: bool)
    requires AllManaged(w1) && AllManaged(w2)
    requires w1 != [] || w2 == []
    ensures RewriteSections(RewriteSections(u, w1, i), w2, i) == RewriteSections(u, w2, i)
  {
    hide Kept;
    hide Dropped;
    hide AllManaged;
    if u == [] {
      if !i && w1 != [] {
        KeptAgain([], w1);
        KeptOfNone();
        assert [] + w1 == w1;
        RewriteCons(Section("safe", w1), [], w2, i);
        assert [Section("safe", w1)] + [] == [Section("safe", w1)];
        assert [] + w2 == w2;
      }
    } else {
      var s := u[0];
      var j := i || s.name == "safe";
      var rest := RewriteSections(u[1..], w1, j);
      RewriteTwice(u[1..], w1, w2, j);
      if s.name != "safe" {
        if !Dropped(s) {
          RewriteCons(s, rest, w2, i);
        } else {
          assert [] + rest == rest;
        }
      } else {
        var extra := if i then [] else w1;
        var lines := Kept(s.lines) + extra;
        assert AllManaged([]) by {
          NoLinesManaged();
        }
        KeptAgain(s.lines, extra);
        if lines == [] {
          assert [] + rest == rest;
          NothingWantedIgnoresFlag(rest, i, true);
        } else {
          RewriteCons(Section("safe", lines), rest, w2, i);
        }
      }
    }
  }

  lemma NoLinesManaged()
    ensures AllManaged([])
  {
  }

  lemma KeptOfNone()
    ensures Kept([]) == []
  {
  }

  ghost predicate HasSafe(u: seq<Section>) {
    exists i :: 0 <= i < |u| && u[i].name == "safe"
  }

  lemma CloseAppend(p: seq<Section>, x: seq<Section>)
    requires x != []
    ensures Close(p + x) == p + Close(x)
  {
    hide CloseSection;
    assert (p + x)[..|p + x| - 1] == p + x[..|x| - 1];
  }

  /** When no safe section is appended, the empty lines at the end of the sections do not matter to the rewrite. */
  lemma {:induction false} RewriteClosed(u: seq<Section>, wl: Lines, i: bool)
    requires u != []
    requires i || wl == [] || HasSafe(u)
    ensures Close(RewriteSections(Close(u), wl, i)) == Close(RewriteSections(u, wl, i))
  {
    hide Close;
    hide Rewritten;
    hide RewriteSections;
    var s := u[0];
    var j := i || s.name == "safe";
    if |u| == 1 {
      assert u == [s];
      RewriteClosedOne(s, wl, i);
    } else {
      var rest := u[1..];
      assert u == [s] + rest;
      assert j || wl == [] || HasSafe(rest) by {
        if HasSafe(u) && s.name != "safe" {
          var k :| 0 <= k < |u| && u[k].name == "safe";
          assert rest[k - 1].name == "safe";
        }
      }
      RewriteClosed(rest, wl, j);
      CloseAppend([s], rest);
      RewriteCons(s, Close(rest), wl, i);
      RewriteCons(s, rest, wl, i);
      CloseCong(Rewritten(s, wl, i), RewriteSections(Close(rest), wl, j), RewriteSections(rest, wl, j));
    }
  }

  lemma CloseCong(p: seq<Section>, x: seq<Section>, y: seq<Section>)
    requires Close(x) == Close(y)
    ensures Close(p + x) == Close(p + y)
  {
    hide CloseSection;
    assert |x| == |y|;
    if x != [] {
      CloseAppend(p, x);
      CloseAppend(p, y);
    }
  }

  lemma RewriteClosedOne(s: Section, wl: Lines, i: bool)
    requires i || wl == [] || s.name == "safe"
    ensures Close(RewriteSections(Close([s]), wl, i)) == Close(RewriteSections([s], wl, i))
  {
    hide Kept;
    hide TrimEdges;
    hide CloseSection;
    var c := CloseSection(s);
    assert Close([s]) == [c];
    CloseSectionFacts(s);
    assert [s] + [] == [s] && [c] + [] == [c];
    RewriteCons(s, [], wl, i);
    RewriteCons(c, [], wl, i);
  }

  lemma CloseSectionFacts(s: Section)
    ensures var c := CloseSection(s);
            && c.name == s.name && Kept(c.lines) == Kept(s.lines) && TrimEdges(c.lines) == TrimEdges(s.lines)
            && CloseSection(c) == c
  {
    hide Kept;
    hide TrimEdges;
    KeptClosed(s);
    StrippedIs(Stripped(s.lines) + [""], Stripped(s.lines));
  }
}
