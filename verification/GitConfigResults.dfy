/** Main results about the safe.directory rewrite, stated on file contents. */
module GitConfigResults {
  import opened Text
  import opened GitConfig
  import opened GitConfigLaws
  import opened GitConfigDocs

  /** The contents the laws are about. */
  predicate Regular(content: string) {
    NoEmptyHeader(Split(content, '\n'))
  }

  function Sections(content: string): seq<Section> {
    Parse(Split(content, '\n'))
  }

  // ----- last writer wins

  lemma {:induction false} WantedLeavesSafe(u: seq<Section>, wl: Lines)
    requires wl != []
    ensures HasSafe(RewriteSections(u, wl, false))
  {
    hide Kept;
    hide Dropped;
    if u == [] {
      assert RewriteSections(u, wl, false)[0].name == "safe";
    } else {
      var s := u[0];
      var i := s.name == "safe";
      var p: seq<Section>, rest: seq<Section> := Rewritten(s, wl, false), RewriteSections(u[1..], wl, i);
      if i {
        assert (p + rest)[0].name == "safe";
      } else {
        WantedLeavesSafe(u[1..], wl);
        var k :| 0 <= k < |rest| && rest[k].name == "safe";
        assert (p + rest)[|p| + k].name == "safe";
      }
    }
  }

  lemma CloseDecides(u: seq<Section>, v: seq<Section>)
    requires Writable(u) && Writable(v)
    requires Close(u) == Close(v)
    ensures Closed(RenderLines(u)) == Closed(RenderLines(v))
  {
    hide RenderLines;
    hide Close;
    hide Writable;
    hide Closed;
    CloseLength(u, v);
    if u != [] {
      CloseWritable(u);
      CloseWritable(v);
      ClosedRender(u);
      ClosedRender(v);
    }
  }

  lemma CloseLength(u: seq<Section>, v: seq<Section>)
    requires Close(u) == Close(v)
    ensures |u| == |v|
  {
    assert |Close(u)| == |u| && |Close(v)| == |v|;
  }

  /** Rewriting with `w1` and then `w2` is rewriting with `w2`, unless `w1` asks for nothing and `w2` does not. */
  lemma LastWriterWins(content: string, w1: seq<string>, w2: seq<string>)
    requires Regular(content) && EntriesOk(w1) && EntriesOk(w2)
    requires w1 != [] || w2 == []
    ensures Rewrite(Rewrite(content, w1), w2) == Rewrite(content, w2)
  {
    hide *;
    RegularIs(content);
    var s := Sections(content);
    var l1, l2 := WantedLines(w1), WantedLines(w2);
    SectionsIs(content);
    WantedLinesOk(w1);
    WantedLinesOk(w2);
    TwoRewrites(content, w1, w2);
    RewriteSplits(content, w2);
    var u := RewriteSections(s, l1, false);
    RewriteTwice(s, l1, l2, false);
    var v := RewriteSections(Close(u), l2, false);
    assert Close(v) == Close(RewriteSections(u, l2, false)) by {
      if u == [] {
        CloseNone();
      } else {
        if l1 != [] {
          WantedLeavesSafe(s, l1);
        }
        RewriteClosed(u, l2, false);
      }
    }
    CloseDecides(v, RewriteSections(s, l2, false));
    RewriteDocIs(content, w2);
    SameSplit(Rewrite(Rewrite(content, w1), w2), Rewrite(content, w2));
  }

  lemma RegularIs(content: string)
    ensures Regular(content) <==> NoEmptyHeader(Split(content, '\n'))
  {
  }

  lemma SectionsIs(content: string)
    ensures Sections(content) == Parse(Split(content, '\n'))
  {
  }

  lemma RewriteDocIs(content: string, w: seq<string>)
    ensures RewriteDoc(Split(content, '\n'), w)
         == Closed(RenderLines(RewriteSections(Parse(Split(content, '\n')), WantedLines(w), false)))
  {
  }

  lemma CloseNone()
    ensures Close([]) == []
  {
  }

  lemma Idempotent(content: string, w: seq<string>)
    requires Regular(content) && EntriesOk(w)
    ensures Rewrite(Rewrite(content, w), w) == Rewrite(content, w)
  {
    LastWriterWins(content, w, w);
  }

  /** Removing every entry after a setup leaves what removing them from the original would have left. */
  lemma RollbackUndoesSetup(content: string, w: seq<string>)
    requires Regular(content) && EntriesOk(w)
    ensures Rewrite(Rewrite(content, w), []) == Rewrite(content, [])
  {
    LastWriterWins(content, w, []);
  }

  /** A second sync with the same entries reports the file unchanged. */
  lemma SecondSyncUnchanged(content: string, w: seq<string>)
    requires Regular(content) && EntriesOk(w)
    ensures var first := Rewrite(content, w); Rewrite(first, w) == Render(Sections(first))
  {
    hide *;
    Idempotent(content, w);
    RegularIs(content);
    RewriteSplits(content, w);
    RewriteDocIs(content, w);
    SectionsIs(content);
    SectionsIs(Rewrite(content, w));
    WrittenIsNormal(Rewrite(content, w), RewriteSections(Parse(Split(content, '\n')), WantedLines(w), false));
  }

  lemma WrittenIsNormal(text: string, u: seq<Section>)
    requires Writable(u) && Split(text, '\n') == Closed(RenderLines(u))
    ensures Render(Parse(Split(text, '\n'))) == text
  {
    hide *;
    Reread(u);
    var v := Parse(Split(text, '\n'));
    assert RenderLines(v) == Closed(RenderLines(u)) by {
      if u == [] {
        EmptyTextReads();
        BlankDocument();
      } else {
        CloseWritable(u);
        ClosedRender(u);
        PreambleWritesNothing(Close(u));
      }
    }
    LinesWithoutNewline(u);
    RenderSplits(v);
    ClosedTwice(RenderLines(u));
    SameSplit(Render(v), text);
  }

  lemma BlankDocument()
    ensures RenderLines([Section("", ["", ""])]) == ["", ""]
  {
    RenderOne(Section("", ["", ""]));
  }

  lemma PreambleWritesNothing(u: seq<Section>)
    ensures RenderLines(WithPreamble(u)) == RenderLines(u)
  {
    assert ([Section("", [])] + u)[1..] == u;
  }

  lemma ClosedTwice(lines: Lines)
    ensures Closed(Closed(lines)) == Closed(lines)
  {
    if Stripped(lines) == [] {
      StrippedIs(["", ""], []);
    } else {
      StrippedIs(Stripped(lines) + [""], Stripped(lines));
    }
  }

  // ----- the exact condition

  lemma {:induction false} TakenIgnoresWanted(u: seq<Section>, wl: Lines)
    ensures RewriteSections(u, wl, true) == RewriteSections(u, [], true)
  {
    hide Kept;
    hide Dropped;
    if u != [] {
      TakenIgnoresWanted(u[1..], wl);
    }
  }

  lemma HasSafeCons(s: Section, rest: seq<Section>)
    ensures HasSafe([s] + rest) <==> s.name == "safe" || HasSafe(rest)
  {
    var u := [s] + rest;
    if HasSafe(rest) {
      var i :| 0 <= i < |rest| && rest[i].name == "safe";
      assert u[i + 1].name == "safe";
    }
    if s.name == "safe" {
      assert u[0].name == "safe";
    }
  }

  lemma {:induction false} NoSafePrefix(b: seq<Section>, rest: seq<Section>, wl: Lines)
    requires !HasSafe(b)
    ensures RewriteSections(b + rest, wl, false) == RewriteSections(b, [], true) + RewriteSections(rest, wl, false)
  {
    hide HasSafe;
    hide Kept;
    hide Dropped;
    if b == [] {
      assert b + rest == rest;
    } else {
      hide RewriteSections;
      assert b == [b[0]] + b[1..];
      HasSafeCons(b[0], b[1..]);
      NoSafePrefix(b[1..], rest, wl);
      assert b + rest == [b[0]] + (b[1..] + rest);
      RewriteCons(b[0], b[1..] + rest, wl, false);
      RewriteCons(b[0], b[1..], [], true);
    }
  }

  lemma {:induction false} NoSafeStays(b: seq<Section>)
    requires !HasSafe(b)
    ensures !HasSafe(RewriteSections(b, [], true))
  {
    hide Kept;
    hide Dropped;
    if b != [] {
      assert b[0].name != "safe";
      assert !HasSafe(b[1..]) by {
        assert forall i :: 0 <= i < |b[1..]| ==> b[1..][i] == b[i + 1];
      }
      NoSafeStays(b[1..]);
    }
  }

  /** Position of the first safe section, or the number of sections. */
  function FirstSafe(s: seq<Section>): (k: nat)
    ensures k <= |s|
    ensures k < |s| ==> s[k].name == "safe"
    ensures forall i :: 0 <= i < k ==> s[i].name != "safe"
  {
    if s == [] || s[0].name == "safe" then 0
    else
      var k := FirstSafe(s[1..]);
      assert forall i :: 0 < i < |s| ==> s[i] == s[1..][i - 1];
      k + 1
  }

  /**
   Removing every managed entry leaves a place the next setup will use again: the first safe section keeps a line of
   its own; or nothing is left of the safe sections or after the first of them, and what is left, if anything,
   ends in exactly one newline.
   */
  predicate KeepsPlace(s: seq<Section>) {
    var k := FirstSafe(s);
    var before := RewriteSections(s[..k], [], true);
    if k < |s| && Kept(s[k].lines) != [] then true
    else
      && (k < |s| ==> RewriteSections(s[k + 1..], [], true) == [])
      && (before == [] || CloseSection(before[|before| - 1]) == before[|before| - 1])
  }

  lemma {:induction false} FirstSafeSplits(s: seq<Section>)
    ensures var k := FirstSafe(s);
            && !HasSafe(s[..k])
            && s == s[..k] + (if k < |s| then [s[k]] + s[k + 1..] else [])
            && (k < |s| ==> s[k].name == "safe")
  {
    hide FirstSafe;
  }

  /** What removing everything leaves, and what a setup of the original writes. */
  lemma Shapes(s: seq<Section>, wl: Lines)
    requires wl != []
    ensures var k := FirstSafe(s);
            var b := RewriteSections(s[..k], [], true);
            var c := if k < |s| then RewriteSections(s[k + 1..], [], true) else [];
            var own := if k < |s| then Kept(s[k].lines) else [];
            && RewriteSections(s, [], false) == b + (if own == [] then [] else [Section("safe", own)]) + c
            && RewriteSections(s, wl, false) == b + [Section("safe", own + wl)] + c
  {
    FirstSafeSplits(s);
    var k := FirstSafe(s);
    hide *;
    if k < |s| {
      ShapesWith(s[..k], s[k], s[k + 1..], wl);
    } else {
      ShapesWithout(s[..k], wl);
    }
  }

  lemma ShapesWith(before: seq<Section>, f: Section, after: seq<Section>, wl: Lines)
    requires !HasSafe(before) && f.name == "safe" && wl != []
    ensures var b, c, own := RewriteSections(before, [], true), RewriteSections(after, [], true), Kept(f.lines);
            && RewriteSections(before + ([f] + after), [], false) == b + (if own == [] then [] else [Section("safe", own)]) + c
            && RewriteSections(before + ([f] + after), wl, false) == b + [Section("safe", own + wl)] + c
  {
    hide *;
    NoSafePrefix(before, [f] + after, []);
    NoSafePrefix(before, [f] + after, wl);
    SafeFirst(f, after, wl);
  }

  lemma ShapesWithout(before: seq<Section>, wl: Lines)
    requires !HasSafe(before) && wl != []
    ensures RewriteSections(before + [], [], false) == RewriteSections(before, [], true) + [] + []
    ensures RewriteSections(before + [], wl, false) == RewriteSections(before, [], true) + [Section("safe", [] + wl)] + []
  {
    hide *;
    NoSafePrefix(before, [], []);
    NoSafePrefix(before, [], wl);
    NoneLeft(wl);
  }

  lemma NoneLeft(wl: Lines)
    requires wl != []
    ensures RewriteSections([], [], false) == [] && RewriteSections([], wl, false) == [Section("safe", wl)]
    ensures [] + wl == wl
  {
  }

  lemma SafeFirst(f: Section, c: seq<Section>, wl: Lines)
    requires f.name == "safe" && wl != []
    ensures RewriteSections([f] + c, [], false)
         == (if Kept(f.lines) == [] then [] else [Section("safe", Kept(f.lines))]) + RewriteSections(c, [], true)
    ensures RewriteSections([f] + c, wl, false) == [Section("safe", Kept(f.lines) + wl)] + RewriteSections(c, [], true)
  {
    hide Kept;
    RewriteCons(f, c, [], false);
    RewriteCons(f, c, wl, false);
    TakenIgnoresWanted(c, wl);
    assert Kept(f.lines) + [] == Kept(f.lines);
  }

  /** The sections a rewrite leaves are left again by the next one. */
  lemma {:induction false} Stable(u: seq<Section>, i: bool)
    ensures RewriteSections(RewriteSections(u, [], i), [], true) == RewriteSections(u, [], i)
  {
    NoLinesManaged();
    RewriteTwice(u, [], [], i);
    NothingWantedIgnoresFlag(RewriteSections(u, [], i), i, true);
  }

  /** When the first safe section keeps a line of its own, the next setup writes there. */
  lemma PlaceKept(s: seq<Section>, wl: Lines)
    requires wl != [] && AllManaged(wl)
    requires FirstSafe(s) < |s| && Kept(s[FirstSafe(s)].lines) != []
    ensures var x := RewriteSections(s, [], false);
            && HasSafe(x) && RewriteSections(x, wl, false) == RewriteSections(s, wl, false)
  {
    FirstSafeSplits(s);
    var k := FirstSafe(s);
    assert s == s[..k] + ([s[k]] + s[k + 1..]);
    hide *;
    PlaceKeptWith(s[..k], s[k], s[k + 1..], wl);
  }

  lemma {:induction false} PlaceKeptWith(before: seq<Section>, f: Section, after: seq<Section>, wl: Lines)
    requires wl != [] && !HasSafe(before) && f.name == "safe" && Kept(f.lines) != []
    ensures HasSafe(RewriteSections(before + ([f] + after), [], false))
    ensures RewriteSections(RewriteSections(before + ([f] + after), [], false), wl, false)
         == RewriteSections(before + ([f] + after), wl, false)
  {
    OwnAgain(f.lines);
    hide *;
    PlaceKeptShape(before, f, after, wl);
    NoSafeStays(before);
    Stable(before, true);
    Stable(after, true);
    PlaceKeptRewrite(RewriteSections(before, [], true), Section("safe", Kept(f.lines)), RewriteSections(after, [], true), wl);
  }

  lemma {:induction false} PlaceKeptShape(before: seq<Section>, f: Section, after: seq<Section>, wl: Lines)
    requires wl != [] && !HasSafe(before) && f.name == "safe" && Kept(f.lines) != []
    ensures RewriteSections(before + ([f] + after), [], false)
         == RewriteSections(before, [], true) + ([Section("safe", Kept(f.lines))] + RewriteSections(after, [], true))
    ensures RewriteSections(before + ([f] + after), wl, false)
         == RewriteSections(before, [], true) + ([Section("safe", Kept(f.lines) + wl)] + RewriteSections(after, [], true))
  {
    hide *;
    ShapesWith(before, f, after, wl);
  }

  lemma {:induction false} PlaceKeptRewrite(b: seq<Section>, g: Section, c: seq<Section>, wl: Lines)
    requires wl != [] && !HasSafe(b) && g.name == "safe" && g.lines != [] && Kept(g.lines) == g.lines
    requires RewriteSections(b, [], true) == b && RewriteSections(c, [], true) == c
    ensures HasSafe(b + ([g] + c))
    ensures RewriteSections(b + ([g] + c), wl, false) == b + ([Section("safe", g.lines + wl)] + c)
  {
    hide *;
    ShapesWith(b, g, c, wl);
    assert b + [g] + c == b + ([g] + c);
    SafeInMiddle(b, g, c);
  }

  lemma OwnAgain(lines: Lines)
    ensures Kept(Kept(lines)) == Kept(lines)
  {
    hide Kept;
    NoLinesManaged();
    KeptAgain(lines, []);
    assert Kept(lines) + [] == Kept(lines);
  }

  lemma SafeInMiddle(b: seq<Section>, g: Section, c: seq<Section>)
    requires g.name == "safe"
    ensures HasSafe(b + [g] + c)
  {
    assert (b + [g] + c)[|b|] == g;
  }

  lemma {:induction false} StableLength(x: seq<Section>, wl: Lines, i: bool)
    requires RewriteSections(x, [], true) == x
    ensures |RewriteSections(x, wl, i)| >= |x|
    ensures HasSafe(x) ==> |RewriteSections(x, wl, i)| == |x|
  {
    hide Kept;
    hide Dropped;
    hide HasSafe;
    if x == [] {
      assert !HasSafe(x) by {
        NoSectionIsSafe();
      }
    } else {
      var s := x[0];
      var j := i || s.name == "safe";
      StableTail(x);
      StableLength(x[1..], wl, j);
      assert x == [s] + x[1..];
      HasSafeCons(s, x[1..]);
      if s.name == "safe" {
        StableLengthTaken(x[1..], wl);
      }
    }
  }

  lemma NoSectionIsSafe()
    ensures !HasSafe([])
  {
  }

  lemma {:induction false} StableLengthTaken(x: seq<Section>, wl: Lines)
    requires RewriteSections(x, [], true) == x
    ensures |RewriteSections(x, wl, true)| == |x|
  {
    TakenIgnoresWanted(x, wl);
  }

  lemma {:induction false} ShorterOrEqual(x: seq<Section>)
    ensures |RewriteSections(x, [], true)| <= |x|
  {
    hide Kept;
    hide Dropped;
    if x != [] {
      ShorterOrEqual(x[1..]);
    }
  }

  lemma {:induction false} StableTail(x: seq<Section>)
    requires x != [] && RewriteSections(x, [], true) == x
    ensures Rewritten(x[0], [], true) == [x[0]]
    ensures RewriteSections(x[1..], [], true) == x[1..]
  {
    hide Kept;
    hide Dropped;
    ShorterOrEqual(x[1..]);
    var p: seq<Section> := Rewritten(x[0], [], true);
    var rest := RewriteSections(x[1..], [], true);
    assert |p| + |rest| == |x|;
    assert |p| == 1;
    assert (p + rest)[0] == x[0] && (p + rest)[1..] == rest;
  }
}
