/** Exactly when the last writer wins. */
module GitConfigExact {
  import opened Text
  import opened GitConfig
  import opened GitConfigLaws
  import opened GitConfigDocs
  import opened GitConfigResults

  lemma {:induction false} ClosedStaysWithoutSafe(u: seq<Section>)
    requires !HasSafe(u) && RewriteSections(u, [], true) == u
    ensures RewriteSections(Close(u), [], true) == Close(u) && !HasSafe(Close(u))
  {
    hide HasSafe;
    hide Close;
    hide Rewritten;
    hide RewriteSections;
    if u == [] {
      CloseNone();
    } else {
      var s, rest := u[0], u[1..];
      assert u == [s] + rest;
      HasSafeCons(s, rest);
      StableTail(u);
      if rest == [] {
        assert u == [s];
        ClosedOneStays(s);
      } else {
        ClosedStaysWithoutSafe(rest);
        CloseAppend([s], rest);
        HasSafeCons(s, Close(rest));
        RewriteCons(s, Close(rest), [], true);
      }
    }
  }

  lemma ClosedOneStays(s: Section)
    requires s.name != "safe" && Rewritten(s, [], true) == [s]
    ensures RewriteSections(Close([s]), [], true) == Close([s]) && !HasSafe(Close([s]))
  {
    hide TrimEdges;
    hide CloseSection;
    hide Kept;
    var c := CloseSection(s);
    assert Close([s]) == [c];
    CloseSectionFacts(s);
    assert [c] + [] == [c];
    RewriteCons(c, [], [], true);
  }

  /** A rewrite of sections without a safe one appends it. */
  lemma AppendedAtEnd(u: seq<Section>, wl: Lines)
    requires wl != [] && !HasSafe(u) && RewriteSections(u, [], true) == u
    ensures RewriteSections(Close(u), wl, false) == Close(u) + [Section("safe", wl)]
  {
    hide *;
    ClosedStaysWithoutSafe(u);
    NoSafePrefix(Close(u), [], wl);
    assert Close(u) + [] == Close(u);
    NoneLeft(wl);
  }

  lemma CloseNames(u: seq<Section>)
    ensures forall i :: 0 <= i < |u| ==> Close(u)[i].name == u[i].name
  {
  }

  /** Texts written from different sections differ, up to the empty lines at the end. */
  lemma TextDecides(u: seq<Section>, v: seq<Section>)
    requires Writable(u) && Writable(v)
    ensures Closed(RenderLines(u)) == Closed(RenderLines(v)) <==> Close(u) == Close(v)
  {
    hide RenderLines;
    hide Closed;
    hide Writable;
    hide Parse;
    if Close(u) == Close(v) {
      CloseDecides(u, v);
    }
    if Closed(RenderLines(u)) == Closed(RenderLines(v)) {
      Reread(u);
      Reread(v);
      if u != [] {
        ClosedPreamble(u);
      }
      if v != [] {
        ClosedPreamble(v);
      }
      hide Close;
      if u == [] || v == [] {
        CloseNone();
      } else {
        var e := Section("", []);
        assert ([e] + Close(u))[1..] == Close(u) && ([e] + Close(v))[1..] == Close(v);
        assert ([e] + Close(u))[0] == e && ([e] + Close(v))[0] == e;
      }
    }
  }

  /** A written preamble is never mistaken for the empty one put in front of a header, nor for the empty text. */
  lemma ClosedPreamble(u: seq<Section>)
    requires Writable(u) && u != []
    ensures Close(u)[0].name == "" ==> Close(u)[0].lines != [] && Close(u)[0].lines != ["", ""]
    ensures WithPreamble(Close(u)) == (if Close(u)[0].name == "" then Close(u) else [Section("", [])] + Close(u))
  {
    BlankSectionsDrop();
    CloseWritable(u);
    hide Dropped;
    hide CloseSection;
  }

  // ----- the three shapes of the original

  lemma OwnLinesWin(s: seq<Section>, wl: Lines)
    requires wl != [] && AllManaged(wl)
    requires FirstSafe(s) < |s| && Kept(s[FirstSafe(s)].lines) != []
    ensures Close(RewriteSections(Close(RewriteSections(s, [], false)), wl, false)) == Close(RewriteSections(s, wl, false))
  {
    hide *;
    PlaceKept(s, wl);
    SafeIsSome(RewriteSections(s, [], false));
    RewriteClosed(RewriteSections(s, [], false), wl, false);
  }

  lemma SafeIsSome(u: seq<Section>)
    requires HasSafe(u)
    ensures u != []
  {
  }

  lemma {:induction false} LaterSectionsLose(b: seq<Section>, c: seq<Section>, wl: Lines)
    requires wl != [] && !HasSafe(b) && c != []
    requires RewriteSections(b, [], true) == b && RewriteSections(c, [], true) == c
    requires RewriteSections(b + c, [], true) == b + c
    ensures Close(RewriteSections(Close(b + c), wl, false)) != Close(b + [Section("safe", wl)] + c)
  {
    var u := b + c;
    var z := b + [Section("safe", wl)] + c;
    var v := RewriteSections(Close(u), wl, false);
    if HasSafe(u) {
      hide RewriteSections;
      RewriteClosed(u, wl, false);
      StableLength(u, wl, false);
      assert |Close(v)| == |u|;
      assert |Close(z)| == |u| + 1;
    } else {
      assert u[|b|] == c[0];
      hide RewriteSections;
      AppendedAtEnd(u, wl);
      CloseNames(u);
      CloseNames(v);
      CloseNames(z);
      assert Close(v)[|b|].name == v[|b|].name == u[|b|].name;
      assert z[|b|].name == "safe";
    }
  }

  lemma {:induction false} NothingLater(b: seq<Section>, wl: Lines)
    requires wl != [] && !HasSafe(b) && RewriteSections(b, [], true) == b
    ensures Close(RewriteSections(Close(b), wl, false)) == Close(b + [Section("safe", wl)])
            <==> b == [] || CloseSection(b[|b| - 1]) == b[|b| - 1]
  {
    hide RewriteSections;
    hide CloseSection;
    AppendedAtEnd(b, wl);
    CloseAppend(Close(b), [Section("safe", wl)]);
    CloseAppend(b, [Section("safe", wl)]);
    var tail := Close([Section("safe", wl)]);
    if Close(b) + tail == b + tail {
      assert Close(b) == (Close(b) + tail)[..|b|] == (b + tail)[..|b|] == b;
    }
    if b != [] && CloseSection(b[|b| - 1]) == b[|b| - 1] {
      assert Close(b) == b;
    }
  }

  lemma PlaceLost(s: seq<Section>, wl: Lines, b: seq<Section>, c: seq<Section>)
    requires wl != [] && AllManaged(wl)
    requires !HasSafe(b) && RewriteSections(b, [], true) == b && RewriteSections(c, [], true) == c
    requires RewriteSections(s, [], false) == b + c && RewriteSections(b + c, [], true) == b + c
    requires RewriteSections(s, wl, false) == b + [Section("safe", wl)] + c
    ensures Close(RewriteSections(Close(RewriteSections(s, [], false)), wl, false)) == Close(RewriteSections(s, wl, false))
            <==> c == [] && (b == [] || CloseSection(b[|b| - 1]) == b[|b| - 1])
  {
    hide *;
    if c != [] {
      LaterSectionsLose(b, c, wl);
    } else {
      NothingLater(b, wl);
      assert b + c == b;
      assert b + [Section("safe", wl)] + c == b + [Section("safe", wl)];
    }
  }

  /** What the first safe section has before it and after it once everything managed is gone. */
  function BeforePlace(s: seq<Section>): seq<Section> {
    RewriteSections(s[..FirstSafe(s)], [], true)
  }

  function AfterPlace(s: seq<Section>): seq<Section> {
    if FirstSafe(s) < |s| then RewriteSections(s[FirstSafe(s) + 1..], [], true) else []
  }

  predicate OwnsPlace(s: seq<Section>) {
    FirstSafe(s) < |s| && Kept(s[FirstSafe(s)].lines) != []
  }

  lemma PlaceIs(s: seq<Section>)
    requires !OwnsPlace(s)
    ensures KeepsPlace(s) <==>
            AfterPlace(s) == []
            && (BeforePlace(s) == [] || CloseSection(BeforePlace(s)[|BeforePlace(s)| - 1]) == BeforePlace(s)[|BeforePlace(s)| - 1])
  {
    hide RewriteSections;
    hide Kept;
    hide CloseSection;
    hide FirstSafe;
  }

  lemma PlaceShapes(s: seq<Section>, wl: Lines)
    requires wl != [] && !OwnsPlace(s)
    ensures RewriteSections(s, [], false) == BeforePlace(s) + AfterPlace(s)
    ensures RewriteSections(s, wl, false) == BeforePlace(s) + [Section("safe", wl)] + AfterPlace(s)
  {
    hide RewriteSections;
    hide Kept;
    hide FirstSafe;
    Shapes(s, wl);
    assert BeforePlace(s) + [] + AfterPlace(s) == BeforePlace(s) + AfterPlace(s);
    assert [] + wl == wl;
  }

  lemma PlaceStable(s: seq<Section>)
    ensures !HasSafe(BeforePlace(s))
    ensures RewriteSections(BeforePlace(s), [], true) == BeforePlace(s)
    ensures RewriteSections(AfterPlace(s), [], true) == AfterPlace(s)
  {
    NothingStays();
    hide RewriteSections;
    hide FirstSafe;
    hide HasSafe;
    FirstSafeSplits(s);
    var k := FirstSafe(s);
    NoSafeStays(s[..k]);
    Stable(s[..k], true);
    if k < |s| {
      Stable(s[k + 1..], true);
    }
  }

  lemma SectionsDecide(s: seq<Section>, wl: Lines)
    requires wl != [] && AllManaged(wl)
    ensures Close(RewriteSections(Close(RewriteSections(s, [], false)), wl, false)) == Close(RewriteSections(s, wl, false))
            <==> KeepsPlace(s)
  {
    if OwnsPlace(s) {
      OwnLinesWin(s, wl);
      assert KeepsPlace(s);
    } else {
      hide *;
      PlaceIs(s);
      PlaceShapes(s, wl);
      PlaceStable(s);
      Stable(s, false);
      PlaceLost(s, wl, BeforePlace(s), AfterPlace(s));
    }
  }

  lemma NothingStays()
    ensures RewriteSections([], [], true) == []
  {
  }

  /**
   The last writer wins exactly when the first write asks for something, or the second asks for nothing, or what the
   first leaves keeps the place of the managed lines.
   */
  lemma LastWriterWinsIff(content: string, w1: seq<string>, w2: seq<string>)
    requires Regular(content) && EntriesOk(w1) && EntriesOk(w2)
    ensures Rewrite(Rewrite(content, w1), w2) == Rewrite(content, w2)
            <==> w1 != [] || w2 == [] || KeepsPlace(Sections(content))
  {
    if w1 != [] || w2 == [] {
      LastWriterWins(content, w1, w2);
    } else {
      WantedLinesOk(w2);
      assert WantedLines(w1) == [];
      var s := Sections(content);
      var l2 := WantedLines(w2);
      hide *;
      RegularIs(content);
      SectionsIs(content);
      TwoRewrites(content, w1, w2);
      RewriteSplits(content, w2);
      RewriteDocIs(content, w2);
      var v := RewriteSections(Close(RewriteSections(s, [], false)), l2, false);
      SectionsDecide(s, l2);
      TextDecides(v, RewriteSections(s, l2, false));
      if Closed(RenderLines(v)) == Closed(RenderLines(RewriteSections(s, l2, false))) {
        SameSplit(Rewrite(Rewrite(content, w1), w2), Rewrite(content, w2));
      }
    }
  }
}
