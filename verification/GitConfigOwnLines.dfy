/** What a rewrite leaves alone and what it puts in, read back from the written text. */
module GitConfigOwnLines {
  import opened Text
  import opened GitConfig
  import opened GitConfigLaws
  import opened GitConfigDocs
  import opened GitConfigResults

  /** A line and the name of its section. */
  type Tagged = (string, string)

  /** The nonblank lines that are not hazmat's. In other sections than `safe` the marker means nothing. */
  function OwnLines(name: string, lines: Lines): seq<Tagged> {
    if lines == [] then []
    else if Blank(lines[0]) || (name == "safe" && Managed(lines[0])) then OwnLines(name, lines[1..])
    else [(name, lines[0])] + OwnLines(name, lines[1..])
  }

  function AllOwnLines(u: seq<Section>): seq<Tagged> {
    if u == [] then [] else OwnLines(u[0].name, u[0].lines) + AllOwnLines(u[1..])
  }

  function MarkedLines(lines: Lines): Lines {
    if lines == [] then []
    else (if Managed(lines[0]) then [lines[0]] else []) + MarkedLines(lines[1..])
  }

  /** The managed lines of the safe sections. */
  function AllMarkedLines(u: seq<Section>): Lines {
    if u == [] then []
    else (if u[0].name == "safe" then MarkedLines(u[0].lines) else []) + AllMarkedLines(u[1..])
  }

  // ----- one section

  lemma {:induction false} OwnAppend(name: string, a: Lines, b: Lines)
    ensures OwnLines(name, a + b) == OwnLines(name, a) + OwnLines(name, b)
    ensures MarkedLines(a + b) == MarkedLines(a) + MarkedLines(b)
  {
    OwnLinesAppend(name, a, b);
    MarkedAppend(a, b);
  }

  lemma {:induction false} OwnLinesAppend(name: string, a: Lines, b: Lines)
    ensures OwnLines(name, a + b) == OwnLines(name, a) + OwnLines(name, b)
  {
    hide Managed;
    hide Blank;
    if a == [] {
      assert a + b == b;
      assert [] + OwnLines(name, b) == OwnLines(name, b);
    } else {
      assert (a + b)[1..] == a[1..] + b;
      OwnLinesAppend(name, a[1..], b);
      var x, y := OwnLines(name, a[1..]), OwnLines(name, b);
      assert [(name, a[0])] + (x + y) == ([(name, a[0])] + x) + y;
    }
  }

  lemma {:induction false} MarkedAppend(a: Lines, b: Lines)
    ensures MarkedLines(a + b) == MarkedLines(a) + MarkedLines(b)
  {
    hide Managed;
    if a == [] {
      assert a + b == b;
      assert [] + MarkedLines(b) == MarkedLines(b);
    } else {
      assert (a + b)[1..] == a[1..] + b;
      MarkedAppend(a[1..], b);
      var h, x, y := if Managed(a[0]) then [a[0]] else [], MarkedLines(a[1..]), MarkedLines(b);
      assert h + (x + y) == (h + x) + y;
    }
  }

  lemma {:induction false} OwnOfBlank(name: string, lines: Lines)
    requires forall i :: 0 <= i < |lines| ==> Blank(lines[i])
    ensures OwnLines(name, lines) == []
  {
    hide Managed;
    hide Blank;
    if lines != [] {
      OwnOfBlank(name, lines[1..]);
    }
  }

  lemma {:induction false} OwnOfTrimmed(name: string, lines: Lines)
    ensures OwnLines(name, TrimEdges(lines)) == OwnLines(name, lines)
  {
    hide Managed;
    hide Blank;
    OwnOfFront(name, lines);
    OwnOfBack(name, DropBlankFront(lines));
  }

  lemma {:induction false} OwnOfFront(name: string, lines: Lines)
    ensures OwnLines(name, DropBlankFront(lines)) == OwnLines(name, lines)
  {
    hide Managed;
    hide Blank;
    if lines != [] && Blank(lines[0]) {
      OwnOfFront(name, lines[1..]);
    }
  }

  lemma {:induction false} OwnOfBack(name: string, lines: Lines)
    ensures OwnLines(name, DropBlankBack(lines)) == OwnLines(name, lines)
  {
    hide Managed;
    hide Blank;
    if lines != [] && Blank(lines[|lines| - 1]) {
      var init, l := lines[..|lines| - 1], lines[|lines| - 1];
      assert lines == init + [l];
      OwnAppend(name, init, [l]);
      assert OwnLines(name, [l]) == [];
      OwnOfBack(name, init);
    }
  }

  lemma {:induction false} OwnOfUnmanaged(lines: Lines)
    ensures OwnLines("safe", Unmanaged(lines)) == OwnLines("safe", lines)
  {
    hide Managed;
    hide Blank;
    if lines != [] {
      OwnOfUnmanaged(lines[1..]);
    }
  }

  lemma {:induction false} OwnOfManaged(wl: Lines)
    requires AllManaged(wl)
    ensures OwnLines("safe", wl) == [] && MarkedLines(wl) == wl
  {
    hide Managed;
    hide Blank;
    hide LineOk;
    if wl != [] {
      OwnOfManaged(wl[1..]);
    }
  }

  lemma {:induction false} NoneMarked(lines: Lines)
    requires forall i :: 0 <= i < |lines| ==> !Managed(lines[i])
    ensures MarkedLines(lines) == []
  {
    hide Managed;
    if lines != [] {
      NoneMarked(lines[1..]);
    }
  }

  /** A rewritten safe section: its own lines as before, its managed lines exactly the new ones. */
  lemma SafeSection(lines: Lines, wl: Lines)
    requires AllManaged(wl)
    ensures OwnLines("safe", Kept(lines) + wl) == OwnLines("safe", lines)
    ensures MarkedLines(Kept(lines) + wl) == wl
  {
    hide Managed;
    hide Blank;
    hide TrimEdges;
    hide LineOk;
    OwnAppend("safe", Kept(lines), wl);
    OwnOfManaged(wl);
    OwnOfTrimmed("safe", Unmanaged(lines));
    OwnOfUnmanaged(lines);
    UnmanagedAreUnmanaged(lines);
    TrimEdgesStable(Unmanaged(lines));
    assert forall i :: 0 <= i < |Kept(lines)| ==> Kept(lines)[i] in Unmanaged(lines);
    NoneMarked(Kept(lines));
  }

  lemma DroppedOwnsNothing(s: Section)
    requires TrimEdges(s.lines) == []
    ensures OwnLines(s.name, s.lines) == []
  {
    OwnOfTrimmed(s.name, s.lines);
  }

  // ----- all sections

  lemma {:induction false} OwnConcat(u: seq<Section>, v: seq<Section>)
    ensures AllOwnLines(u + v) == AllOwnLines(u) + AllOwnLines(v)
    ensures AllMarkedLines(u + v) == AllMarkedLines(u) + AllMarkedLines(v)
  {
    AllOwnConcat(u, v);
    AllMarkedConcat(u, v);
  }

  lemma {:induction false} AllOwnConcat(u: seq<Section>, v: seq<Section>)
    ensures AllOwnLines(u + v) == AllOwnLines(u) + AllOwnLines(v)
  {
    hide OwnLines;
    if u == [] {
      assert u + v == v;
      assert [] + AllOwnLines(v) == AllOwnLines(v);
    } else {
      assert (u + v)[1..] == u[1..] + v;
      AllOwnConcat(u[1..], v);
      var h, x, y := OwnLines(u[0].name, u[0].lines), AllOwnLines(u[1..]), AllOwnLines(v);
      assert h + (x + y) == (h + x) + y;
    }
  }

  lemma {:induction false} AllMarkedConcat(u: seq<Section>, v: seq<Section>)
    ensures AllMarkedLines(u + v) == AllMarkedLines(u) + AllMarkedLines(v)
  {
    hide MarkedLines;
    if u == [] {
      assert u + v == v;
      assert [] + AllMarkedLines(v) == AllMarkedLines(v);
    } else {
      assert (u + v)[1..] == u[1..] + v;
      AllMarkedConcat(u[1..], v);
      var h := if u[0].name == "safe" then MarkedLines(u[0].lines) else [];
      var x, y := AllMarkedLines(u[1..]), AllMarkedLines(v);
      assert h + (x + y) == (h + x) + y;
    }
  }

  lemma {:induction false} OwnOfOne(s: Section)
    ensures AllOwnLines([s]) == OwnLines(s.name, s.lines)
    ensures AllMarkedLines([s]) == if s.name == "safe" then MarkedLines(s.lines) else []
  {
    hide OwnLines;
    hide MarkedLines;
    assert AllOwnLines([s]) == OwnLines(s.name, s.lines) + AllOwnLines([]);
    assert AllMarkedLines([s]) == (if s.name == "safe" then MarkedLines(s.lines) else []) + AllMarkedLines([]);
  }

  lemma {:induction false} RewrittenOwn(s: Section, wl: Lines, i: bool)
    requires AllManaged(wl)
    ensures AllOwnLines(Rewritten(s, wl, i)) == OwnLines(s.name, s.lines)
    ensures AllMarkedLines(Rewritten(s, wl, i)) == if s.name == "safe" && !i then wl else []
  {
    hide OwnLines;
    hide MarkedLines;
    hide Kept;
    hide TrimEdges;
    hide AllManaged;
    NoLinesManaged();
    if s.name != "safe" {
      if Dropped(s) {
        DroppedOwnsNothing(s);
      } else {
        OwnOfOne(s);
      }
    } else {
      var extra := if i then [] else wl;
      SafeSection(s.lines, extra);
      OwnOfOne(Section("safe", Kept(s.lines) + extra));
      if Kept(s.lines) + extra == [] {
        assert OwnLines("safe", []) == [] by {
          NothingOwned();
        }
      }
    }
  }

  lemma NothingOwned()
    ensures OwnLines("safe", []) == []
  {
  }

  lemma {:induction false} RewriteOwn(u: seq<Section>, wl: Lines, i: bool)
    requires AllManaged(wl)
    ensures AllOwnLines(RewriteSections(u, wl, i)) == AllOwnLines(u)
    ensures AllMarkedLines(RewriteSections(u, wl, i)) == if i then [] else wl
  {
    hide OwnLines;
    hide MarkedLines;
    hide Rewritten;
    hide AllManaged;
    if u == [] {
      if !i && wl != [] {
        OwnOfOne(Section("safe", wl));
        OwnOfManaged(wl);
      }
    } else {
      var j := i || u[0].name == "safe";
      RewrittenOwn(u[0], wl, i);
      RewriteOwn(u[1..], wl, j);
      OwnConcat(Rewritten(u[0], wl, i), RewriteSections(u[1..], wl, j));
      assert wl + [] == wl && [] + wl == wl;
    }
  }

  lemma {:induction false} CloseOwn(s: Section)
    ensures OwnLines(s.name, CloseSection(s).lines) == OwnLines(s.name, s.lines)
    ensures MarkedLines(CloseSection(s).lines) == MarkedLines(s.lines)
  {
    hide Stripped;
    EmptyIsUnmanaged();
    var k := Stripped(s.lines);
    OwnAppend(s.name, k, [""]);
    var rest := s.lines[|k|..];
    assert s.lines == k + rest;
    OwnAppend(s.name, k, rest);
    assert forall i :: 0 <= i < |rest| ==> rest[i] == "";
    OwnOfBlank(s.name, rest);
    NoneMarked(rest);
    OwnOfBlank(s.name, [""]);
    NoneMarked([""]);
  }

  lemma {:induction false} CloseAllOwn(u: seq<Section>)
    ensures AllOwnLines(Close(u)) == AllOwnLines(u)
    ensures AllMarkedLines(Close(u)) == AllMarkedLines(u)
  {
    hide OwnLines;
    hide MarkedLines;
    hide AllOwnLines;
    hide AllMarkedLines;
    hide CloseSection;
    if u == [] {
      assert Close(u) == u;
    } else {
      var init, s := u[..|u| - 1], u[|u| - 1];
      assert u == init + [s] && Close(u) == init + [CloseSection(s)];
      OwnConcat(init, [s]);
      OwnConcat(init, [CloseSection(s)]);
      OwnOfOne(s);
      OwnOfOne(CloseSection(s));
      CloseSectionFacts(s);
      CloseOwn(s);
    }
  }

  lemma {:induction false} PreambleOwn(u: seq<Section>)
    ensures AllOwnLines(WithPreamble(u)) == AllOwnLines(u)
    ensures AllMarkedLines(WithPreamble(u)) == AllMarkedLines(u)
  {
    OwnOfOne(Section("", []));
    OwnConcat([Section("", [])], u);
  }

  lemma {:induction false} EmptyTextOwn()
    ensures AllOwnLines([Section("", ["", ""])]) == []
    ensures AllMarkedLines([Section("", ["", ""])]) == []
  {
    EmptyIsUnmanaged();
    OwnOfOne(Section("", ["", ""]));
    OwnOfBlank("", ["", ""]);
  }

  /**
   The written text, read again, has every nonblank line that is not hazmat's in its section and in order, and its
   safe sections hold exactly the wanted lines as managed lines.
   */
  lemma RewriteKeepsOwnLines(content: string, wanted: seq<string>)
    requires Regular(content) && EntriesOk(wanted)
    ensures AllOwnLines(Sections(Rewrite(content, wanted))) == AllOwnLines(Sections(content))
    ensures AllMarkedLines(Sections(Rewrite(content, wanted))) == WantedLines(wanted)
  {
    hide *;
    RegularIs(content);
    SectionsIs(content);
    SectionsIs(Rewrite(content, wanted));
    WantedLinesOk(wanted);
    RewriteSplits(content, wanted);
    RewriteDocIs(content, wanted);
    var u := RewriteSections(Sections(content), WantedLines(wanted), false);
    Reread(u);
    RewriteOwn(Sections(content), WantedLines(wanted), false);
    if u == [] {
      EmptyTextOwn();
      NothingInNone();
    } else {
      PreambleOwn(Close(u));
      CloseAllOwn(u);
    }
  }

  lemma NothingInNone()
    ensures AllOwnLines([]) == [] && AllMarkedLines([]) == []
  {
  }
}
