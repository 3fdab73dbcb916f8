/**
 Idempotence of the rewrite for every document, also one with `[]` headers.

 A section without a name is written without its header, so on the second
 reading its lines belong to the section before. `Joined` is what the sections
 become; the theorem says when the second rewrite leaves that alone.
 */
module GitConfigHeaderless {
  import opened Text
  import opened GitConfig
  import opened GitConfigLaws
  import opened GitConfigDocs
  import opened GitConfigResults
  import opened GitConfigExact

  // ---- sections without a header join the one before ----------------------------------------------------------

  /** The lines of the sections without a header that `u` begins with. */
  function Lead(u: seq<Section>): Lines {
    if u == [] || u[0].name != "" then [] else u[0].lines + Lead(u[1..])
  }

  /** The sections with a header, each with the lines that join it. */
  function Headed(u: seq<Section>): seq<Section> {
    if u == [] then []
    else if u[0].name == "" then Headed(u[1..])
    else [Section(u[0].name, u[0].lines + Lead(u[1..]))] + Headed(u[1..])
  }

  function Joined(u: seq<Section>): seq<Section> {
    if u == [] || u[0].name != "" then Headed(u) else [Section("", Lead(u))] + Headed(u)
  }

  lemma {:induction false} LeadAndHeadedRender(u: seq<Section>)
    ensures RenderLines(u) == Lead(u) + RenderLines(Headed(u))
  {
    if u != [] {
      var lead, rest := Lead(u[1..]), RenderLines(Headed(u[1..]));
      LeadAndHeadedRender(u[1..]);
      if u[0].name == "" {
        Grouped([], u[0].lines, lead, rest);
        assert [] + u[0].lines == u[0].lines && [] + (u[0].lines + lead) == u[0].lines + lead;
      } else {
        var s := Section(u[0].name, u[0].lines + lead);
        assert Headed(u)[0] == s && Headed(u)[1..] == Headed(u[1..]);
        Grouped(["[" + s.name + "]"], u[0].lines, lead, rest);
        assert [] + RenderLines(Headed(u)) == RenderLines(Headed(u));
      }
    }
  }

  lemma Grouped(a: Lines, b: Lines, c: Lines, d: Lines)
    ensures a + b + (c + d) == a + (b + c) + d
  {
  }

  /** Joined sections are written alike. */
  lemma JoinedRender(u: seq<Section>)
    ensures RenderLines(Joined(u)) == RenderLines(u)
  {
    LeadAndHeadedRender(u);
    if u != [] && u[0].name == "" {
      var p := Section("", Lead(u));
      assert Joined(u)[0] == p && Joined(u)[1..] == Headed(u);
      assert SectionLines(p) == Lead(u);
    } else {
      assert Lead(u) == [];
    }
  }

  // ---- what the first rewrite leaves --------------------------------------------------------------------------

  /** A safe section's own lines, trimmed and unmanaged, then `wl`. */
  predicate SafeForm(lines: Lines, wl: Lines) {
    && lines != [] && |wl| <= |lines| && lines[|lines| - |wl|..] == wl
    && Kept(lines[..|lines| - |wl|]) == lines[..|lines| - |wl|]
  }

  function Share(wl: Lines, taken: bool): Lines {
    if taken then [] else wl
  }

  predicate SectionForm(s: Section, wl: Lines, taken: bool) {
    && ReadOk(s)
    && (s.name == "" ==> !Dropped(s))
    && (s.name == "safe" ==> SafeForm(s.lines, Share(wl, taken)))
  }

  predicate Form(u: seq<Section>, wl: Lines, taken: bool) {
    u == [] || (SectionForm(u[0], wl, taken) && Form(u[1..], wl, taken || u[0].name == "safe"))
  }

  lemma {:induction false} FormIgnoresFlag(u: seq<Section>, i: bool, j: bool)
    requires Form(u, [], i)
    ensures Form(u, [], j)
  {
    hide SafeForm;
    hide ReadOk;
    hide Dropped;
    if u != [] {
      FormIgnoresFlag(u[1..], i || u[0].name == "safe", j || u[0].name == "safe");
    }
  }

  lemma FormCons(s: Section, rest: seq<Section>, wl: Lines, taken: bool)
    ensures Form([s] + rest, wl, taken) <==> SectionForm(s, wl, taken) && Form(rest, wl, taken || s.name == "safe")
  {
    hide SectionForm;
    assert ([s] + rest)[1..] == rest;
  }

  lemma {:induction false} RewrittenForm(u: seq<Section>, wl: Lines, taken: bool)
    requires AllManaged(wl) && forall k :: 0 <= k < |u| ==> ReadOk(u[k])
    ensures Form(RewriteSections(u, wl, taken), wl, taken)
  {
    hide ReadOk;
    hide Rewritten;
    hide SectionForm;
    if u == [] {
      AppendedForm(wl, taken);
    } else {
      var s, j := u[0], taken || u[0].name == "safe";
      var rest := RewriteSections(u[1..], wl, j);
      RewrittenForm(u[1..], wl, j);
      RewrittenOne(s, wl, taken);
      if Rewritten(s, wl, taken) == [] {
        assert [] + rest == rest;
        if j != taken {
          DroppedSafeWantsNothing(s, wl, taken);
          FormIgnoresFlag(rest, j, taken);
        }
      } else {
        FormCons(Rewritten(s, wl, taken)[0], rest, wl, taken);
        assert Rewritten(s, wl, taken) == [Rewritten(s, wl, taken)[0]];
      }
    }
  }

  lemma DroppedSafeWantsNothing(s: Section, wl: Lines, taken: bool)
    requires Rewritten(s, wl, taken) == [] && s.name == "safe" && !taken
    ensures wl == []
  {
    hide Kept;
  }

  lemma AppendedForm(wl: Lines, taken: bool)
    requires AllManaged(wl)
    ensures Form(RewriteSections([], wl, taken), wl, taken)
  {
    KeptOfNone();
    ManagedLinesOk(wl);
    if !taken && wl != [] {
      hide Kept;
      hide LinesOk;
      assert wl[|wl| - |wl|..] == wl && wl[..0] == [];
      assert [Section("safe", wl)][1..] == [];
      assert SectionForm(Section("safe", wl), wl, false);
    }
  }

  lemma RewrittenOne(s: Section, wl: Lines, taken: bool)
    requires AllManaged(wl) && ReadOk(s)
    ensures |Rewritten(s, wl, taken)| <= 1
    ensures Rewritten(s, wl, taken) != [] ==>
              Rewritten(s, wl, taken)[0].name == s.name && SectionForm(Rewritten(s, wl, taken)[0], wl, taken)
  {
    SafeLinesOk(s.lines, wl);
    OwnAgain(s.lines);
    hide Kept;
    hide LinesOk;
    hide Dropped;
    if s.name == "safe" {
      var k, w := Kept(s.lines), Share(wl, taken);
      assert (k + w)[|k|..] == w && (k + w)[..|k|] == k;
    }
  }

  // ---- when joined lines survive the second rewrite -----------------------------------------------------------

  predicate NoneManaged(lines: Lines) {
    forall i :: 0 <= i < |lines| ==> !Managed(lines[i])
  }

  predicate EndsBlank(lines: Lines) {
    lines == [] || Blank(lines[|lines| - 1])
  }

  /** `joined` are the lines that join a safe section: there are none, or none is managed, the last is not blank, and the
      section does not hold the wanted lines. Empty lines at the very end of the document do not count. */
  predicate JoinsSafely(joined: Lines, last: bool, wl: Lines, taken: bool) {
    joined == [] || (Share(wl, taken) == [] && NoneManaged(joined) && !EndsBlank(if last then Stripped(joined) else joined))
  }

  predicate Settled(u: seq<Section>, wl: Lines, taken: bool) {
    u == [] || (&& (u[0].name == "safe" ==> JoinsSafely(Lead(u[1..]), Headed(u[1..]) == [], wl, taken))
                && Settled(u[1..], wl, taken || u[0].name == "safe"))
  }

  lemma SolidStays(lines: Lines)
    requires lines != [] ==> !Blank(lines[0]) && !Blank(lines[|lines| - 1])
    ensures TrimEdges(lines) == lines
  {
  }

  lemma OwnForm(own: Lines)
    requires Kept(own) == own
    ensures NoneManaged(own)
    ensures own != [] ==> !Blank(own[0]) && !Blank(own[|own| - 1])
  {
    UnmanagedAreUnmanaged(own);
    TrimEdgesStable(Unmanaged(own));
    hide Managed;
    hide Blank;
    hide TrimEdges;
    forall i | 0 <= i < |own|
      ensures !Managed(own[i])
    {
      assert own[i] in TrimEdges(Unmanaged(own));
    }
  }

  lemma KeptForm(lines: Lines)
    ensures NoneManaged(Kept(lines))
    ensures Kept(lines) != [] ==> !Blank(Kept(lines)[0]) && !Blank(Kept(lines)[|Kept(lines)| - 1])
  {
    OwnAgain(lines);
    OwnForm(Kept(lines));
  }

  /** Own lines with others after them stay exactly if none of those is managed and they do not end blank. */
  lemma OwnJoin(own: Lines, joined: Lines)
    requires Kept(own) == own && own != [] && joined != []
    ensures Kept(own + joined) == own + joined <==> NoneManaged(joined) && !EndsBlank(joined)
  {
    OwnForm(own);
    var all := own + joined;
    assert all[0] == own[0] && all[|all| - 1] == joined[|joined| - 1];
    assert forall i :: 0 <= i < |joined| ==> all[|own| + i] == joined[i];
    if Kept(all) == all {
      KeptForm(all);
      hide *;
      SolidJoin(own, joined);
    } else if NoneManaged(joined) && !EndsBlank(joined) {
      hide Managed;
      hide Blank;
      UnmanagedOfUnmanaged(all);
      SolidStays(all);
    }
  }

  lemma SolidJoin(own: Lines, joined: Lines)
    requires joined != [] && NoneManaged(own + joined) && !Blank((own + joined)[|own + joined| - 1])
    ensures NoneManaged(joined) && !EndsBlank(joined)
  {
    hide Managed;
    hide Blank;
    assert forall i :: 0 <= i < |joined| ==> (own + joined)[|own| + i] == joined[i];
  }

  lemma KeptEndsSolid(lines: Lines)
    ensures Stripped(Kept(lines)) == Kept(lines)
  {
    KeptForm(lines);
    assert Blank("");
    hide Kept;
    hide Blank;
    StrippedIs(Kept(lines), Kept(lines));
  }

  lemma StrippedJoin(a: Lines, b: Lines)
    requires a != [] && a[|a| - 1] != ""
    ensures Stripped(a + b) == a + Stripped(b)
  {
    var r := Stripped(b);
    assert (a + b)[..|a + r|] == a + r;
    assert r == [] ==> a + r == a;
    StrippedIs(a + b, a + r);
  }

  /** After wanted lines nothing may follow. */
  lemma WantedJoin(own: Lines, wl: Lines, joined: Lines)
    requires AllManaged(wl) && wl != [] && joined != []
    ensures Kept(own + wl + joined) + wl != own + wl + joined
    ensures Stripped(joined) != [] ==> Kept(own + wl + joined) + wl != own + wl + Stripped(joined)
  {
    var t := Kept(own + wl + joined);
    KeptForm(own + wl + joined);
    assert Managed(wl[0]);
    hide *;
    WantedFirst(t, own, wl, joined);
    WantedFirst(t, own, wl, Stripped(joined));
  }

  lemma WantedFirst(t: Lines, own: Lines, wl: Lines, joined: Lines)
    requires NoneManaged(t) && wl != [] && Managed(wl[0])
    ensures joined != [] ==> t + wl != own + wl + joined
  {
    hide Managed;
    var all := own + wl + joined;
    assert all[|own|] == wl[0];
    if |own| < |t| {
      assert (t + wl)[|own|] == t[|own|];
    } else if joined != [] {
      assert |t + wl| < |all|;
    }
  }

  predicate Solid(lines: Lines) {
    lines == [] || Stripped(lines) != []
  }

  /** One safe section on the second rewrite. */
  lemma JoinedSafe(lines: Lines, joined: Lines, wl: Lines, taken: bool)
    requires SafeForm(lines, Share(wl, taken)) && AllManaged(wl) && Solid(joined)
    ensures Kept(lines + joined) + Share(wl, taken) == lines + joined <==> JoinsSafely(joined, false, wl, taken)
    ensures Stripped(Kept(lines + joined) + Share(wl, taken)) == Stripped(lines + joined) <==> JoinsSafely(joined, true, wl, taken)
    ensures Kept(lines + joined) + Share(wl, taken) != []
  {
    var w := Share(wl, taken);
    var own := lines[..|lines| - |w|];
    assert lines == own + w;
    hide Kept;
    hide NoneManaged;
    hide EndsBlank;
    if w == [] {
      assert own == lines;
      PlainJoin(lines, joined);
      assert Kept(lines + joined) + [] == Kept(lines + joined);
    } else {
      assert w == wl;
      assert own + wl + joined == lines + joined;
      WantedSafe(own, joined, wl);
    }
  }

  lemma PlainJoin(own: Lines, joined: Lines)
    requires Kept(own) == own && own != [] && Solid(joined)
    ensures Kept(own + joined) != []
    ensures Kept(own + joined) == own + joined <==> joined == [] || (NoneManaged(joined) && !EndsBlank(joined))
    ensures Stripped(Kept(own + joined)) == Stripped(own + joined)
            <==> joined == [] || (NoneManaged(joined) && !EndsBlank(Stripped(joined)))
  {
    var e := Stripped(joined);
    OwnForm(own);
    assert Blank("");
    KeptNotEmpty(own, joined);
    KeptEndsSolid(own + joined);
    KeptStripped(own + joined);
    NoneManagedStripped(joined);
    hide Kept;
    hide NoneManaged;
    hide EndsBlank;
    hide Blank;
    StrippedJoin(own, joined);
    assert own + [] == own;
    if joined != [] {
      OwnJoin(own, joined);
      OwnJoin(own, e);
    } else {
      StrippedIs(own, own);
    }
  }

  lemma KeptNotEmpty(own: Lines, joined: Lines)
    requires Kept(own) == own && own != []
    ensures Kept(own + joined) != []
  {
    OwnForm(own);
    hide Managed;
    UnmanagedOfUnmanaged(own);
    UnmanagedAppend(own, joined);
    hide Unmanaged;
    hide Blank;
    var all := own + Unmanaged(joined);
    assert all[0] == own[0];
    assert DropBlankFront(all) == all;
    BackKeepsSolid(all, 0);
  }

  lemma {:induction false} BackKeepsSolid(lines: Lines, i: nat)
    requires i < |lines| && !Blank(lines[i])
    ensures DropBlankBack(lines) != []
  {
    hide Blank;
    if Blank(lines[|lines| - 1]) {
      BackKeepsSolid(lines[..|lines| - 1], i);
    }
  }

  lemma NoneManagedStripped(lines: Lines)
    ensures NoneManaged(lines) <==> NoneManaged(Stripped(lines))
  {
    EmptyIsUnmanaged();
    hide Managed;
    var r := Stripped(lines);
    if NoneManaged(r) {
      forall i | 0 <= i < |lines|
        ensures !Managed(lines[i])
      {
        assert i < |r| ==> lines[i] == r[i];
      }
    }
  }

  lemma WantedSafe(own: Lines, joined: Lines, wl: Lines)
    requires Kept(own) == own && AllManaged(wl) && wl != [] && Solid(joined)
    ensures Kept(own + wl + joined) + wl == own + wl + joined <==> joined == []
    ensures Stripped(Kept(own + wl + joined) + wl) == Stripped(own + wl + joined) <==> joined == []
  {
    var t := Kept(own + wl + joined);
    KeptAgain(own, wl);
    assert wl[|wl| - 1] != "" by {
      assert Blank("");
    }
    hide *;
    assert (t + wl)[|t + wl| - 1] == wl[|wl| - 1] && (own + wl)[|own + wl| - 1] == wl[|wl| - 1];
    StrippedIs(t + wl, t + wl);
    StrippedJoin(own + wl, joined);
    if joined == [] {
      assert own + wl + joined == own + wl;
      NothingStripped();
    } else {
      WantedJoin(own, wl, joined);
      SolidIs(joined);
    }
  }

  lemma NothingStripped()
    ensures Stripped([]) == []
  {
  }

  lemma SolidIs(lines: Lines)
    ensures Solid(lines) <==> lines == [] || Stripped(lines) != []
  {
  }

  // ---- all sections -------------------------------------------------------------------------------------------

  lemma {:induction false} LeadIsSolid(u: seq<Section>, wl: Lines, taken: bool)
    requires Form(u, wl, taken)
    ensures Solid(Lead(u))
    ensures Lead(u) == [] <==> u == [] || u[0].name != ""
    ensures u != [] && u[0].name == "" ==> !Dropped(Section("", Lead(u)))
    ensures LinesOk(Lead(u))
  {
    hide SafeForm;
    hide LineOk;
    if u != [] && u[0].name == "" {
      var rest := Lead(u[1..]);
      LeadIsSolid(u[1..], wl, taken);
      SolidAppend(u[0].lines, rest);
    }
  }

  lemma SolidAppend(a: Lines, b: Lines)
    requires TrimEdges(a) != []
    ensures a != [] && TrimEdges(a + b) != [] && Stripped(a + b) != []
  {
    TrimEdgesStable(a);
    hide TrimEdges;
    var l := TrimEdges(a)[0];
    assert l in a && !Blank(l);
    var i :| 0 <= i < |a| && a[i] == l;
    assert (a + b)[i] == l;
    SolidTrims(a + b, i);
    assert Blank("");
  }

  lemma SolidTrims(lines: Lines, i: nat)
    requires i < |lines| && !Blank(lines[i])
    ensures TrimEdges(lines) != []
  {
    var k := FrontKeepsSolid(lines, i);
    BackKeepsSolid(DropBlankFront(lines), k);
  }

  lemma {:induction false} FrontKeepsSolid(lines: Lines, i: nat) returns (k: nat)
    requires i < |lines| && !Blank(lines[i])
    ensures k < |DropBlankFront(lines)| && !Blank(DropBlankFront(lines)[k])
  {
    hide Blank;
    if Blank(lines[0]) {
      k := FrontKeepsSolid(lines[1..], i - 1);
    } else {
      k := i;
    }
  }

  lemma {:induction false} HeadedNamed(u: seq<Section>, wl: Lines, taken: bool)
    requires Form(u, wl, taken)
    ensures AllNamed(Headed(u))
    ensures HasSafe(u) ==> HasSafe(Headed(u))
  {
    if u == [] {
      NobodyNamed();
    } else {
      var j := taken || u[0].name == "safe";
      var s := Section(u[0].name, u[0].lines + Lead(u[1..]));
      HeadedNamed(u[1..], wl, j);
      LeadIsSolid(u[1..], wl, j);
      SafeInTail(u);
      FormReads(u, wl, taken);
      hide *;
      HeadedIs(u);
      if u[0].name != "" {
        JoinedNamed(u[0], Lead(u[1..]));
        NamedCons(s, Headed(u[1..]));
        HasSafeCons(s, Headed(u[1..]));
      }
    }
  }

  lemma NobodyNamed()
    ensures AllNamed(Headed([])) && !HasSafe([])
  {
  }

  lemma FormReads(u: seq<Section>, wl: Lines, taken: bool)
    requires u != [] && Form(u, wl, taken)
    ensures ReadOk(u[0])
  {
    hide SafeForm;
    hide Dropped;
    hide ReadOk;
  }

  lemma HeadedIs(u: seq<Section>)
    requires u != []
    ensures Headed(u) == if u[0].name == "" then Headed(u[1..]) else [Section(u[0].name, u[0].lines + Lead(u[1..]))] + Headed(u[1..])
  {
    hide Lead;
  }

  lemma JoinedNamed(s: Section, joined: Lines)
    requires ReadOk(s) && s.name != "" && LinesOk(joined)
    ensures NamedOk(Section(s.name, s.lines + joined))
  {
    hide LineOk;
  }

  lemma NamedCons(s: Section, rest: seq<Section>)
    requires NamedOk(s) && AllNamed(rest)
    ensures AllNamed([s] + rest)
  {
    hide NamedOk;
  }

  lemma SafeInTail(u: seq<Section>)
    requires u != []
    ensures HasSafe(u) <==> u[0].name == "safe" || HasSafe(u[1..])
  {
    HasSafeCons(u[0], u[1..]);
    assert [u[0]] + u[1..] == u;
  }

  lemma JoinedWritable(u: seq<Section>, wl: Lines, taken: bool)
    requires Form(u, wl, taken)
    ensures Writable(Joined(u)) && (Joined(u) == [] <==> u == []) && (HasSafe(u) ==> HasSafe(Joined(u)))
  {
    HeadedNamed(u, wl, taken);
    LeadIsSolid(u, wl, taken);
    hide Form;
    hide LinesOk;
    hide Dropped;
    hide Lead;
    hide HasSafe;
    if u != [] {
      if u[0].name == "" {
        var p := Section("", Lead(u));
        assert Joined(u)[1..] == Headed(u);
        HasSafeCons(p, Headed(u));
      } else {
        AllNamedTail(Headed(u));
      }
    }
  }

  lemma CloseConsIff(s: Section, t: Section, x: seq<Section>, y: seq<Section>)
    ensures Close([s] + x) == Close([t] + y) <==>
            (&& Close(x) == Close(y)
             && if x == [] then CloseSection(s) == CloseSection(t) else s == t)
  {
    hide CloseSection;
    if |x| == |y| {
      if x == [] {
        assert [s] + x == [s] && [t] + y == [t];
        assert Close([s]) == [CloseSection(s)] && Close([t]) == [CloseSection(t)];
      } else {
        CloseAppend([s], x);
        CloseAppend([t], y);
        assert ([s] + Close(x))[1..] == Close(x) && ([t] + Close(y))[1..] == Close(y);
      }
    } else {
      assert |Close([s] + x)| == 1 + |x| && |Close([t] + y)| == 1 + |y|;
    }
  }

  lemma CloseSectionIff(a: Lines, b: Lines)
    ensures CloseSection(Section("safe", a)) == CloseSection(Section("safe", b)) <==> Stripped(a) == Stripped(b)
  {
    assert (Stripped(a) + [""])[..|Stripped(a)|] == Stripped(a);
    assert (Stripped(b) + [""])[..|Stripped(b)|] == Stripped(b);
  }

  /** The second rewrite of the sections with a header changes nothing exactly if the joined lines are settled. */
  lemma {:induction false} HeadedIff(u: seq<Section>, wl: Lines, taken: bool)
    requires Form(u, wl, taken) && AllManaged(wl) && (taken || wl == [] || HasSafe(u))
    ensures Close(RewriteSections(Headed(u), wl, taken)) == Close(Headed(u)) <==> Settled(u, wl, taken)
    decreases |u|
  {
    if u != [] {
      var s, j := u[0], taken || u[0].name == "safe";
      SafeInTail(u);
      HeadedIff(u[1..], wl, j);
      LeadIsSolid(u[1..], wl, j);
      hide *;
      HeadedCons(u, wl, taken);
      if s.name != "" {
        var joined, rest := Lead(u[1..]), Headed(u[1..]);
        var t := Section(s.name, s.lines + joined);
        RewriteCons(t, rest, wl, taken);
        if s.name != "safe" {
          OtherStays(t, wl, taken);
          CloseConsIff(t, t, RewriteSections(rest, wl, j), rest);
        } else {
          JoinedSafe(s.lines, joined, wl, taken);
          SafeRewritten(t, wl, taken);
          var kept := Kept(t.lines) + Share(wl, taken);
          NothingRewritten(wl, j);
          CloseConsIff(Section("safe", kept), t, RewriteSections(rest, wl, j), rest);
          CloseSectionIff(kept, t.lines);
          CloseEmpty(RewriteSections(rest, wl, j));
          CloseEmpty(rest);
        }
      }
    } else {
      NothingRewritten(wl, taken);
      assert !HasSafe(u);
      assert RewriteSections([], wl, taken) == [];
    }
  }

  lemma CloseEmpty(u: seq<Section>)
    ensures Close(u) == [] <==> u == []
  {
  }

  lemma NothingRewritten(wl: Lines, taken: bool)
    ensures taken || wl == [] ==> RewriteSections([], wl, taken) == []
  {
  }

  lemma OtherStays(s: Section, wl: Lines, taken: bool)
    requires s.name != "" && s.name != "safe"
    ensures Rewritten(s, wl, taken) == [s]
  {
  }

  lemma SafeRewritten(s: Section, wl: Lines, taken: bool)
    requires s.name == "safe" && Kept(s.lines) + Share(wl, taken) != []
    ensures Rewritten(s, wl, taken) == [Section("safe", Kept(s.lines) + Share(wl, taken))]
  {
    hide Kept;
  }

  /** The definitions at a nonempty list. */
  lemma HeadedCons(u: seq<Section>, wl: Lines, taken: bool)
    requires u != [] && Form(u, wl, taken)
    ensures var s, joined, rest := u[0], Lead(u[1..]), Headed(u[1..]);
            && Headed(u) == (if s.name == "" then rest else [Section(s.name, s.lines + joined)] + rest)
            && (Settled(u, wl, taken) <==>
                  && (s.name == "safe" ==> JoinsSafely(joined, rest == [], wl, taken))
                  && Settled(u[1..], wl, taken || s.name == "safe"))
            && (s.name == "safe" ==> SafeForm(s.lines, Share(wl, taken)))
  {
    hide JoinsSafely;
    hide SafeForm;
    hide Lead;
  }

  lemma JoinedIff(u: seq<Section>, wl: Lines)
    requires Form(u, wl, false) && AllManaged(wl) && (wl == [] || HasSafe(u))
    ensures Close(RewriteSections(Joined(u), wl, false)) == Close(Joined(u)) <==> Settled(u, wl, false)
  {
    HeadedIff(u, wl, false);
    LeadIsSolid(u, wl, false);
    if u != [] && u[0].name == "" {
      var p := Section("", Lead(u));
      hide Form;
      hide Settled;
      hide Dropped;
      hide Headed;
      hide Lead;
      RewriteCons(p, Headed(u), wl, false);
      CloseConsIff(p, p, RewriteSections(Headed(u), wl, false), Headed(u));
      hide RewriteSections;
      CloseEmpty(RewriteSections(Headed(u), wl, false));
      CloseEmpty(Headed(u));
    }
  }

  // ---- texts --------------------------------------------------------------------------------------------------

  /** What the first rewrite writes. */
  function FirstRewrite(content: string, wanted: seq<string>): seq<Section> {
    RewriteSections(Parse(Split(content, '\n')), WantedLines(wanted), false)
  }

  lemma FirstForm(content: string, wanted: seq<string>)
    requires EntriesOk(wanted)
    ensures Form(FirstRewrite(content, wanted), WantedLines(wanted), false)
    ensures WantedLines(wanted) == [] || HasSafe(FirstRewrite(content, wanted))
  {
    var doc, wl := Split(content, '\n'), WantedLines(wanted);
    WantedLinesOk(wanted);
    NoLinesOk();
    SplitLines(content);
    hide LinesOk;
    ParseLinesOk(doc, Section("", []));
    hide ReadOk;
    RewrittenForm(Parse(doc), wl, false);
    if wl != [] {
      WantedLeavesSafe(Parse(doc), wl);
    }
  }

  lemma {:induction false} SplitLines(content: string)
    ensures forall i :: 0 <= i < |Split(content, '\n')| ==> '\n' !in Split(content, '\n')[i]
  {
    if content != "" {
      SplitLines(content[1..]);
    }
  }

  lemma RenderAlike(u: seq<Section>, v: seq<Section>)
    requires RenderLines(u) == RenderLines(v)
    ensures Render(u) == Render(v)
  {
  }

  /** The two rewrites in terms of joined sections. */
  lemma TwoTexts(content: string, wanted: seq<string>)
    requires EntriesOk(wanted)
    ensures var y, wl := Joined(FirstRewrite(content, wanted)), WantedLines(wanted);
            var z := RewriteSections(Close(y), wl, false);
            && Writable(y) && Writable(z)
            && Split(Rewrite(content, wanted), '\n') == Closed(RenderLines(y))
            && Split(Rewrite(Rewrite(content, wanted), wanted), '\n') == Closed(RenderLines(z))
  {
    hide *;
    var x, wl := FirstRewrite(content, wanted), WantedLines(wanted);
    var y := Joined(x);
    FirstForm(content, wanted);
    JoinedWritable(x, wl, false);
    JoinedRender(x);
    FirstIs(content, wanted);
    RenderAlike(x, y);
    LinesWithoutNewline(y);
    RenderSplits(y);
    SecondText(Rewrite(content, wanted), y, wanted);
  }

  lemma FirstIs(content: string, wanted: seq<string>)
    ensures Rewrite(content, wanted) == Render(FirstRewrite(content, wanted))
  {
  }

  lemma SecondText(text: string, y: seq<Section>, wanted: seq<string>)
    requires EntriesOk(wanted) && Writable(y) && Split(text, '\n') == Closed(RenderLines(y))
    ensures var z := RewriteSections(Close(y), WantedLines(wanted), false);
            Writable(z) && Split(Rewrite(text, wanted), '\n') == Closed(RenderLines(z))
  {
    hide *;
    var wl := WantedLines(wanted);
    RereadOk(y);
    ParseReads(Closed(RenderLines(y)));
    WantedLinesOk(wanted);
    RewriteWritable(Parse(Closed(RenderLines(y))), wl);
    RewriteReread(y, wl);
    var z := RewriteSections(Close(y), wl, false);
    FirstIs(text, wanted);
    FirstRewriteIs(text, wanted);
    LinesWithoutNewline(z);
    RenderSplits(z);
  }

  lemma FirstRewriteIs(content: string, wanted: seq<string>)
    ensures FirstRewrite(content, wanted) == RewriteSections(Parse(Split(content, '\n')), WantedLines(wanted), false)
  {
  }

  /** For every document: the rewrite is idempotent exactly if no safe section it writes is followed by sections without a
      header, or else it holds no wanted lines, none of the lines that join it is managed, and they do not end blank. */
  lemma IdempotentIff(content: string, wanted: seq<string>)
    requires EntriesOk(wanted)
    ensures Rewrite(Rewrite(content, wanted), wanted) == Rewrite(content, wanted)
            <==> Settled(FirstRewrite(content, wanted), WantedLines(wanted), false)
  {
    hide *;
    var x, wl := FirstRewrite(content, wanted), WantedLines(wanted);
    var y := Joined(x);
    var z := RewriteSections(Close(y), wl, false);
    TwoTexts(content, wanted);
    FirstForm(content, wanted);
    WantedLinesOk(wanted);
    JoinedWritable(x, wl, false);
    JoinedIff(x, wl);
    TextDecides(z, y);
    if y == [] {
      CloseNone();
    } else {
      RewriteClosed(y, wl, false);
    }
    if Split(Rewrite(Rewrite(content, wanted), wanted), '\n') == Split(Rewrite(content, wanted), '\n') {
      SameSplit(Rewrite(Rewrite(content, wanted), wanted), Rewrite(content, wanted));
    }
  }
}
