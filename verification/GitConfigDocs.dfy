/** The laws of `GitConfigLaws` for whole texts: idempotence, last writer wins with its exact condition, rollback. */
module GitConfigDocs {
  import opened Text
  import opened GitConfig
  import opened GitConfigLaws

  predicate EntriesOk(wanted: seq<string>) {
    forall i :: 0 <= i < |wanted| ==> '\n' !in wanted[i]
  }

  /** No section header reads `[]`: its name is empty, so it would be lost on writing. */
  predicate NoEmptyHeader(doc: Lines) {
    forall i :: 0 < i < |Parse(doc)| ==> Parse(doc)[i].name != ""
  }

  function RewriteDoc(doc: Lines, wanted: seq<string>): Lines {
    Closed(RenderLines(RewriteSections(Parse(doc), WantedLines(wanted), false)))
  }

  // ----- wanted lines are well formed

  lemma {:induction false} WantedLineOk(entry: string)
    requires '\n' !in entry
    ensures Managed(WantedLine(entry)) && LineOk(WantedLine(entry)) && !Blank(WantedLine(entry))
  {
    var line := WantedLine(entry);
    assert line[|"\tdirectory = " + entry|..] == MARKER;
    assert line[1..][0] == 'd';
    TrimLeftTab(line);
    assert !IsSpace(line[1]);
    TrimKeepsFirst(line);
  }

  lemma {:induction false} TrimLeftTab(line: string)
    requires |line| > 1 && IsSpace(line[0]) && !IsSpace(line[1])
    ensures TrimLeft(line) == line[1..]
  {
    assert TrimLeft(line[1..]) == line[1..];
  }

  lemma {:induction false} TrimKeepsFirst(line: string)
    requires |line| > 1 && TrimLeft(line) == line[1..]
    requires !IsSpace(line[1])
    ensures TrimSpace(line) != "" && TrimSpace(line)[0] == line[1]
  {
    var t := line[1..];
    assert !Blank(t) by {
      assert t[0] == line[1];
    }
  }

  lemma WantedLinesOk(wanted: seq<string>)
    requires EntriesOk(wanted)
    ensures AllManaged(WantedLines(wanted))
  {
    hide WantedLine;
    hide Managed;
    hide LineOk;
    hide Blank;
    forall i | 0 <= i < |wanted|
      ensures Managed(WantedLines(wanted)[i]) && LineOk(WantedLines(wanted)[i]) && !Blank(WantedLines(wanted)[i])
    {
      WantedLineOk(wanted[i]);
    }
  }

  // ----- what is read is well formed

  lemma {:induction false} TrimLeftIn(s: string, c: char)
    ensures c in TrimLeft(s) ==> c in s
  {
    if s != "" && IsSpace(s[0]) {
      TrimLeftIn(s[1..], c);
    }
  }

  lemma {:induction false} HeaderNameIn(line: string)
    requires IsHeader(line) && '\n' !in line
    ensures '\n' !in HeaderName(line)
  {
    TrimLeftIn(line, '\n');
    var l := TrimLeft(line);
    assert TrimRight(l) <= l;
    assert forall i :: 0 <= i < |HeaderName(line)| ==> HeaderName(line)[i] == l[i + 1];
  }

  predicate ReadOk(s: Section) {
    '\n' !in s.name && LinesOk(s.lines)
  }

  lemma {:induction false} ParseLinesOk(lines: Lines, current: Section)
    requires ReadOk(current)
    requires forall i :: 0 <= i < |lines| ==> '\n' !in lines[i]
    ensures forall i :: 0 <= i < |ParseLines(lines, current)| ==> ReadOk(ParseLines(lines, current)[i])
    ensures ParseLines(lines, current)[0].name == current.name
    decreases |lines|
  {
    hide IsHeader;
    hide HeaderName;
    if lines != [] {
      if IsHeader(lines[0]) {
        HeaderNameIn(lines[0]);
        ParseLinesOk(lines[1..], Section(HeaderName(lines[0]), []));
      } else {
        ParseLinesOk(lines[1..], current.(lines := current.lines + [lines[0]]));
      }
    }
  }

  /** Sections as read from a document without `[]` headers. */
  predicate Read(u: seq<Section>) {
    && u != [] && u[0].name == ""
    && (forall i :: 0 <= i < |u| ==> ReadOk(u[i]))
    && (forall i :: 0 < i < |u| ==> u[i].name != "")
  }

  predicate DocOk(doc: Lines) {
    (forall i :: 0 <= i < |doc| ==> '\n' !in doc[i]) && NoEmptyHeader(doc)
  }

  lemma ParseReads(doc: Lines)
    requires DocOk(doc)
    ensures Read(Parse(doc))
  {
    hide LinesOk;
    assert ReadOk(Section("", [])) by {
      NoLinesOk();
    }
    ParseLinesOk(doc, Section("", []));
  }

  lemma NoLinesOk()
    ensures LinesOk([])
  {
  }

  // ----- what is written is well formed

  lemma {:induction false} KeptOk(lines: Lines, wl: Lines)
    requires LinesOk(lines) && AllManaged(wl)
    ensures LinesOk(Kept(lines)) && LinesOk(Kept(lines) + wl)
  {
    hide Managed;
    hide LineOk;
    hide Blank;
    UnmanagedAreUnmanaged(lines);
    TrimEdgesStable(Unmanaged(lines));
    forall i | 0 <= i < |Kept(lines)|
      ensures LineOk(Kept(lines)[i])
    {
      assert Kept(lines)[i] in Unmanaged(lines);
      assert Kept(lines)[i] in lines;
    }
  }

  lemma {:induction false} RewrittenNamed(u: seq<Section>, wl: Lines, i: bool)
    requires AllManaged(wl)
    requires forall k :: 0 <= k < |u| ==> ReadOk(u[k]) && u[k].name != ""
    ensures AllNamed(RewriteSections(u, wl, i))
  {
    hide Kept;
    hide Dropped;
    hide LinesOk;
    hide AllManaged;
    if u == [] {
      ManagedLinesOk(wl);
    } else {
      RewrittenNamed(u[1..], wl, i || u[0].name == "safe");
      assert ReadOk(u[0]);
      NoLinesManaged();
      SafeLinesOk(u[0].lines, wl);
    }
  }

  lemma ManagedLinesOk(wl: Lines)
    requires AllManaged(wl)
    ensures LinesOk(wl)
  {
  }

  lemma SafeLinesOk(lines: Lines, wl: Lines)
    requires LinesOk(lines) && AllManaged(wl)
    ensures LinesOk(Kept(lines) + wl) && LinesOk(Kept(lines) + [])
  {
    KeptOk(lines, wl);
    KeptOk(lines, []);
  }

  lemma {:induction false} RewriteWritable(u: seq<Section>, wl: Lines)
    requires Read(u) && AllManaged(wl)
    ensures Writable(RewriteSections(u, wl, false))
  {
    hide Kept;
    hide Dropped;
    hide AllManaged;
    hide LinesOk;
    var rest := RewriteSections(u[1..], wl, false);
    RewrittenNamed(u[1..], wl, false);
    assert ReadOk(u[0]);
    if Dropped(u[0]) {
      assert [] + rest == rest;
      if rest != [] {
        AllNamedTail(rest);
      }
    } else {
      assert ([u[0]] + rest)[1..] == rest;
    }
  }

  lemma AllNamedTail(u: seq<Section>)
    requires AllNamed(u) && u != []
    ensures NamedOk(u[0]) && AllNamed(u[1..])
  {
    hide NamedOk;
    assert forall i :: 0 < i < |u| ==> u[i] == u[1..][i - 1];
  }

  // ----- reading back what was written

  lemma {:induction false} BlankStripped(lines: Lines)
    requires Stripped(lines) == []
    ensures TrimEdges(lines) == []
  {
    KeptStripped(lines);
  }

  lemma {:induction false} CloseWritable(u: seq<Section>)
    requires Writable(u) && u != []
    ensures Writable(Close(u))
    ensures u[|u| - 1].name != "" || Stripped(u[|u| - 1].lines) != []
  {
    hide TrimEdges;
    hide LinesOk;
    hide Stripped;
    hide CloseSection;
    var n := |u| - 1;
    var s := u[n];
    assert n > 0 ==> u[n] == u[1..][n - 1];
    assert LinesOk(s.lines);
    CloseSectionFacts(s);
    CloseLinesOk(s);
    if s.name == "" && Stripped(s.lines) == [] {
      BlankStripped(s.lines);
    }
    var c := Close(u);
    forall i | 0 <= i < |c[1..]|
      ensures NamedOk(c[1..][i])
    {
      assert NamedOk(u[1..][i]);
      assert c[1..][i] == (if i + 1 == n then CloseSection(s) else u[1..][i]);
    }
  }

  lemma CloseLinesOk(s: Section)
    requires LinesOk(s.lines)
    ensures LinesOk(CloseSection(s).lines)
  {
    assert LineOk("");
  }

  /** Reading back a written text gives the sections that were written, up to the empty lines at the end. */
  lemma {:induction false} Reread(u: seq<Section>)
    requires Writable(u)
    ensures Parse(Closed(RenderLines(u))) == if u == [] then [Section("", ["", ""])] else WithPreamble(Close(u))
  {
    if u == [] {
      EmptyTextReads();
    } else {
      CloseWritable(u);
      ClosedRender(u);
      ParseRendered(Close(u));
    }
  }

  lemma {:induction false} EmptyTextReads()
    ensures Closed(RenderLines([])) == ["", ""]
    ensures Parse(["", ""]) == [Section("", ["", ""])]
  {
    assert LinesOk(["", ""]) by {
      assert LineOk("");
    }
    ParsePlainLines(["", ""], [], Section("", []));
    assert ["", ""] + [] == ["", ""];
    assert Section("", []).lines + ["", ""] == ["", ""];
    assert Parse(["", ""]) == ParseLines([], Section("", ["", ""]));
  }

  lemma RereadOk(u: seq<Section>)
    requires Writable(u)
    ensures DocOk(Closed(RenderLines(u)))
  {
    hide Dropped;
    hide LineOk;
    Reread(u);
    var doc := Closed(RenderLines(u));
    if u != [] {
      CloseWritable(u);
      var c := Close(u);
      forall i | 0 < i < |WithPreamble(c)|
        ensures WithPreamble(c)[i].name != ""
      {
        if c[0].name == "" {
          assert NamedOk(c[1..][i - 1]);
        } else {
          assert i > 1 ==> NamedOk(c[1..][i - 2]);
        }
      }
    }
    LinesWithoutNewline(u);
  }

  lemma {:induction false} LinesWithoutNewline(u: seq<Section>)
    requires Writable(u)
    ensures forall i :: 0 <= i < |RenderLines(u)| ==> '\n' !in RenderLines(u)[i]
    ensures forall i :: 0 <= i < |Closed(RenderLines(u))| ==> '\n' !in Closed(RenderLines(u))[i]
  {
    hide Dropped;
    hide IsHeader;
    if u != [] {
      NamedWithoutNewline(u[1..]);
      assert LinesOk(u[0].lines);
      assert forall i :: 0 <= i < |u[0].lines| ==> LineOk(u[0].lines[i]);
    }
  }

  lemma {:induction false} NamedWithoutNewline(u: seq<Section>)
    requires AllNamed(u)
    ensures forall i :: 0 <= i < |RenderLines(u)| ==> '\n' !in RenderLines(u)[i]
  {
    hide IsHeader;
    if u != [] {
      AllNamedTail(u);
      NamedWithoutNewline(u[1..]);
      assert forall i :: 0 <= i < |u[0].lines| ==> LineOk(u[0].lines[i]);
    }
  }

  lemma DroppedFront(s: Section, u: seq<Section>, wl: Lines)
    requires s.name == "" && Dropped(s)
    ensures RewriteSections([s] + u, wl, false) == RewriteSections(u, wl, false)
  {
    RewriteCons(s, u, wl, false);
    assert [] + RewriteSections(u, wl, false) == RewriteSections(u, wl, false);
  }

  lemma {:induction false} BlankSectionsDrop()
    ensures Dropped(Section("", [])) && Dropped(Section("", ["", ""]))
  {
    EmptyIsUnmanaged();
    TrimBlankTail([""], "");
    TrimBlankTail([], "");
    assert [""] + [""] == ["", ""] && [] + [""] == [""];
  }

  lemma RewriteReread(u: seq<Section>, wl: Lines)
    requires Writable(u)
    ensures RewriteSections(Parse(Closed(RenderLines(u))), wl, false) == RewriteSections(Close(u), wl, false)
  {
    Reread(u);
    BlankSectionsDrop();
    hide Dropped;
    hide Rewritten;
    if u == [] {
      DroppedFront(Section("", ["", ""]), [], wl);
      assert [Section("", ["", ""])] + [] == [Section("", ["", ""])];
    } else if Close(u)[0].name != "" {
      DroppedFront(Section("", []), Close(u), wl);
    }
  }

  // ----- texts and documents

  lemma RewriteSplits(content: string, wanted: seq<string>)
    requires NoEmptyHeader(Split(content, '\n')) && EntriesOk(wanted)
    ensures Split(Rewrite(content, wanted), '\n') == RewriteDoc(Split(content, '\n'), wanted)
    ensures DocOk(RewriteDoc(Split(content, '\n'), wanted))
    ensures Writable(RewriteSections(Parse(Split(content, '\n')), WantedLines(wanted), false))
  {
    WantedLinesOk(wanted);
    ParseReads(Split(content, '\n'));
    var u := RewriteSections(Parse(Split(content, '\n')), WantedLines(wanted), false);
    RewriteWritable(Parse(Split(content, '\n')), WantedLines(wanted));
    LinesWithoutNewline(u);
    RenderSplits(u);
    RereadOk(u);
  }

  lemma SameSplit(s: string, t: string)
    requires Split(s, '\n') == Split(t, '\n')
    ensures s == t
  {
    JoinSplit(s, '\n');
    JoinSplit(t, '\n');
  }

  /** Two rewrites in a row, in terms of sections. */
  lemma TwoRewrites(content: string, w1: seq<string>, w2: seq<string>)
    requires NoEmptyHeader(Split(content, '\n')) && EntriesOk(w1) && EntriesOk(w2)
    ensures var u := RewriteSections(Parse(Split(content, '\n')), WantedLines(w1), false);
            && Writable(u)
            && Writable(RewriteSections(Close(u), WantedLines(w2), false))
            && Split(Rewrite(Rewrite(content, w1), w2), '\n') == Closed(RenderLines(RewriteSections(Close(u), WantedLines(w2), false)))
  {
    hide *;
    RewriteSplits(content, w1);
    NextRewrite(content, w1, w2);
    RewriteSplits(Rewrite(content, w1), w2);
  }

  lemma NextRewrite(content: string, w1: seq<string>, w2: seq<string>)
    requires NoEmptyHeader(Split(content, '\n')) && EntriesOk(w1) && EntriesOk(w2)
    requires Split(Rewrite(content, w1), '\n') == RewriteDoc(Split(content, '\n'), w1)
    requires DocOk(RewriteDoc(Split(content, '\n'), w1))
    requires Writable(RewriteSections(Parse(Split(content, '\n')), WantedLines(w1), false))
    ensures NoEmptyHeader(Split(Rewrite(content, w1), '\n'))
    ensures RewriteSections(Parse(Split(Rewrite(content, w1), '\n')), WantedLines(w2), false)
         == RewriteSections(Close(RewriteSections(Parse(Split(content, '\n')), WantedLines(w1), false)), WantedLines(w2), false)
    ensures RewriteDoc(Split(Rewrite(content, w1), '\n'), w2)
         == Closed(RenderLines(RewriteSections(Close(RewriteSections(Parse(Split(content, '\n')), WantedLines(w1), false)), WantedLines(w2), false)))
  {
    hide Parse;
    hide Closed;
    hide RenderLines;
    hide RewriteSections;
    hide Split;
    hide Rewrite;
    hide Writable;
    RewriteReread(RewriteSections(Parse(Split(content, '\n')), WantedLines(w1), false), WantedLines(w2));
  }
}
