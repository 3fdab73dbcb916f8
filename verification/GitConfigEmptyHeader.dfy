/**
 Why the laws assume that no header is empty: `[]` reads as a section without a
 name and is written without its header, so its lines join the section before.
 */
module GitConfigEmptyHeader {
  import opened Text
  import opened GitConfig
  import opened GitConfigLaws
  import opened GitConfigDocs
  import opened GitConfigResults

  /** A safe section with one own line, then `[]` and a managed line. */
  function Document(own: string, managed: string): string {
    Join(["[safe]", own, "[]", managed], "\n")
  }

  predicate OwnLine(line: string) {
    LineOk(line) && !Managed(line) && !Blank(line)
  }

  predicate ManagedLine(line: string) {
    LineOk(line) && Managed(line) && !Blank(line)
  }

  lemma DocumentSplits(own: string, managed: string)
    requires OwnLine(own) && ManagedLine(managed)
    ensures Split(Document(own, managed), '\n') == ["[safe]", own, "[]", managed]
  {
    hide IsHeader;
    hide Managed;
    SplitJoin(["[safe]", own, "[]", managed], '\n');
    assert ['\n'] == "\n";
  }

  lemma DocumentReads(own: string, managed: string)
    requires OwnLine(own) && ManagedLine(managed)
    ensures Parse(["[safe]", own, "[]", managed]) == [Section("", []), Section("safe", [own]), Section("", [managed])]
  {
    hide *;
    var doc := ["[safe]", own, "[]", managed];
    ReadsHeader("safe", [own, "[]", managed], Section("", []));
    ReadsHeader("", [managed], Section("safe", [own]));
    assert "[" + "safe" + "]" == "[safe]" && "[" + "" + "]" == "[]";
    assert ["[safe]"] + [own, "[]", managed] == doc && ["[]"] + [managed] == ["[]", managed];
    ReadsLine(own, ["[]", managed], "safe");
    ReadsLine(managed, [], "");
    assert [own] + ["[]", managed] == [own, "[]", managed] && [managed] + [] == [managed];
    ReadsNothing(Section("", [managed]));
    ParseIs(doc);
    assert [Section("safe", [own])] + [Section("", [managed])] == [Section("safe", [own]), Section("", [managed])];
    assert [Section("", [])] + [Section("safe", [own]), Section("", [managed])]
        == [Section("", []), Section("safe", [own]), Section("", [managed])];
  }

  lemma ReadsHeader(name: string, rest: Lines, current: Section)
    ensures ParseLines(["[" + name + "]"] + rest, current) == [current] + ParseLines(rest, Section(name, []))
  {
    HeaderReads(name);
    hide IsHeader;
    hide HeaderName;
    var line := "[" + name + "]";
    assert ([line] + rest)[1..] == rest;
  }

  lemma ReadsLine(line: string, rest: Lines, name: string)
    requires OwnLine(line) || ManagedLine(line)
    ensures ParseLines([line] + rest, Section(name, [])) == ParseLines(rest, Section(name, [line]))
  {
    hide IsHeader;
    hide Managed;
    hide Blank;
    assert ([line] + rest)[1..] == rest;
    assert [] + [line] == [line];
  }

  lemma ReadsNothing(current: Section)
    ensures ParseLines([], current) == [current]
  {
  }

  lemma OneLineTrims(line: string)
    requires !Blank(line)
    ensures TrimEdges([line]) == [line]
  {
    hide Blank;
  }

  lemma UnmanagedOne(own: string)
    requires !Managed(own)
    ensures Unmanaged([own]) == [own] && Unmanaged([]) == []
  {
    hide Managed;
    assert [own][1..] == [];
    assert [own] + [] == [own];
  }

  lemma OwnIsKept(own: string)
    requires OwnLine(own)
    ensures Kept([own]) == [own]
  {
    hide Managed;
    hide Blank;
    hide IsHeader;
    UnmanagedOne(own);
    OneLineTrims(own);
  }

  lemma ManagedIsDropped(own: string, managed: string)
    requires OwnLine(own) && ManagedLine(managed)
    ensures Kept([own, managed, ""]) == [own]
  {
    OwnIsKept(own);
    EmptyIsUnmanaged();
    hide Managed;
    hide IsHeader;
    assert [own, managed, ""][1..] == [managed, ""];
    assert [managed, ""][1..] == [""];
    assert [""][1..] == [];
    UnmanagedOne(own);
    UnmanagedOne("");
    assert Unmanaged([managed, ""]) == [""];
    assert Unmanaged([own, managed, ""]) == [own] + [""];
    TrimBlankTail([own], "");
  }

  lemma FirstRewrite(own: string, managed: string)
    requires OwnLine(own) && ManagedLine(managed)
    ensures RewriteSections([Section("", []), Section("safe", [own]), Section("", [managed])], [], false)
            == [Section("safe", [own]), Section("", [managed])]
  {
    OwnIsKept(own);
    OneLineTrims(managed);
    BlankSectionsDrop();
    hide Managed;
    hide Blank;
    hide IsHeader;
    hide Kept;
    hide TrimEdges;
    var s, m := Section("safe", [own]), Section("", [managed]);
    assert [own] + [] == [own];
    RewriteCons(m, [], [], true);
    RewriteCons(s, [m], [], false);
    RewriteCons(Section("", []), [s, m], [], false);
    assert [m] + [] == [m] && [s] + [m] == [s, m] && [Section("", [])] + [s, m] == [Section("", []), s, m];
    assert [] + [s, m] == [s, m];
  }

  lemma JoinedWrites(own: string, managed: string)
    ensures RenderLines([Section("safe", [own]), Section("", [managed])]) == ["[safe]", own, managed]
    ensures RenderLines([Section("safe", [own, managed])]) == ["[safe]", own, managed]
    ensures RenderLines([Section("safe", [own])]) == ["[safe]", own]
  {
    var s, m := Section("safe", [own]), Section("", [managed]);
    assert "[" + "safe" + "]" == "[safe]";
    assert [s, m][1..] == [m] && [m][1..] == [] && [s][1..] == [];
    assert RenderLines([]) == [];
    assert RenderLines([m]) == [managed];
    var j := Section("safe", [own, managed]);
    assert [j][1..] == [];
  }

  lemma ClosedTwoAndThree(own: string, managed: string)
    requires own != "" && managed != ""
    ensures Closed(["[safe]", own, managed]) == ["[safe]", own, managed, ""]
    ensures Closed(["[safe]", own]) == ["[safe]", own, ""]
  {
  }

  lemma SafeWritable(lines: Lines)
    requires LinesOk(lines)
    ensures Writable([Section("safe", lines)])
  {
    hide LinesOk;
    assert [Section("safe", lines)][1..] == [];
  }

  lemma SecondRewrite(own: string, managed: string)
    requires OwnLine(own) && ManagedLine(managed)
    ensures Close([Section("safe", [own, managed])]) == [Section("safe", [own, managed, ""])]
    ensures RewriteSections([Section("safe", [own, managed, ""])], [], false) == [Section("safe", [own])]
  {
    ManagedIsDropped(own, managed);
    hide Managed;
    hide IsHeader;
    hide Kept;
    assert managed != "";
    assert Stripped([own, managed]) == [own, managed];
    assert [own, managed] + [""] == [own, managed, ""];
    var s := Section("safe", [own, managed, ""]);
    RewriteCons(s, [], [], false);
    assert [s] + [] == [s] && [own] + [] == [own];
  }

  lemma FirstText(own: string, managed: string)
    requires OwnLine(own) && ManagedLine(managed)
    ensures Rewrite(Document(own, managed), []) == Render([Section("safe", [own, managed])])
  {
    DocumentSplits(own, managed);
    DocumentReads(own, managed);
    assert WantedLines([]) == [];
    hide *;
    FirstRewrite(own, managed);
    JoinedWrites(own, managed);
    RewriteIs(Document(own, managed), []);
    RenderAlike([Section("safe", [own]), Section("", [managed])], [Section("safe", [own, managed])]);
  }

  lemma SafeSplits(lines: Lines)
    requires LinesOk(lines)
    ensures Split(Render([Section("safe", lines)]), '\n') == Closed(RenderLines([Section("safe", lines)]))
  {
    SafeWritable(lines);
    hide *;
    LinesWithoutNewline([Section("safe", lines)]);
    RenderSplits([Section("safe", lines)]);
  }

  lemma SecondText(own: string, managed: string)
    requires OwnLine(own) && ManagedLine(managed)
    ensures Rewrite(Render([Section("safe", [own, managed])]), []) == Render([Section("safe", [own])])
  {
    var u := [Section("safe", [own, managed])];
    assert WantedLines([]) == [];
    assert LinesOk([own, managed]);
    SecondRewrite(own, managed);
    SafeWritable([own, managed]);
    hide *;
    SafeSplits([own, managed]);
    RewriteReread(u, []);
    RewriteIs(Render(u), []);
  }

  lemma TextsDiffer(own: string, managed: string)
    requires OwnLine(own) && ManagedLine(managed)
    ensures Render([Section("safe", [own, managed])]) != Render([Section("safe", [own])])
  {
    assert own != "" && managed != "" && LinesOk([own, managed]) && LinesOk([own]);
    hide *;
    SafeSplits([own, managed]);
    SafeSplits([own]);
    JoinedWrites(own, managed);
    ClosedTwoAndThree(own, managed);
  }

  /** With an empty header the rewrite is not idempotent: writing back drops the header, and the second rewrite takes
      the managed line that has joined the safe section for one of hazmat's. */
  lemma EmptyHeaderBreaksIdempotence(own: string, managed: string)
    requires OwnLine(own) && ManagedLine(managed)
    ensures !Regular(Document(own, managed))
    ensures Rewrite(Rewrite(Document(own, managed), []), []) != Rewrite(Document(own, managed), [])
  {
    hide *;
    DocumentSplits(own, managed);
    DocumentReads(own, managed);
    NotRegular(own, managed);
    FirstText(own, managed);
    SecondText(own, managed);
    TextsDiffer(own, managed);
  }

  lemma RenderAlike(u: seq<Section>, v: seq<Section>)
    requires RenderLines(u) == RenderLines(v)
    ensures Render(u) == Render(v)
  {
  }

  lemma NotRegular(own: string, managed: string)
    requires Split(Document(own, managed), '\n') == ["[safe]", own, "[]", managed]
    requires Parse(["[safe]", own, "[]", managed]) == [Section("", []), Section("safe", [own]), Section("", [managed])]
    ensures !Regular(Document(own, managed))
  {
    hide Document;
    assert Parse(["[safe]", own, "[]", managed])[2].name == "";
  }
}
