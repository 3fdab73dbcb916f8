/**
 The small INI reader and writer for `.gitconfig` files and the rewrite that
 keeps hazmat's marked `safe.directory` lines in the `[safe]` sections.
 */
module GitConfig {
  import opened Text

  /** Ends every line hazmat manages. */
  const MARKER := " # hazmat-managed"

  datatype Section = Section(name: string, lines: seq<string>)

  type Lines = seq<string>

  // ----- reading

  predicate IsHeader(line: string) {
    var t := TrimSpace(line);
    |t| >= 2 && t[0] == '[' && t[|t| - 1] == ']'
  }

  function HeaderName(line: string): string
    requires IsHeader(line)
  {
    var t := TrimSpace(line);
    t[1..|t| - 1]
  }

  /** `current` is the section being read. */
  function ParseLines(lines: Lines, current: Section): (r: seq<Section>)
    ensures r != []
    decreases |lines|
  {
    if lines == [] then [current]
    else if IsHeader(lines[0]) then [current] + ParseLines(lines[1..], Section(HeaderName(lines[0]), []))
    else ParseLines(lines[1..], current.(lines := current.lines + [lines[0]]))
  }

  function Parse(doc: Lines): seq<Section> {
    ParseLines(doc, Section("", []))
  }

  method ParseINI(content: string) returns (sections: seq<Section>)
    ensures sections == Parse(Split(content, '\n'))
  {
    hide IsHeader;
    hide HeaderName;
    var lines := Split(content, '\n');
    sections := [];
    var current := Section("", []);
    assert lines[0..] == lines;
    for i := 0 to |lines|
      invariant sections + ParseLines(lines[i..], current) == Parse(lines)
    {
      assert lines[i..][1..] == lines[i + 1..];
      if IsHeader(lines[i]) {
        sections := sections + [current];
        current := Section(HeaderName(lines[i]), []);
        continue;
      }
      current := current.(lines := current.lines + [lines[i]]);
    }
    sections := sections + [current];
  }

  // ----- writing

  function SectionLines(s: Section): Lines {
    (if s.name != "" then ["[" + s.name + "]"] else []) + s.lines
  }

  function RenderLines(sections: seq<Section>): Lines {
    if sections == [] then [] else SectionLines(sections[0]) + RenderLines(sections[1..])
  }

  function Unlines(lines: Lines): string {
    if lines == [] then "" else lines[0] + "\n" + Unlines(lines[1..])
  }

  /** `strings.TrimRight(s, "\n")`. */
  function TrimNewlines(s: string): string {
    if s != "" && s[|s| - 1] == '\n' then TrimNewlines(s[..|s| - 1]) else s
  }

  function Render(sections: seq<Section>): string {
    TrimNewlines(Unlines(RenderLines(sections))) + "\n"
  }

  lemma UnlinesAppend(a: Lines, b: Lines)
    ensures Unlines(a + b) == Unlines(a) + Unlines(b)
  {
    if a == [] {
      assert a + b == b;
    } else {
      assert (a + b)[1..] == a[1..] + b;
      UnlinesAppend(a[1..], b);
    }
  }

  lemma UnlinesSection(s: Section)
    ensures Unlines(SectionLines(s)) == (if s.name != "" then "[" + s.name + "]" + "\n" else "") + Unlines(s.lines)
  {
    if s.name != "" {
      assert SectionLines(s)[1..] == s.lines;
    } else {
      assert SectionLines(s) == s.lines;
    }
  }

  method WriteSection(b0: string, s: Section) returns (b: string)
    ensures b == b0 + Unlines(SectionLines(s))
  {
    UnlinesSection(s);
    hide SectionLines;
    b := b0;
    if s.name != "" {
      b := b + ("[" + s.name + "]" + "\n");
    }
    ghost var headed := b;
    assert s.lines[0..] == s.lines;
    for j := 0 to |s.lines|
      invariant b + Unlines(s.lines[j..]) == headed + Unlines(s.lines)
    {
      assert s.lines[j..][1..] == s.lines[j + 1..];
      ghost var before := b;
      b := b + s.lines[j];
      b := b + "\n";
      assert before + (s.lines[j] + "\n" + Unlines(s.lines[j + 1..])) == b + Unlines(s.lines[j + 1..]);
    }
    assert s.lines[|s.lines|..] == [];
    assert b + "" == b;
  }

  method RenderINI(sections: seq<Section>) returns (text: string)
    ensures text == Render(sections)
  {
    hide SectionLines;
    hide Unlines;
    hide TrimNewlines;
    var b := "";
    assert sections[0..] == sections;
    for i := 0 to |sections|
      invariant b + Unlines(RenderLines(sections[i..])) == Unlines(RenderLines(sections))
    {
      assert sections[i..][1..] == sections[i + 1..];
      UnlinesAppend(SectionLines(sections[i]), RenderLines(sections[i + 1..]));
      b := WriteSection(b, sections[i]);
    }
    assert sections[|sections|..] == [];
    assert b + "" == b;
    assert Unlines(RenderLines([])) == "" by {
      UnlinesOfNone();
    }
    return TrimNewlines(b) + "\n";
  }

  lemma UnlinesOfNone()
    ensures Unlines(RenderLines([])) == ""
  {
  }

  // ----- the managed lines

  /** Position of the first occurrence of `m` in `s`, or -1. */
  function FindSub(s: string, m: string): (i: int)
    ensures -1 <= i <= |s|
    ensures i >= 0 ==> m <= s[i..]
    ensures forall j :: 0 <= j <= |s| && m <= s[j..] ==> 0 <= i <= j
  {
    if m <= s then
      assert s[0..] == s;
      0
    else if s == "" then
      assert s[0..] == s;
      -1
    else
      var i := FindSub(s[1..], m);
      assert s[0..] == s;
      assert forall j :: 0 < j <= |s| ==> s[j..] == s[1..][j - 1..];
      if i < 0 then -1 else i + 1
  }

  predicate Managed(line: string) {
    FindSub(line, MARKER) >= 0
  }

  function WantedLine(entry: string): string {
    "\tdirectory = " + entry + MARKER
  }

  function WantedLines(wanted: seq<string>): (r: Lines)
    ensures |r| == |wanted|
    ensures forall i :: 0 <= i < |wanted| ==> r[i] == WantedLine(wanted[i])
  {
    seq(|wanted|, i requires 0 <= i < |wanted| => WantedLine(wanted[i]))
  }

  function DropBlankFront(lines: Lines): (r: Lines)
    ensures |r| <= |lines|
    ensures r != [] ==> !Blank(r[0])
  {
    if lines != [] && Blank(lines[0]) then DropBlankFront(lines[1..]) else lines
  }

  function DropBlankBack(lines: Lines): (r: Lines)
    ensures |r| <= |lines|
    ensures r != [] ==> !Blank(r[|r| - 1])
  {
    if lines != [] && Blank(lines[|lines| - 1]) then DropBlankBack(lines[..|lines| - 1]) else lines
  }

  function TrimEdges(lines: Lines): Lines {
    DropBlankBack(DropBlankFront(lines))
  }

  method TrimSectionEdgeBlankLines(lines0: Lines) returns (lines: Lines)
    ensures lines == TrimEdges(lines0)
  {
    hide TrimSpace;
    hide Blank;
    lines := lines0;
    while |lines| > 0 && TrimSpace(lines[0]) == ""
      invariant DropBlankFront(lines) == DropBlankFront(lines0)
      decreases |lines|
    {
      lines := lines[1..];
    }
    while |lines| > 0 && TrimSpace(lines[|lines| - 1]) == ""
      invariant DropBlankBack(lines) == TrimEdges(lines0)
      decreases |lines|
    {
      lines := lines[..|lines| - 1];
    }
  }

  function Unmanaged(lines: Lines): Lines {
    if lines == [] then []
    else if Managed(lines[0]) then Unmanaged(lines[1..])
    else [lines[0]] + Unmanaged(lines[1..])
  }

  /** What a safe section keeps of its own. */
  function Kept(lines: Lines): Lines {
    TrimEdges(Unmanaged(lines))
  }

  /** A section other than `safe` that the rewrite drops: a preamble of blank lines. */
  predicate Dropped(s: Section) {
    s.name == "" && TrimEdges(s.lines) == []
  }

  /** What becomes of one section; `wl` are the managed lines, `inserted` says a safe section has taken them already. */
  function Rewritten(s: Section, wl: Lines, inserted: bool): seq<Section> {
    if s.name != "safe" then
      if Dropped(s) then [] else [s]
    else
      var lines := Kept(s.lines) + (if inserted then [] else wl);
      if lines == [] then [] else [Section("safe", lines)]
  }

  function RewriteSections(sections: seq<Section>, wl: Lines, inserted: bool): seq<Section> {
    if sections == [] then
      if !inserted && wl != [] then [Section("safe", wl)] else []
    else
      Rewritten(sections[0], wl, inserted)
      + RewriteSections(sections[1..], wl, inserted || sections[0].name == "safe")
  }

  function Rewrite(content: string, wanted: seq<string>): string {
    Render(RewriteSections(Parse(Split(content, '\n')), WantedLines(wanted), false))
  }

  method RewriteHazmatSafeDirectoryConfig(content: string, wanted: seq<string>) returns (text: string)
    ensures text == Rewrite(content, wanted)
  {
    hide *;
    var sections := ParseINI(content);
    var wantedLines: Lines := [];
    for i := 0 to |wanted|
      invariant wantedLines == WantedLines(wanted)[..i]
    {
      wantedLines := wantedLines + [WantedLine(wanted[i])];
    }
    assert wantedLines == WantedLines(wanted);
    var updated := RewriteLoop(sections, wantedLines);
    text := RenderINI(updated);
    RewriteIs(content, wanted);
  }

  lemma RewriteIs(content: string, wanted: seq<string>)
    ensures Rewrite(content, wanted) == Render(RewriteSections(Parse(Split(content, '\n')), WantedLines(wanted), false))
  {
  }

  /** The loop over sections. */
  method RewriteLoop(sections: seq<Section>, wantedLines: Lines) returns (updated: seq<Section>)
    ensures updated == RewriteSections(sections, wantedLines, false)
  {
    hide Rewritten;
    updated := [];
    var inserted := false;
    ghost var goal := RewriteSections(sections, wantedLines, false);
    assert sections[0..] == sections;
    for i := 0 to |sections|
      invariant updated + RewriteSections(sections[i..], wantedLines, inserted) == goal
    {
      assert sections[i..][1..] == sections[i + 1..];
      updated, inserted := RewriteOne(updated, sections[i], wantedLines, inserted);
    }
    assert sections[|sections|..] == [];
    if !inserted && |wantedLines| > 0 {
      updated := updated + [Section("safe", wantedLines)];
    }
  }

  /** The body of the loop: `updated` grows by what the section becomes. */
  method RewriteOne(updated0: seq<Section>, section: Section, wantedLines: Lines, inserted0: bool)
    returns (updated: seq<Section>, inserted: bool)
    ensures updated == updated0 + Rewritten(section, wantedLines, inserted0)
    ensures inserted == (inserted0 || section.name == "safe")
  {
    hide Unmanaged;
    hide TrimEdges;
    updated, inserted := updated0, inserted0;
    if section.name != "safe" {
      var trimmed := TrimSectionEdgeBlankLines(section.lines);
      if section.name == "" && |trimmed| == 0 {
        return;
      }
      updated := updated + [section];
      return;
    }
    var kept := KeepUnmanaged(section.lines);
    kept := TrimSectionEdgeBlankLines(kept);
    assert kept + [] == kept;
    if !inserted {
      kept := kept + wantedLines;
      inserted := true;
    }
    if |kept| == 0 {
      return;
    }
    updated := updated + [section.(lines := kept)];
  }

  method KeepUnmanaged(lines: Lines) returns (kept: Lines)
    ensures kept == Unmanaged(lines)
  {
    hide Managed;
    kept := [];
    assert lines[0..] == lines;
    for i := 0 to |lines|
      invariant kept + Unmanaged(lines[i..]) == Unmanaged(lines)
    {
      assert lines[i..][1..] == lines[i + 1..];
      if Managed(lines[i]) {
        continue;
      }
      kept := kept + [lines[i]];
    }
  }

  /** The rewritten text, and whether it differs from the text merely read and written back. */
  method SyncHazmatSafeDirectoryConfig(content: string, wanted: seq<string>) returns (updated: string, changed: bool)
    ensures updated == Rewrite(content, wanted)
    ensures changed <==> updated != Render(Parse(Split(content, '\n')))
  {
    var sections := ParseINI(content);
    var normalized := RenderINI(sections);
    updated := RewriteHazmatSafeDirectoryConfig(content, wanted);
    changed := updated != normalized;
  }
}
