/** Reading `safe.directory` entries out of a config text and deciding whether they cover a repository. */
module SafeDirectory {
  import opened Wrappers
  import opened Text
  import opened GitConfig
  import opened GitConfigLaws
  import opened GitConfigDocs
  import opened GitConfigResults
  import opened GitConfigOwnLines

  /** The library's path operations. */
  datatype PathOps = PathOps(
    expand: string -> string,             // expandTilde
    clean: string -> string,              // filepath.Clean
    within: (string, string) -> bool,     // isWithinDir(base, target)
    unquote: string -> Option<string>)    // strconv.Unquote on text that starts with a quote

  function Normalize(ops: PathOps, entry: string): string {
    var t := TrimSpace(ops.expand(entry));
    if t == "" || t == "*" then t
    else if HasSuffix(t, "/*") then ops.clean(t[..|t| - 2]) + "/*"
    else ops.clean(t)
  }

  // ----- entries

  /** Normalized, without repeats and empty entries, in the order of first occurrence. */
  function Dedupe(ops: PathOps, entries: seq<string>): seq<string> {
    if entries == [] then []
    else
      var before := Dedupe(ops, entries[..|entries| - 1]);
      var n := Normalize(ops, entries[|entries| - 1]);
      if n == "" || n in before then before else before + [n]
  }

  lemma {:induction false} DedupeHolds(ops: PathOps, entries: seq<string>)
    ensures forall n :: n in Dedupe(ops, entries) <==> n != "" && exists i :: 0 <= i < |entries| && Normalize(ops, entries[i]) == n
    ensures forall i, j :: 0 <= i < j < |Dedupe(ops, entries)| ==> Dedupe(ops, entries)[i] != Dedupe(ops, entries)[j]
  {
    hide Normalize;
    if entries != [] {
      var init := entries[..|entries| - 1];
      DedupeHolds(ops, init);
      forall n
        ensures n in Dedupe(ops, entries) <==> n != "" && exists i :: 0 <= i < |entries| && Normalize(ops, entries[i]) == n
      {
        if i :| 0 <= i < |init| && Normalize(ops, init[i]) == n {
          assert Normalize(ops, entries[i]) == n;
        }
        if i :| 0 <= i < |entries| && Normalize(ops, entries[i]) == n {
          assert i < |init| ==> Normalize(ops, init[i]) == n;
        }
      }
    }
  }

  method DedupeSafeDirectoryEntries(ops: PathOps, entries: seq<string>) returns (deduped: seq<string>)
    ensures deduped == Dedupe(ops, entries)
  {
    hide Normalize;
    deduped := [];
    var seen: set<string> := {};
    for i := 0 to |entries|
      invariant deduped == Dedupe(ops, entries[..i])
      invariant forall n :: n in seen <==> n in deduped
    {
      assert entries[..i + 1][..i] == entries[..i];
      var normalized := Normalize(ops, entries[i]);
      if normalized == "" {
        continue;
      }
      if normalized in seen {
        continue;
      }
      seen := seen + {normalized};
      deduped := deduped + [normalized];
    }
    assert entries[..|entries|] == entries;
  }

  /** An entry covers the normalized repository directory `repo`. */
  predicate EntryCovers(ops: PathOps, entry: string, repo: string) {
    var n := Normalize(ops, entry);
    && n != ""
    && (n == "*" || n == repo
        || (HasSuffix(n, "/*") && repo != n[..|n| - 2] && ops.within(n[..|n| - 2], repo)))
  }

  /** Exactly "*", the repository itself, and a directory with a trailing wildcard that the repository is strictly below. */
  lemma EntryCoversIff(ops: PathOps, entry: string, repo: string)
    requires repo != ""
    ensures EntryCovers(ops, entry, repo) <==>
            var n := Normalize(ops, entry);
            n == "*" || n == repo || exists dir :: n == dir + "/*" && dir != repo && ops.within(dir, repo)
  {
    var n := Normalize(ops, entry);
    hide Normalize;
    if HasSuffix(n, "/*") {
      assert n == n[..|n| - 2] + "/*";
    }
    forall dir | n == dir + "/*"
      ensures HasSuffix(n, "/*") && n[..|n| - 2] == dir
    {
    }
  }

  /** What is compared: the expanded and trimmed text, cleaned, but for a lone wildcard and a trailing one. */
  lemma NormalizeMeans(ops: PathOps, entry: string)
    ensures var t := TrimSpace(ops.expand(entry));
            && (t == "" || t == "*" ==> Normalize(ops, entry) == t)
            && (forall dir :: t == dir + "/*" ==> Normalize(ops, entry) == ops.clean(dir) + "/*")
            && (t != "" && t != "*" && (forall dir :: t != dir + "/*") ==> Normalize(ops, entry) == ops.clean(t))
  {
    hide TrimSpace;
    var t := TrimSpace(ops.expand(entry));
    if HasSuffix(t, "/*") {
      assert t == t[..|t| - 2] + "/*";
    }
    forall dir | t == dir + "/*"
      ensures Normalize(ops, entry) == ops.clean(dir) + "/*"
    {
      assert HasSuffix(t, "/*") && t[..|t| - 2] == dir;
    }
  }

  predicate Covers(ops: PathOps, entries: seq<string>, repoDir: string) {
    var repo := Normalize(ops, repoDir);
    repo != "" && exists i :: 0 <= i < |entries| && EntryCovers(ops, entries[i], repo)
  }

  method SafeDirectoryCovers(ops: PathOps, entries: seq<string>, repoDir0: string) returns (r: bool)
    ensures r == Covers(ops, entries, repoDir0)
  {
    hide Normalize;
    var repoDir := Normalize(ops, repoDir0);
    if repoDir == "" {
      return false;
    }
    for i := 0 to |entries|
      invariant forall j :: 0 <= j < i ==> !EntryCovers(ops, entries[j], repoDir)
    {
      var normalized := Normalize(ops, entries[i]);
      if normalized == "" {
        continue;
      } else if normalized == "*" {
        assert EntryCovers(ops, entries[i], repoDir);
        return true;
      } else if normalized == repoDir {
        assert EntryCovers(ops, entries[i], repoDir);
        return true;
      } else if HasSuffix(normalized, "/*") {
        var base := normalized[..|normalized| - 2];
        if repoDir != base && ops.within(base, repoDir) {
          assert EntryCovers(ops, entries[i], repoDir);
          return true;
        }
      }
    }
    return false;
  }

  // ----- reading a config text

  /** `parseINIKeyValue`. */
  function KeyValue(line: string, key: string): Option<string> {
    if HasPrefix(line, key + " =") then Some(TrimSpace(line[|key| + 2..]))
    else if HasPrefix(line, key + "=") then Some(TrimSpace(line[|key| + 1..]))
    else None
  }

  function NormalizeValue(ops: PathOps, value: string): string {
    var v0 := TrimSpace(value);
    var at := FindSub(v0, MARKER);
    var v1 := if at >= 0 then TrimSpace(v0[..at]) else v0;
    var v2 := if v1 != "" && v1[0] in {'"', '`', '\''} then
                (match ops.unquote(v1) case Some(u) => u case None => v1)
              else v1;
    TrimSpace(v2)
  }

  /** The directory a line of a safe section gives, "" when it gives none. */
  function LineValue(ops: PathOps, line: string): string {
    match KeyValue(TrimSpace(line), "directory")
    case None => ""
    case Some(v) => NormalizeValue(ops, v)
  }

  function LineValues(ops: PathOps, lines: Lines): seq<string> {
    if lines == [] then []
    else (if LineValue(ops, lines[0]) == "" then [] else [LineValue(ops, lines[0])]) + LineValues(ops, lines[1..])
  }

  function SectionValues(ops: PathOps, u: seq<Section>): seq<string> {
    if u == [] then []
    else
      (if TrimSpace(u[0].name) == "safe" then LineValues(ops, u[0].lines) else []) + SectionValues(ops, u[1..])
  }

  predicate IsInclude(name: string) {
    TrimSpace(name) == "include" || HasPrefix(TrimSpace(name), "includeIf ")
  }

  ghost predicate NoInclude(u: seq<Section>) {
    forall i :: 0 <= i < |u| ==> !IsInclude(u[i].name)
  }

  /** The entries of a text, or nothing when it includes other files. */
  method SafeDirectoryEntriesFromGitConfigContent(ops: PathOps, content: string) returns (entries: seq<string>, complete: bool)
    ensures complete <==> NoInclude(Sections(content))
    ensures complete ==> entries == Dedupe(ops, SectionValues(ops, Sections(content)))
  {
    hide Parse;
    hide Dedupe;
    hide LineValues;
    hide IsInclude;
    hide TrimSpace;
    var sections := ParseINI(content);
    entries := [];
    assert sections[0..] == sections;
    for i := 0 to |sections|
      invariant forall j :: 0 <= j < i ==> !IsInclude(sections[j].name)
      invariant entries + SectionValues(ops, sections[i..]) == SectionValues(ops, sections)
    {
      assert sections[i..][1..] == sections[i + 1..];
      var section := sections[i];
      if IsInclude(section.name) {
        return [], false;
      }
      if TrimSpace(section.name) != "safe" {
        continue;
      }
      entries := ReadLineValues(ops, section.lines, entries);
    }
    assert sections[|sections|..] == [];
    assert entries == SectionValues(ops, Sections(content));
    entries := DedupeSafeDirectoryEntries(ops, entries);
    return entries, true;
  }

  method ReadLineValues(ops: PathOps, lines: Lines, start: seq<string>) returns (entries: seq<string>)
    ensures entries == start + LineValues(ops, lines)
  {
    hide LineValue;
    entries := start;
    assert lines[0..] == lines;
    for j := 0 to |lines|
      invariant entries + LineValues(ops, lines[j..]) == start + LineValues(ops, lines)
    {
      assert lines[j..][1..] == lines[j + 1..];
      var value := LineValue(ops, lines[j]);
      if value == "" {
        continue;
      }
      entries := entries + [value];
    }
    assert lines[|lines|..] == [];
  }

  // ----- a managed line reads back as its entry

  /** An entry as `managedSafeDirectoryEntries` writes it. */
  predicate PlainEntry(entry: string) {
    && entry != "" && Trimmed(entry)
    && '\n' !in entry
    && entry[0] !in {'"', '`', '\''}
    && FindSub(entry, MARKER) < 0
  }

  lemma MarkerText()
    ensures |MARKER| == 17
    ensures MARKER[0] == ' ' && MARKER[16] == 'd'
    ensures forall d :: 0 < d < |MARKER| ==> Unlike(MARKER, d)
  {
  }

  /** `m` moved by `d` disagrees with `m` within its first two characters. */
  predicate Unlike(m: string, d: nat)
    requires 0 < d < |m|
  {
    m[d] != m[0] || (d + 1 < |m| && m[d + 1] != m[1])
  }

  lemma {:induction false} Overlap(m: string, s: string, i: nat, d: nat)
    requires 0 < d < |m| && i + d + |m| <= |s|
    requires s[i..i + |m|] == m && s[i + d..i + d + |m|] == m
    ensures !Unlike(m, d)
  {
    assert s[i..i + |m|][d] == s[i + d..i + d + |m|][0];
    assert d + 1 < |m| ==> s[i..i + |m|][d + 1] == s[i + d..i + d + |m|][1];
  }

  lemma {:induction false} NotInside(entry: string, m: string, i: nat)
    requires FindSub(entry, m) < 0 && i + |m| <= |entry|
    ensures (entry + m)[i..i + |m|] != m
  {
    hide FindSub;
    assert !(m <= entry[i..]);
    assert (entry + m)[i..i + |m|] == entry[i..][..|m|];
  }

  /** So its first occurrence after marker-free text is where the text ends. */
  lemma {:induction false} MarkerFoundAtEnd(entry: string)
    requires FindSub(entry, MARKER) < 0
    ensures FindSub(entry + MARKER, MARKER) == |entry|
  {
    MarkerText();
    FoundAtEnd(entry, MARKER);
  }

  lemma {:induction false} FoundAtEnd(entry: string, m: string)
    requires m != "" && forall d :: 0 < d < |m| ==> Unlike(m, d)
    requires FindSub(entry, m) < 0
    ensures FindSub(entry + m, m) == |entry|
  {
    hide FindSub;
    var s := entry + m;
    assert s[|entry|..] == m;
    var i := FindSub(s, m);
    assert 0 <= i <= |entry|;
    assert s[i..i + |m|] == s[i..][..|m|] == m;
    assert s[|entry|..|entry| + |m|] == m;
    if i < |entry| < i + |m| {
      Overlap(m, s, i, |entry| - i);
    } else if i < |entry| {
      NotInside(entry, m, i);
    }
  }

  lemma {:induction false} TrimPrefixed(p: string, t: string)
    requires Blank(p) && t != "" && Trimmed(t)
    ensures TrimSpace(p + t) == t
  {
    TrimLeftPrefixed(p, t);
  }

  lemma {:induction false} TrimLeftPrefixed(p: string, t: string)
    requires Blank(p) && t != "" && !IsSpace(t[0])
    ensures TrimLeft(p + t) == t
  {
    if p == "" {
      assert p + t == t;
    } else {
      assert (p + t)[1..] == p[1..] + t;
      TrimLeftPrefixed(p[1..], t);
    }
  }

  lemma {:induction false} ValueReads(ops: PathOps, entry: string)
    requires PlainEntry(entry)
    ensures NormalizeValue(ops, entry + MARKER) == entry
  {
    MarkerText();
    MarkerFoundAtEnd(entry);
    var v := entry + MARKER;
    assert v[0] == entry[0] && v[|v| - 1] == MARKER[16];
    TrimTrimmed(v);
    assert v[..|entry|] == entry;
    TrimTrimmed(entry);
    hide FindSub;
    hide TrimSpace;
  }

  lemma {:induction false} DirectoryKeyReads(rest: string)
    ensures KeyValue("directory =" + rest, "directory") == Some(TrimSpace(rest))
  {
    hide TrimSpace;
    var line := "directory =" + rest;
    assert line[..11] == "directory" + " =";
    assert line[11..] == rest;
  }

  lemma {:induction false} WantedLineTrims(entry: string, tail: string)
    requires tail == entry + MARKER && tail != "" && !IsSpace(tail[|tail| - 1])
    ensures TrimSpace(WantedLine(entry)) == "directory =" + (" " + tail)
  {
    hide TrimSpace;
    hide IsSpace;
    var body := "directory =" + (" " + tail);
    assert WantedLine(entry) == "\t" + body;
    assert body[0] == 'd' && body[|body| - 1] == tail[|tail| - 1];
    BlankTab();
    TrimPrefixed("\t", body);
  }

  lemma {:induction false} WantedLineReads(ops: PathOps, entry: string)
    requires PlainEntry(entry)
    ensures LineValue(ops, WantedLine(entry)) == entry
  {
    ValueReads(ops, entry);
    MarkerText();
    var tail := entry + MARKER;
    assert tail[0] == entry[0] && tail[|tail| - 1] == MARKER[16];
    assert tail != "" && Trimmed(tail);
    hide *;
    TrimmedEnds(tail);
    WantedLineTrims(entry, tail);
    DirectoryKeyReads(" " + tail);
    BlankTab();
    TrimPrefixed(" ", tail);
    LineValueIs(ops, WantedLine(entry), tail);
  }

  lemma TrimmedEnds(t: string)
    requires t != "" && Trimmed(t)
    ensures !IsSpace(t[|t| - 1])
  {
  }

  lemma LineValueIs(ops: PathOps, line: string, v: string)
    requires KeyValue(TrimSpace(line), "directory") == Some(v)
    ensures LineValue(ops, line) == NormalizeValue(ops, v)
  {
  }

  lemma BlankTab()
    ensures Blank("\t") && Blank(" ") && !IsSpace('d')
  {
  }

  // ----- from the managed lines to the entries

  lemma {:induction false} LineIsRead(ops: PathOps, lines: Lines, line: string)
    requires line in lines && LineValue(ops, line) != ""
    ensures LineValue(ops, line) in LineValues(ops, lines)
  {
    hide LineValue;
    if lines[0] != line {
      assert line in lines[1..];
      LineIsRead(ops, lines[1..], line);
    }
  }

  lemma {:induction false} MarkedIsRead(ops: PathOps, u: seq<Section>, line: string)
    requires line in AllMarkedLines(u) && LineValue(ops, line) != ""
    ensures LineValue(ops, line) in SectionValues(ops, u)
  {
    hide LineValue;
    hide MarkedLines;
    hide LineValues;
    TrimTrimmed("safe");
    if u[0].name == "safe" && line in MarkedLines(u[0].lines) {
      MarkedIsLine(u[0].lines, line);
      LineIsRead(ops, u[0].lines, line);
    } else {
      MarkedIsRead(ops, u[1..], line);
    }
  }

  lemma {:induction false} MarkedIsLine(lines: Lines, line: string)
    requires line in MarkedLines(lines)
    ensures line in lines
  {
    hide Managed;
    if !(Managed(lines[0]) && lines[0] == line) {
      MarkedIsLine(lines[1..], line);
    }
  }

  /**
   After a rewrite, the text read back is complete and covers every repository strictly below each directory written
   with a trailing wildcard.
   */
  lemma RewriteIsReadBack(ops: PathOps, content: string, wanted: seq<string>, k: nat, dir: string, repoDir: string)
    requires Regular(content) && EntriesOk(wanted)
    requires k < |wanted| && PlainEntry(wanted[k])
    requires wanted[k] == dir + "/*" && Normalize(ops, wanted[k]) == wanted[k]
    requires NoInclude(Sections(content))
    requires Normalize(ops, repoDir) != "" && Normalize(ops, repoDir) != dir && ops.within(dir, Normalize(ops, repoDir))
    ensures NoInclude(Sections(Rewrite(content, wanted)))
    ensures var entries := Dedupe(ops, SectionValues(ops, Sections(Rewrite(content, wanted))));
            wanted[k] in entries && Covers(ops, entries, repoDir)
  {
    var entry := wanted[k];
    var text := Rewrite(content, wanted);
    var values := SectionValues(ops, Sections(text));
    assert HasSuffix(entry, "/*") && entry[..|entry| - 2] == dir;
    assert WantedLines(wanted)[k] == WantedLine(entry);
    assert EntryCovers(ops, entry, Normalize(ops, repoDir));
    assert entry != "";
    RewriteKeepsOwnLines(content, wanted);
    WantedLineReads(ops, entry);
    MarkedIsRead(ops, Sections(text), WantedLine(entry));
    RewriteAddsNoInclude(content, wanted);
    EntryIsKept(ops, values, entry);
    var entries := Dedupe(ops, values);
    hide *;
    CoveredBy(ops, entries, entry, repoDir);
  }

  lemma EntryIsKept(ops: PathOps, values: seq<string>, entry: string)
    requires entry in values && entry != "" && Normalize(ops, entry) == entry
    ensures entry in Dedupe(ops, values)
  {
    hide Normalize;
    hide Dedupe;
    DedupeHolds(ops, values);
    var i :| 0 <= i < |values| && values[i] == entry;
    assert Normalize(ops, values[i]) == entry;
  }

  lemma CoveredBy(ops: PathOps, entries: seq<string>, entry: string, repoDir: string)
    requires entry in entries && Normalize(ops, repoDir) != "" && EntryCovers(ops, entry, Normalize(ops, repoDir))
    ensures Covers(ops, entries, repoDir)
  {
    hide EntryCovers;
    hide Normalize;
    var i :| 0 <= i < |entries| && entries[i] == entry;
  }

  lemma {:induction false} RewriteNames(u: seq<Section>, wl: Lines, i: bool)
    requires NoInclude(u)
    ensures NoInclude(RewriteSections(u, wl, i))
  {
    hide Kept;
    hide Dropped;
    SafeIsNoInclude();
    hide IsInclude;
    if u != [] {
      assert NoInclude(u[1..]) by {
        assert forall k :: 0 <= k < |u[1..]| ==> u[1..][k] == u[k + 1];
      }
      RewriteNames(u[1..], wl, i || u[0].name == "safe");
    }
  }

  lemma SafeIsNoInclude()
    ensures !IsInclude("safe") && !IsInclude("")
  {
    TrimTrimmed("safe");
    TrimTrimmed("");
  }

  lemma RewriteAddsNoInclude(content: string, wanted: seq<string>)
    requires Regular(content) && EntriesOk(wanted) && NoInclude(Sections(content))
    ensures NoInclude(Sections(Rewrite(content, wanted)))
  {
    hide *;
    RegularIs(content);
    SectionsIs(content);
    SectionsIs(Rewrite(content, wanted));
    RewriteSplits(content, wanted);
    RewriteDocIs(content, wanted);
    var u := RewriteSections(Sections(content), WantedLines(wanted), false);
    RewriteNames(Sections(content), WantedLines(wanted), false);
    Reread(u);
    RereadNames(u);
  }

  lemma RereadNames(u: seq<Section>)
    requires NoInclude(u)
    ensures NoInclude(if u == [] then [Section("", ["", ""])] else WithPreamble(Close(u)))
  {
    SafeIsNoInclude();
    hide IsInclude;
    hide Stripped;
  }
}
