/** Whole batched reads: chunks of paths, one `ls` run each, with single reads where a run fails. */
module AclBatchReads {
  import opened Wrappers
  import opened Text
  import opened Acl
  import opened AclBatch
  import AclHealthCache

  /** `ls -leOd` on many paths and on one: None when it fails. */
  datatype Ls = Ls(many: seq<string> -> Option<string>, one: string -> Option<string>)

  const BATCH := 64

  function ReadACLs(ls: Ls, path: string): ReadResult {
    match ls.one(path)
    case None => ReadResult([], false)
    case Some(out) => ReadResult(RowsIn(Split(out, '\n')), true)
  }

  predicate GoodPaths(paths: seq<string>) {
    && (forall p :: p in paths ==> p != "" && p[0] == '/' && IsLine(p))
    && forall i, j :: 0 <= i < j < |paths| ==> paths[i] != paths[j]
  }

  /** One block a path, in any order, each as a run on that path alone prints it, up to the metadata columns. */
  ghost predicate Listing(ls: Ls, paths: seq<string>, blocks: seq<Block>) {
    && Distinct(blocks)
    && (forall b :: b in blocks ==> WellFormed(b) && b.path in paths)
    && (forall p :: p in paths ==> exists b :: b in blocks && b.path == p)
    && forall b :: b in blocks ==>
         exists prefix: string :: WellFormed(b.(prefix := prefix)) && ls.one(b.path) == Some(TextOf(Lines(b.(prefix := prefix))))
  }

  ghost predicate Faithful(ls: Ls) {
    forall paths :: GoodPaths(paths) && ls.many(paths).Some? ==>
      exists blocks :: Listing(ls, paths, blocks) && ls.many(paths).value == TextOf(AllLines(blocks))
  }

  /** Under the header, no row comes after a stray line. */
  predicate OrderlyOutput(ls: Ls, path: string) {
    ls.one(path).Some? ==> Orderly(Split(ls.one(path).value, '\n')[1..])
  }

  // ---- text to lines and back ---------------------------------------------------------------------------------

  lemma TextLines(lines: seq<string>)
    requires forall l :: l in lines ==> IsLine(l)
    ensures Split(TextOf(lines), '\n') == lines + [""]
  {
    forall i | 0 <= i < |lines + [""]|
      ensures '\n' !in (lines + [""])[i]
    {
      assert i < |lines| ==> lines[i] in lines;
    }
    SplitJoin(lines + [""], '\n');
    assert ['\n'] == "\n";
  }

  lemma EmptyLine(paths: seq<string>)
    requires Absolute(paths)
    ensures ParseRow("") == None && TrimSpace("") == "" && Longest("", paths) == ""
  {
    BodyIsNoHeader("", paths);
  }

  lemma {:induction false} RowsAppendEmpty(lines: seq<string>)
    ensures RowsIn(lines + [""]) == RowsIn(lines)
    ensures Orderly(lines + [""]) <==> Orderly(lines)
  {
    EmptyLine([]);
    hide ParseRow;
    hide TrimSpace;
    if lines == [] {
      assert lines + [""] == [""];
      assert [""][1..] == [];
    } else {
      RowsAppendEmpty(lines[1..]);
      assert (lines + [""])[1..] == lines[1..] + [""];
    }
  }

  lemma {:induction false} AllLinesAre(blocks: seq<Block>)
    requires forall b :: b in blocks ==> WellFormed(b)
    ensures forall l :: l in AllLines(blocks) ==> IsLine(l)
  {
    hide ParseRow;
    if blocks != [] {
      assert WellFormed(blocks[0]);
      assert forall b :: b in blocks[1..] ==> b in blocks;
      AllLinesAre(blocks[1..]);
    }
  }

  lemma BlockLines(b: Block)
    requires WellFormed(b)
    ensures Split(TextOf(Lines(b)), '\n') == [Header(b)] + (b.body + [""])
    ensures RowsIn(Split(TextOf(Lines(b)), '\n')) == RowsIn(b.body)
    ensures Orderly(Split(TextOf(Lines(b)), '\n')[1..]) <==> Orderly(b.body)
  {
    HeaderIsNoRow(b);
    hide ParseRow;
    hide TrimSpace;
    hide TextOf;
    hide Split;
    TextLines(Lines(b));
    RowsAppendEmpty(b.body);
    assert Lines(b) + [""] == [Header(b)] + (b.body + [""]);
    var lines := [Header(b)] + (b.body + [""]);
    assert lines[1..] == b.body + [""];
    assert [] + RowsIn(lines[1..]) == RowsIn(lines[1..]);
  }

  // ---- one chunk ----------------------------------------------------------------------------------------------

  predicate HasBlock(blocks: seq<Block>, path: string) {
    exists b :: b in blocks && b.path == path
  }

  lemma RowsOfBlocks(blocks: seq<Block>, rows: map<string, seq<Row>>)
    requires forall p :: p in rows <==> exists b :: b in blocks && b.path == p
    ensures forall p :: p in rows <==> HasBlock(blocks, p)
    ensures forall b :: b in blocks ==> b.path in rows
  {
  }

  lemma ChunkRun(blocks: seq<Block>, paths: seq<string>)
    requires Distinct(blocks) && Absolute(paths) && forall b :: b in blocks ==> WellFormed(b) && b.path in paths
    ensures var rows := Run(Reader("", map[]), Split(TextOf(AllLines(blocks)), '\n'), paths).rows;
            && (forall p :: p in rows <==> HasBlock(blocks, p))
            && forall b :: b in blocks ==> b.path in rows && rows[b.path] == RowsUpToStray(b.body)
  {
    var lines := AllLines(blocks);
    AllLinesAre(blocks);
    TextLines(lines);
    EmptyLine(paths);
    var start := Reader("", map[]);
    var r := Run(start, lines, paths);
    assert Run(r, [""], paths) == r by {
      hide ParseRow;
      hide TrimSpace;
      hide Longest;
      assert [""][1..] == [];
      assert Run(r, [""], paths) == Run(Step(r, "", paths), [], paths);
    }
    hide *;
    RunAppend(start, lines, [""], paths);
    ListingRun(start, blocks, paths);
    RowsOfBlocks(blocks, r.rows);
  }

  lemma SingleRead(ls: Ls, b: Block)
    requires WellFormed(b) && ls.one(b.path) == Some(TextOf(Lines(b)))
    ensures ReadACLs(ls, b.path) == ReadResult(RowsIn(b.body), true)
    ensures OrderlyOutput(ls, b.path) <==> Orderly(b.body)
  {
    BlockLines(b);
    hide Orderly;
    hide RowsIn;
    hide Split;
    hide WellFormed;
  }

  /** A single read fails exactly if its run does, and then gives no rows. */
  lemma ReadOkIff(ls: Ls, path: string)
    ensures ReadACLs(ls, path).ok <==> ls.one(path).Some?
    ensures ls.one(path) == None ==> ReadACLs(ls, path).rows == []
  {
  }

  /** A batch that `ls` answers gives for each path what a read of that path alone gives, exactly when no row of that
      path comes after a stray line. Paths may hold spaces and end in one another. */
  lemma ChunkAgreesIff(ls: Ls, paths: seq<string>, out: string)
    requires Faithful(ls) && GoodPaths(paths) && ls.many(paths) == Some(out)
    ensures var rows := Run(Reader("", map[]), Split(out, '\n'), paths).rows;
            && (forall p :: p in rows <==> p in paths)
            && forall p :: p in paths ==> (ReadResult(rows[p], true) == ReadACLs(ls, p) <==> OrderlyOutput(ls, p))
  {
    var blocks: seq<Block> :| Listing(ls, paths, blocks) && out == TextOf(AllLines(blocks));
    GoodAreAbsolute(paths);
    ListedAre(ls, paths, blocks);
    ChunkRun(blocks, paths);
    var rows := Run(Reader("", map[]), Split(out, '\n'), paths).rows;
    hide *;
    forall p | p in paths
      ensures p in rows && (ReadResult(rows[p], true) == ReadACLs(ls, p) <==> OrderlyOutput(ls, p))
    {
      var b := ListedBlock(ls, paths, blocks, p);
      assert b in blocks && b.path == p;
      OrderlyIff(b.body);
    }
  }

  lemma GoodAreAbsolute(paths: seq<string>)
    requires GoodPaths(paths)
    ensures Absolute(paths)
  {
  }

  lemma ListedAre(ls: Ls, paths: seq<string>, blocks: seq<Block>)
    requires Listing(ls, paths, blocks)
    ensures Distinct(blocks) && forall b :: b in blocks ==> WellFormed(b) && b.path in paths
    ensures forall p :: HasBlock(blocks, p) <==> p in paths
  {
    hide WellFormed;
    hide Distinct;
  }

  lemma ListedBlock(ls: Ls, paths: seq<string>, blocks: seq<Block>, p: string) returns (b: Block)
    requires Listing(ls, paths, blocks) && p in paths
    ensures b in blocks && b.path == p
    ensures ReadACLs(ls, p) == ReadResult(RowsIn(b.body), true)
    ensures OrderlyOutput(ls, p) <==> Orderly(b.body)
  {
    hide WellFormed;
    hide Lines;
    hide TextOf;
    hide ReadACLs;
    hide OrderlyOutput;
    b :| b in blocks && b.path == p;
    var prefix: string :| WellFormed(b.(prefix := prefix)) && ls.one(b.path) == Some(TextOf(Lines(b.(prefix := prefix))));
    SingleRead(ls, b.(prefix := prefix));
  }

  // ---- in place -----------------------------------------------------------------------------------------------

  lemma RowsInAt(lines: seq<string>, i: nat)
    requires i < |lines|
    ensures ParseRow(lines[i]) == None ==> RowsIn(lines[i..]) == RowsIn(lines[i + 1..])
    ensures ParseRow(lines[i]).Some? ==> RowsIn(lines[i..]) == [ParseRow(lines[i]).value] + RowsIn(lines[i + 1..])
  {
    hide ParseRow;
    assert lines[i..][1..] == lines[i + 1..] && lines[i..][0] == lines[i];
    assert [] + RowsIn(lines[i + 1..]) == RowsIn(lines[i + 1..]);
  }

  method RowsOfLines(lines: seq<string>) returns (rows: seq<Row>)
    ensures rows == RowsIn(lines)
  {
    rows := [];
    assert lines[0..] == lines && RowsIn([]) == [];
    hide *;
    for i := 0 to |lines|
      invariant RowsIn(lines) == rows + RowsIn(lines[i..])
    {
      ghost var rest := RowsIn(lines[i + 1..]);
      RowsInAt(lines, i);
      var row := ParseRow(lines[i]);
      if row.Some? {
        assert rows + ([row.value] + rest) == (rows + [row.value]) + rest;
        rows := rows + [row.value];
      }
    }
    assert lines[|lines|..] == [];
  }

  method ReadACLsOf(ls: Ls, path: string) returns (r: ReadResult)
    ensures r == ReadACLs(ls, path)
  {
    var out := ls.one(path);
    if out == None {
      return ReadResult([], false);
    }
    var rows := RowsOfLines(Split(out.value, '\n'));
    return ReadResult(rows, true);
  }

  predicate Right(ls: Ls, p: string, r: ReadResult) {
    OrderlyOutput(ls, p) ==> r == ReadACLs(ls, p)
  }

  predicate Agrees(ls: Ls, results: map<string, ReadResult>, p: string) {
    p in results && Right(ls, p, results[p])
  }

  /** None when the run on the whole chunk fails. */
  method ParseChunk(ls: Ls, chunk: seq<string>) returns (parsed: Option<map<string, seq<Row>>>)
    requires Faithful(ls) && GoodPaths(chunk)
    ensures parsed.Some? ==> forall p :: p in chunk && p in parsed.value ==> Right(ls, p, ReadResult(parsed.value[p], true))
  {
    var out := ls.many(chunk);
    if out == None {
      return None;
    }
    ChunkAgreesIff(ls, chunk, out.value);
    var rows := ParseDarwinACLBatchOutput(out.value, chunk);
    parsed := Some(rows);
    hide Faithful;
    hide GoodPaths;
    hide Run;
    hide Split;
    hide ReadACLs;
    hide OrderlyOutput;
  }

  /** One chunk: a failed run, and a path the parse does not know, fall back to single reads. */
  method ReadChunk(ls: Ls, chunk: seq<string>, before: map<string, ReadResult>) returns (results: map<string, ReadResult>)
    requires Faithful(ls) && GoodPaths(chunk)
    ensures forall p :: p in results <==> p in before || p in chunk
    ensures forall p :: p in before && p !in chunk ==> results[p] == before[p]
    ensures forall p :: p in chunk ==> Agrees(ls, results, p)
  {
    hide Right;
    hide Faithful;
    hide GoodPaths;
    hide ReadACLs;
    results := before;
    var parsed := ParseChunk(ls, chunk);
    for i := 0 to |chunk|
      invariant forall p :: p in results <==> p in before || p in chunk[..i]
      invariant forall p :: p in before && p !in chunk ==> results[p] == before[p]
      invariant forall p :: p in chunk[..i] ==> Agrees(ls, results, p)
    {
      assert chunk[..i + 1] == chunk[..i] + [chunk[i]];
      if parsed.Some? && chunk[i] in parsed.value {
        results := results[chunk[i] := ReadResult(parsed.value[chunk[i]], true)];
        continue;
      }
      var single := ReadACLsOf(ls, chunk[i]);
      assert Right(ls, chunk[i], single) by {
        ItselfIsRight(ls, chunk[i]);
      }
      results := results[chunk[i] := single];
    }
    assert chunk[..|chunk|] == chunk;
  }

  lemma ItselfIsRight(ls: Ls, p: string)
    ensures Right(ls, p, ReadACLs(ls, p))
  {
  }

  lemma GoodSlice(paths: seq<string>, start: nat, end: nat)
    requires GoodPaths(paths) && start <= end <= |paths|
    ensures GoodPaths(paths[start..end])
  {
    hide IsLine;
    var part := paths[start..end];
    forall p | p in part
      ensures p in paths
    {
      var i :| 0 <= i < |part| && part[i] == p;
      assert paths[start + i] == p;
    }
    forall i, j | 0 <= i < j < |part|
      ensures part[i] != part[j]
    {
      assert part[i] == paths[start + i] && part[j] == paths[start + j];
    }
  }

  method ReadACLsInBatches(ls: Ls, paths: seq<string>) returns (results: map<string, ReadResult>, ghost batches: nat)
    requires Faithful(ls) && GoodPaths(paths)
    ensures batches == (|paths| + 63) / 64
    ensures forall p :: p in results <==> p in paths
    ensures forall p :: p in paths ==> Agrees(ls, results, p)
  {
    hide Faithful;
    hide Right;
    hide GoodPaths;
    results, batches := map[], 0;
    var start := 0;
    while start < |paths|
      invariant 0 <= start <= |paths| && batches == (start + 63) / 64 && (start % 64 == 0 || start == |paths|)
      invariant forall p :: p in results <==> p in paths[..start]
      invariant forall p :: p in paths[..start] ==> Agrees(ls, results, p)
    {
      var end := start + BATCH;
      if end > |paths| {
        end := |paths|;
      }
      assert paths[..end] == paths[..start] + paths[start..end];
      GoodSlice(paths, start, end);
      results := ReadChunk(ls, paths[start..end], results);
      start, batches := end, batches + 1;
    }
    assert paths[..|paths|] == paths;
  }

  method ReadACLsForPaths(ls: Ls, paths: seq<string>) returns (results: map<string, ReadResult>)
    requires Faithful(ls) && forall p :: p in paths && p != "" ==> p[0] == '/' && IsLine(p)
    ensures results.Keys == set p | p in paths && p != ""
    ensures forall p :: p in results && OrderlyOutput(ls, p) ==> results[p] == ReadACLs(ls, p)
  {
    var unique := AclHealthCache.UniqueACLPaths(paths);
    UniqueHolds(paths);
    assert GoodPaths(unique);
    hide Faithful;
    hide OrderlyOutput;
    hide ReadACLs;
    hide Unique;
    if unique == [] {
      return map[];
    }
    ghost var batches;
    results, batches := ReadACLsInBatches(ls, unique);
    assert forall p :: p in results ==> Agrees(ls, results, p);
  }

  // ---- stray lines exist --------------------------------------------------------------------------------------

  lemma FieldsStep(s: string, c: char)
    ensures Fields(s + [c]) ==
            if IsSpace(c) then Fields(s)
            else if s == "" || IsSpace(s[|s| - 1]) || Fields(s) == [] then Fields(s) + [[c]]
            else Fields(s)[..|Fields(s)| - 1] + [Fields(s)[|Fields(s)| - 1] + [c]]
  {
    var t := s + [c];
    assert t[..|t| - 1] == s && t[|t| - 1] == c;
  }

  predicate IsWord(w: string) {
    w != "" && forall i :: 0 <= i < |w| ==> !IsSpace(w[i])
  }

  lemma {:induction false} FieldsOfWord(s: string, w: string)
    requires IsWord(w) && (s == "" || IsSpace(s[|s| - 1]))
    ensures Fields(s + w) == Fields(s) + [w]
    decreases |w|
  {
    hide Fields;
    hide IsSpace;
    var v, c := w[..|w| - 1], w[|w| - 1];
    assert w == v + [c];
    FieldsStep(s + v, c);
    assert (s + v) + [c] == s + w;
    if v == "" {
      assert s + v == s;
    } else {
      FieldsOfWord(s, v);
      var f := Fields(s) + [v];
      assert f[..|f| - 1] == Fields(s) && f[|f| - 1] == v;
      assert (s + v)[|s + v| - 1] == v[|v| - 1] == w[|w| - 2];
    }
  }

  lemma FieldsNext(s: string, w: string)
    requires IsWord(w)
    ensures Fields((s + " ") + w) == Fields(s) + [w]
  {
    hide Fields;
    hide IsWord;
    FieldsStep(s, ' ');
    FieldsOfWord(s + " ", w);
  }

  lemma OneField()
    ensures Fields("my") == ["my"]
  {
    assert Fields("") == [];
    hide Fields;
    FieldsOfWord("", "my");
    assert "" + "my" == "my";
  }

  lemma TwoFields()
    ensures Fields("my team") == ["my", "team"]
  {
    OneField();
    hide Fields;
    FieldsNext("my", "team");
    assert ("my" + " ") + "team" == "my team";
  }

  lemma ThreeFields()
    ensures Fields("my team allow") == ["my", "team", "allow"]
  {
    TwoFields();
    hide Fields;
    FieldsNext("my team", "allow");
    assert ("my team" + " ") + "allow" == "my team allow";
  }

  lemma SpacedFields()
    ensures Fields("my team allow x") == ["my", "team", "allow", "x"]
  {
    ThreeFields();
    hide Fields;
    FieldsNext("my team allow", "x");
    assert ("my team allow" + " ") + "x" == "my team allow x";
  }

  lemma SpacedIsNoRow(index: int)
    ensures ParseRowFields(index, ["my", "team", "allow", "x"]) == None
  {
    assert "team"[1] != "inherited"[1] && "team"[1] != "allow"[1];
    assert "team"[0] != "deny"[0];
  }

  /** A principal with a space in its name makes its own row unreadable, and in a batch takes the rows after it along. */
  lemma SpacedPrincipalIsStray()
    ensures Stray("0:my team allow x")
  {
    var line := "0:my team allow x";
    hide Fields;
    hide ParseRowFields;
    hide Atoi;
    hide Split;
    assert line[0] == '0' && line[1] == ':';
    assert TrimIndent(line) == line;
    assert IndexOf(line, ':') == 1;
    assert line[2..] == "my team allow x";
    SpacedFields();
    var index := Atoi(line[..1]);
    if index.Some? {
      SpacedIsNoRow(index.value);
    }
    assert TrimSpace(line) != "" by {
      assert !IsSpace(line[0]);
      assert !Blank(line);
    }
  }

  lemma StrayLosesRows(ls: Ls, b: Block, row: string)
    requires WellFormed(b) && b.body == ["0:my team allow x", row] && ParseRow(row).Some?
    requires ls.one(b.path) == Some(TextOf(Lines(b)))
    ensures !OrderlyOutput(ls, b.path)
  {
    SpacedPrincipalIsStray();
    SingleRead(ls, b);
    assert b.body[0] == "0:my team allow x" && b.body[1..][0] == row;
    hide ParseRow;
    hide TrimSpace;
    hide OrderlyOutput;
    assert RowsIn(b.body[1..]) != [];
  }
}
