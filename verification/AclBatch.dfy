/** Reading the ACLs of many paths from one `ls` run, against reading each path alone. */
module AclBatch {
  import opened Wrappers
  import opened Text
  import opened Acl
  import AclHealthCache

  // ---- one listing --------------------------------------------------------------------------------------------

  /** What `ls -leOd` prints for one path: a line of metadata ending in the path, then the lines under it. */
  datatype Block = Block(prefix: string, path: string, body: seq<string>)

  function Header(b: Block): string {
    b.prefix + " " + b.path
  }

  function Lines(b: Block): seq<string> {
    [Header(b)] + b.body
  }

  function AllLines(blocks: seq<Block>): seq<string> {
    if blocks == [] then [] else Lines(blocks[0]) + AllLines(blocks[1..])
  }

  predicate IsLine(s: string) {
    '\n' !in s
  }

  /** An absolute path after a mode string such as "drwxr-xr-x+": no slash before the path, and no row in it. Lines
      under the header that are no rows hold no slash. */
  predicate WellFormed(b: Block) {
    && |b.prefix| >= 2 && b.prefix[0] in {'-', 'b', 'c', 'd', 'l', 'p', 's'} && b.prefix[1] in {'-', 'r'}
    && '/' !in b.prefix && IsLine(b.prefix)
    && b.path != "" && b.path[0] == '/' && IsLine(b.path)
    && forall l :: l in b.body ==> IsLine(l) && (ParseRow(l) == None ==> '/' !in l)
  }

  /** Text whose lines these are, the last one ended too. */
  function TextOf(lines: seq<string>): string {
    Join(lines + [""], "\n")
  }

  function RowsIn(lines: seq<string>): seq<Row> {
    if lines == [] then []
    else (match ParseRow(lines[0]) case None => [] case Some(row) => [row]) + RowsIn(lines[1..])
  }

  /** A line that is neither a row nor blank makes the batch reader forget which path it is in. */
  predicate Stray(line: string) {
    ParseRow(line) == None && TrimSpace(line) != ""
  }

  function RowsUpToStray(lines: seq<string>): seq<Row> {
    if lines == [] || Stray(lines[0]) then []
    else (match ParseRow(lines[0]) case None => [] case Some(row) => [row]) + RowsUpToStray(lines[1..])
  }

  /** No row comes after a stray line. */
  predicate Orderly(lines: seq<string>) {
    lines == [] || (if Stray(lines[0]) then RowsIn(lines[1..]) == [] else Orderly(lines[1..]))
  }

  lemma {:induction false} OrderlyIff(lines: seq<string>)
    ensures RowsUpToStray(lines) == RowsIn(lines) <==> Orderly(lines)
  {
    hide ParseRow;
    hide TrimSpace;
    if lines != [] {
      OrderlyIff(lines[1..]);
      assert [] + RowsIn(lines[1..]) == RowsIn(lines[1..]);
      assert [] + RowsUpToStray(lines[1..]) == RowsUpToStray(lines[1..]);
      if !Stray(lines[0]) && ParseRow(lines[0]).Some? {
        var row := ParseRow(lines[0]).value;
        assert ([row] + RowsUpToStray(lines[1..]))[1..] == RowsUpToStray(lines[1..]);
        assert ([row] + RowsIn(lines[1..]))[1..] == RowsIn(lines[1..]);
      }
    }
  }

  // ---- headers ------------------------------------------------------------------------------------------------

  predicate EndsIn(line: string, path: string) {
    path != "" && (line == path || HasSuffix(line, " " + path))
  }

  /** The longest path the line ends in, the first one among equals; "" when there is none. */
  function Longest(line: string, paths: seq<string>): string {
    if paths == [] then ""
    else
      var best, last := Longest(line, paths[..|paths| - 1]), paths[|paths| - 1];
      if EndsIn(line, last) && |last| > |best| then last else best
  }

  method DarwinACLHeaderPath(line: string, paths: seq<string>) returns (r: Option<string>)
    ensures r == if Longest(line, paths) == "" then None else Some(Longest(line, paths))
  {
    var longest := "";
    for i := 0 to |paths|
      invariant longest == Longest(line, paths[..i])
    {
      assert paths[..i + 1][..i] == paths[..i];
      if paths[i] == "" {
        continue;
      }
      if line != paths[i] && !HasSuffix(line, " " + paths[i]) {
        continue;
      }
      if |paths[i]| > |longest| {
        longest := paths[i];
      }
    }
    assert paths[..|paths|] == paths;
    return if longest == "" then None else Some(longest);
  }

  lemma {:induction false} LongestHolds(line: string, paths: seq<string>)
    ensures Longest(line, paths) == "" || (Longest(line, paths) in paths && EndsIn(line, Longest(line, paths)))
    ensures forall p :: p in paths && EndsIn(line, p) ==> |p| <= |Longest(line, paths)|
  {
    if paths != [] {
      LongestHolds(line, paths[..|paths| - 1]);
      assert paths == paths[..|paths| - 1] + [paths[|paths| - 1]];
    }
  }

  /** Of two absolute paths a header ends in, the one before which there is no slash is the longer. */
  lemma HeaderEnds(b: Block, q: string)
    requires WellFormed(b) && q != "" && q[0] == '/' && EndsIn(Header(b), q)
    ensures |q| < |b.path| || q == b.path
  {
    hide ParseRow;
    var h := Header(b);
    var at := |h| - |q|;
    assert h[at] == '/' by {
      if h != q {
        assert h[|h| - |" " + q|..][1] == (" " + q)[1] == q[0];
      }
    }
    assert forall k :: 0 <= k < |b.prefix| ==> h[k] == b.prefix[k] != '/';
    assert h[|b.prefix|] == ' ';
    if at == |b.prefix| + 1 {
      assert h[at..] == b.path;
      assert q == h[at..] by {
        if h != q {
          assert h[|h| - |" " + q|..] == " " + q;
          assert h[at..] == h[|h| - |" " + q|..][1..];
        }
      }
    }
  }

  /** Also when one path is the end of another or holds spaces, a header is taken for its own path. */
  lemma HeaderIsOwn(b: Block, paths: seq<string>)
    requires WellFormed(b) && b.path in paths && forall p :: p in paths ==> p != "" && p[0] == '/'
    ensures Longest(Header(b), paths) == b.path
  {
    hide ParseRow;
    LongestHolds(Header(b), paths);
    var h := Header(b);
    assert h[|h| - |" " + b.path|..] == " " + b.path;
    var q := Longest(h, paths);
    HeaderEnds(b, q);
  }

  lemma BodyIsNoHeader(line: string, paths: seq<string>)
    requires '/' !in line && forall p :: p in paths ==> p != "" && p[0] == '/'
    ensures Longest(line, paths) == ""
  {
    LongestHolds(line, paths);
    if Longest(line, paths) != "" {
      EndHoldsSlash(line, Longest(line, paths));
    }
  }

  lemma EndHoldsSlash(line: string, path: string)
    requires path != "" && path[0] == '/' && EndsIn(line, path)
    ensures '/' in line
  {
    if line != path {
      assert line[|line| - |" " + path|..][1] == (" " + path)[1];
    }
    assert line[|line| - |path|] == '/';
  }

  /** A header is never taken for a row. */
  lemma HeaderIsNoRow(b: Block)
    requires WellFormed(b)
    ensures ParseRow(Header(b)) == None
  {
    var h := Header(b);
    assert h[0] == b.prefix[0] && h[1] == b.prefix[1];
    assert TrimIndent(h) == h;
    hide ParseRowFields;
    var colon := IndexOf(h, ':');
    if colon > 0 {
      NoNumber(h[..colon]);
    }
  }

  lemma NoNumber(s: string)
    requires s != "" && s[0] in {'-', 'b', 'c', 'd', 'l', 'p', 's'} && (|s| > 1 ==> s[1] in {'-', 'r'})
    ensures Atoi(s) == None
  {
    if s[0] == '-' {
      if |s| > 1 {
        NoDigits(s[1..], 0);
      }
    } else {
      NoDigits(s, 0);
    }
  }

  lemma {:induction false} NoDigits(s: string, i: nat)
    requires i < |s| && !IsDigit(s[i])
    ensures Digits(s) == None
  {
    if i < |s| - 1 {
      NoDigits(s[..|s| - 1], i);
    }
  }

  // ---- the batch reader ---------------------------------------------------------------------------------------

  datatype Reader = Reader(current: string, rows: map<string, seq<Row>>)

  function Step(r: Reader, line: string, paths: seq<string>): Reader {
    match ParseRow(line)
    case Some(row) =>
      if r.current == "" then r
      else
        var rows := (if r.current in r.rows then r.rows[r.current] else []) + [row];
        r.(rows := r.rows[r.current := rows])
    case None =>
      var path := Longest(line, paths);
      if path != "" then Reader(path, if path in r.rows then r.rows else r.rows[path := []])
      else if TrimSpace(line) != "" then r.(current := "")
      else r
  }

  function Run(r: Reader, lines: seq<string>, paths: seq<string>): Reader
    decreases |lines|
  {
    if lines == [] then r else Run(Step(r, lines[0], paths), lines[1..], paths)
  }

  lemma {:induction false} RunAppend(r: Reader, a: seq<string>, b: seq<string>, paths: seq<string>)
    ensures Run(r, a + b, paths) == Run(Run(r, a, paths), b, paths)
    decreases |a|
  {
    hide Step;
    if a == [] {
      assert a + b == b;
    } else {
      assert (a + b)[1..] == a[1..] + b;
      RunAppend(Step(r, a[0], paths), a[1..], b, paths);
    }
  }

  predicate BodyLines(lines: seq<string>) {
    forall l :: l in lines ==> ParseRow(l) == None ==> '/' !in l
  }

  predicate Absolute(paths: seq<string>) {
    forall p :: p in paths ==> p != "" && p[0] == '/'
  }

  lemma BodyStep(r: Reader, line: string, paths: seq<string>)
    requires ParseRow(line) == None ==> '/' !in line
    requires Absolute(paths) && (r.current != "" ==> r.current in r.rows)
    ensures Step(r, line, paths) ==
            if Stray(line) then r.(current := "")
            else if ParseRow(line) == None || r.current == "" then r
            else r.(rows := r.rows[r.current := r.rows[r.current] + [ParseRow(line).value]])
  {
    hide ParseRow;
    hide TrimSpace;
    if ParseRow(line) == None {
      BodyIsNoHeader(line, paths);
    }
  }

  lemma {:induction false} BodyForgotten(r: Reader, body: seq<string>, paths: seq<string>)
    requires BodyLines(body) && Absolute(paths) && r.current == ""
    ensures Run(r, body, paths) == r
  {
    hide ParseRow;
    hide TrimSpace;
    hide Step;
    if body != [] {
      BodyStep(r, body[0], paths);
      BodyForgotten(r, body[1..], paths);
    }
  }

  /** Under its header, a body adds its rows up to the first stray line. */
  lemma {:induction false} BodyRun(r: Reader, body: seq<string>, paths: seq<string>)
    requires BodyLines(body) && Absolute(paths) && r.current != "" && r.current in r.rows
    ensures Run(r, body, paths).rows == r.rows[r.current := r.rows[r.current] + RowsUpToStray(body)]
    ensures Run(r, body, paths).current in {"", r.current}
    decreases |body|
  {
    hide ParseRow;
    hide TrimSpace;
    hide Step;
    var rows := r.rows[r.current];
    if body == [] {
      assert rows + [] == rows;
    } else {
      var next := Step(r, body[0], paths);
      BodyStep(r, body[0], paths);
      if Stray(body[0]) {
        BodyForgotten(next, body[1..], paths);
        assert rows + [] == rows;
      } else {
        BodyRun(next, body[1..], paths);
        if ParseRow(body[0]).Some? {
          var row := ParseRow(body[0]).value;
          assert (rows + [row]) + RowsUpToStray(body[1..]) == rows + ([row] + RowsUpToStray(body[1..]));
        } else {
          assert [] + RowsUpToStray(body[1..]) == RowsUpToStray(body[1..]);
        }
      }
    }
  }

  lemma BlockRun(r: Reader, b: Block, paths: seq<string>)
    requires WellFormed(b) && Absolute(paths) && b.path in paths && b.path !in r.rows
    ensures Run(r, Lines(b), paths).rows == r.rows[b.path := RowsUpToStray(b.body)]
  {
    HeaderStep(r, b, paths);
    BodyHolds(b);
    hide *;
    var next := Reader(b.path, r.rows[b.path := []]);
    RunLines(r, b, paths);
    BodyRun(next, b.body, paths);
    RowsPut(r.rows, b.path, RowsUpToStray(b.body));
  }

  lemma RowsPut(rows: map<string, seq<Row>>, path: string, own: seq<Row>)
    ensures var next := rows[path := []]; next[path := next[path] + own] == rows[path := own]
  {
    assert [] + own == own;
  }

  lemma HeaderStep(r: Reader, b: Block, paths: seq<string>)
    requires WellFormed(b) && Absolute(paths) && b.path in paths && b.path !in r.rows
    ensures b.path != "" && Step(r, Header(b), paths) == Reader(b.path, r.rows[b.path := []])
  {
    HeaderIsNoRow(b);
    HeaderIsOwn(b, paths);
    hide ParseRow;
    hide TrimSpace;
    hide Longest;
    hide Header;
  }

  lemma BodyHolds(b: Block)
    requires WellFormed(b)
    ensures BodyLines(b.body)
  {
    hide ParseRow;
  }

  lemma RunLines(r: Reader, b: Block, paths: seq<string>)
    ensures Run(r, Lines(b), paths) == Run(Step(r, Header(b), paths), b.body, paths)
  {
    hide Step;
    hide Header;
    assert Lines(b)[1..] == b.body;
  }

  lemma RowStep(r: Reader, line: string, paths: seq<string>)
    requires ParseRow(line).Some?
    ensures Step(r, line, paths) ==
            if r.current == "" then r
            else r.(rows := r.rows[r.current := (if r.current in r.rows then r.rows[r.current] else []) + [ParseRow(line).value]])
  {
    hide ParseRow;
  }

  lemma {:induction false} RowsRun(r: Reader, lines: seq<string>, paths: seq<string>)
    requires (forall l :: l in lines ==> ParseRow(l).Some?) && (r.current != "" ==> r.current in r.rows)
    ensures Run(r, lines, paths) ==
            if r.current == "" then r else r.(rows := r.rows[r.current := r.rows[r.current] + RowsIn(lines)])
    decreases |lines|
  {
    hide ParseRow;
    hide Step;
    if lines == [] {
      if r.current != "" {
        assert r.rows[r.current] + [] == r.rows[r.current];
        assert r.rows[r.current := r.rows[r.current]] == r.rows;
      }
    } else {
      assert lines[0] in lines;
      RowStep(r, lines[0], paths);
      RowsRun(Step(r, lines[0], paths), lines[1..], paths);
      if r.current != "" {
        var row := ParseRow(lines[0]).value;
        assert r.rows[r.current] + [row] + RowsIn(lines[1..]) == r.rows[r.current] + ([row] + RowsIn(lines[1..]));
      }
    }
  }

  /** A line that is no row and not blank, and may hold a slash, before rows: if it ends in a path of the listing it is
      taken for that path's header and the rows go there, and otherwise they are lost. */
  lemma SlashLine(r: Reader, line: string, rows: seq<string>, paths: seq<string>)
    requires Stray(line) && (forall l :: l in rows ==> ParseRow(l).Some?)
    ensures Run(r, [line] + rows, paths).rows ==
            var q := Longest(line, paths);
            if q == "" then r.rows else r.rows[q := (if q in r.rows then r.rows[q] else []) + RowsIn(rows)]
  {
    hide ParseRow;
    hide TrimSpace;
    hide Longest;
    var next := Step(r, line, paths);
    assert ([line] + rows)[1..] == rows;
    assert Run(r, [line] + rows, paths) == Run(next, rows, paths);
    var q := Longest(line, paths);
    assert next.current == q;
    hide Step;
    RowsRun(next, rows, paths);
  }

  predicate Distinct(blocks: seq<Block>) {
    forall i, j :: 0 <= i < j < |blocks| ==> blocks[i].path != blocks[j].path
  }

  /** After a whole listing, in any order of its blocks, each path has its own rows and no other path has any. */
  lemma {:induction false} ListingRun(r: Reader, blocks: seq<Block>, paths: seq<string>)
    requires forall b :: b in blocks ==> WellFormed(b) && b.path in paths && b.path !in r.rows
    requires Distinct(blocks) && Absolute(paths)
    ensures forall p :: p in Run(r, AllLines(blocks), paths).rows <==> p in r.rows || exists b :: b in blocks && b.path == p
    ensures forall p :: p in r.rows ==> Run(r, AllLines(blocks), paths).rows[p] == r.rows[p]
    ensures forall b :: b in blocks ==> Run(r, AllLines(blocks), paths).rows[b.path] == RowsUpToStray(b.body)
    decreases |blocks|
  {
    if blocks != [] {
      var b, rest := blocks[0], blocks[1..];
      assert AllLines(blocks) == Lines(b) + AllLines(rest);
      assert forall c :: c in blocks <==> c == b || c in rest;
      OthersApart(blocks);
      hide *;
      RunAppend(r, Lines(b), AllLines(rest), paths);
      BlockRun(r, b, paths);
      ListingRun(Run(r, Lines(b), paths), rest, paths);
    } else {
      hide ParseRow;
    }
  }

  lemma OthersApart(blocks: seq<Block>)
    requires Distinct(blocks) && blocks != []
    ensures Distinct(blocks[1..]) && forall c :: c in blocks[1..] ==> c.path != blocks[0].path
  {
  }

  method ParseDarwinACLBatchOutput(out: string, paths: seq<string>) returns (rows: map<string, seq<Row>>)
    ensures rows == Run(Reader("", map[]), Split(out, '\n'), paths).rows
  {
    rows := map[];
    var current := "";
    var lines := Split(out, '\n');
    assert lines[0..] == lines;
    hide ParseRow;
    hide TrimSpace;
    hide Split;
    hide Longest;
    for i := 0 to |lines|
      invariant Run(Reader("", map[]), lines, paths) == Run(Reader(current, rows), lines[i..], paths)
    {
      var line := lines[i];
      assert lines[i..][1..] == lines[i + 1..] && lines[i..][0] == line;
      var row := ParseRow(line);
      if row.Some? {
        if current != "" {
          rows := rows[current := (if current in rows then rows[current] else []) + [row.value]];
        }
        continue;
      }
      var path := DarwinACLHeaderPath(line, paths);
      if path.Some? {
        current := path.value;
        if current !in rows {
          rows := rows[current := []];
        }
        continue;
      }
      if TrimSpace(line) != "" {
        current := "";
      }
    }
  }
}
