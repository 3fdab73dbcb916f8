/**
 The reader of `~/.ssh/config` for one host: `Include` is followed with a set of
 visited files, and the first value given for a keyword wins.

 Two specifications are given. `ReadPath` is the reader with its visited set.
 `Inline` writes out, as one list of events, what every active `Include` would
 contribute if files were read again each time, cutting only an Include of a
 file that is still being read. The main result is that folding those events
 gives the reader's resolution and the reader's error, for every Include graph.
 */
module SSHConfig {
  import opened Wrappers
  import opened Text

  type Path = string

  datatype Field = HostName | User | Port | ProxyJump | HostKeyAlias | Unsupported

  /** A config line after comments are stripped and it is split into keyword and values. */
  datatype Line =
    | HostLine(patterns: seq<string>)
    | MatchLine
    | IncludeLine(patterns: seq<string>)
    | ValueLine(field: Field, value: string)   // the first value of a keyword the reader knows
    | OtherLine

  datatype File = File(lines: seq<Line>, scanOk: bool)

  datatype Error =
    | CanonError(path: string)
    | OpenError(file: Path)
    | ScanError(scanned: Path)
    | GlobError(pattern: string)
    | InvalidPort(port: string)

  /** The file system and the library's pattern matching, as the reader sees them. */
  datatype Env = Env(
    files: map<Path, File>,
    canon: string -> Option<Path>,               // canonicalizePath
    glob: (string, Path) -> Option<seq<string>>, // sorted matches of an Include pattern, relative to the including file
    matches: (string, string) -> Option<bool>)   // path.Match(pattern, host); None is a malformed pattern

  datatype Resolution = Resolution(
    hostName: string, user: string, port: string, proxyJump: string, hostKeyAlias: string, unsupported: string)
  {
    function Get(f: Field): string {
      match f
      case HostName => hostName
      case User => user
      case Port => port
      case ProxyJump => proxyJump
      case HostKeyAlias => hostKeyAlias
      case Unsupported => unsupported
    }

    function Set(f: Field, v: string): Resolution {
      match f
      case HostName => this.(hostName := v)
      case User => this.(user := v)
      case Port => this.(port := v)
      case ProxyJump => this.(proxyJump := v)
      case HostKeyAlias => this.(hostKeyAlias := v)
      case Unsupported => this.(unsupported := v)
    }
  }

  const NOTHING := Resolution("", "", "", "", "", "")

  predicate ValidPort(v: string) {
    v != "" && forall i :: 0 <= i < |v| ==> '0' <= v[i] <= '9'
  }

  // ----- host patterns

  datatype Verdict = Silent | Admits | Excludes

  function PatternVerdict(env: Env, host: string, raw: string): Verdict {
    var pattern := ToLower(TrimSpace(raw));
    if pattern == "" then Silent
    else
      var negated := pattern[0] == '!';
      var glob := if negated then pattern[1..] else pattern;
      match env.matches(glob, ToLower(TrimSpace(host)))
      case None => Silent
      case Some(ok) => if !ok then Silent else if negated then Excludes else Admits
  }

  /** Some pattern admits the host and none excludes it, wherever in the list it stands. */
  ghost predicate HostMatches(env: Env, host: string, patterns: seq<string>) {
    && (exists i :: 0 <= i < |patterns| && PatternVerdict(env, host, patterns[i]) == Admits)
    && (forall i :: 0 <= i < |patterns| ==> PatternVerdict(env, host, patterns[i]) != Excludes)
  }

  /** On the patterns as written: one that does not begin with '!' matches, and none that does has a matching rest. A
      blank or malformed pattern says nothing, and case and outer space do not count. */
  lemma HostMatchesIff(env: Env, host: string, patterns: seq<string>)
    ensures HostMatches(env, host, patterns) <==>
            && (exists i :: 0 <= i < |patterns| && var p := ToLower(TrimSpace(patterns[i]));
                  p != "" && p[0] != '!' && env.matches(p, ToLower(TrimSpace(host))) == Some(true))
            && (forall i :: 0 <= i < |patterns| ==> var p := ToLower(TrimSpace(patterns[i]));
                  p != "" && p[0] == '!' ==> env.matches(p[1..], ToLower(TrimSpace(host))) != Some(true))
  {
    hide ToLower;
    hide TrimSpace;
    forall i | 0 <= i < |patterns|
      ensures var p := ToLower(TrimSpace(patterns[i]));
              && (PatternVerdict(env, host, patterns[i]) == Admits
                  <==> p != "" && p[0] != '!' && env.matches(p, ToLower(TrimSpace(host))) == Some(true))
              && (PatternVerdict(env, host, patterns[i]) == Excludes
                  <==> p != "" && p[0] == '!' && env.matches(p[1..], ToLower(TrimSpace(host))) == Some(true))
    {
    }
    hide PatternVerdict;
  }

  method SSHConfigHostMatches(env: Env, host: string, patterns: seq<string>) returns (matched: bool)
    ensures matched <==> HostMatches(env, host, patterns)
  {
    hide ToLower;
    hide TrimSpace;
    matched := false;
    for k := 0 to |patterns|
      invariant matched <==> exists i :: 0 <= i < k && PatternVerdict(env, host, patterns[i]) == Admits
      invariant forall i :: 0 <= i < k ==> PatternVerdict(env, host, patterns[i]) != Excludes
    {
      var pattern := ToLower(TrimSpace(patterns[k]));
      if pattern == "" {
        continue;
      }
      var negated := pattern[0] == '!';
      if negated {
        pattern := pattern[1..];
      }
      var ok := env.matches(pattern, ToLower(TrimSpace(host)));
      if ok == None || !ok.value {
        continue;
      }
      if negated {
        return false;
      }
      matched := true;
    }
  }

  // ----- what one file asks for

  /** What the active lines of a file ask the reader to do, in order. */
  datatype Item = Value(field: Field, v: string) | Visit(path: string) | Fail(e: Error)

  function PathItems(paths: seq<string>): (items: seq<Item>)
    ensures |items| == |paths|
  {
    seq(|paths|, i requires 0 <= i < |paths| => Visit(paths[i]))
  }

  function PatternItems(env: Env, file: Path, patterns: seq<string>): seq<Item> {
    if patterns == [] then []
    else
      var rest := PatternItems(env, file, patterns[1..]);
      if TrimSpace(patterns[0]) == "" then rest
      else
        match env.glob(TrimSpace(patterns[0]), file)
        case None => [Fail(GlobError(patterns[0]))] + rest
        case Some(paths) => PathItems(paths) + rest
  }

  ghost function NextActive(env: Env, host: string, line: Line, active: bool): bool {
    match line
    case HostLine(patterns) => HostMatches(env, host, patterns)
    case MatchLine => false
    case _ => active
  }

  function LineItems(env: Env, file: Path, line: Line, active: bool): seq<Item> {
    if !active then []
    else
      match line
      case IncludeLine(patterns) => PatternItems(env, file, patterns)
      case ValueLine(f, v) => [Value(f, if f == Unsupported then "proxycommand" else v)]
      case _ => []
  }

  ghost function LinesItems(env: Env, host: string, file: Path, lines: seq<Line>, active: bool): seq<Item> {
    if lines == [] then []
    else
      LineItems(env, file, lines[0], active)
      + LinesItems(env, host, file, lines[1..], NextActive(env, host, lines[0], active))
  }

  function ScanItems(file: Path, scanOk: bool): seq<Item> {
    if scanOk then [] else [Fail(ScanError(file))]
  }

  ghost function FileItems(env: Env, host: string, file: Path): seq<Item>
    requires file in env.files
  {
    LinesItems(env, host, file, env.files[file].lines, true) + ScanItems(file, env.files[file].scanOk)
  }

  /** First value wins; a port is checked only when it would be stored. */
  function Put(r: Resolution, f: Field, v: string): Result<Resolution, Error> {
    if r.Get(f) != "" then Ok(r)
    else if f == Port && !ValidPort(v) then Err(InvalidPort(v))
    else Ok(r.Set(f, v))
  }

  // ----- the reader

  datatype Outcome = Done(r: Resolution, visited: set<Path>) | Failed(e: Error)

  ghost function ReadPath(env: Env, host: string, p: string, r: Resolution, visited: set<Path>): (o: Outcome)
    ensures o.Done? ==> visited <= o.visited
    decreases env.files.Keys - visited, 0
  {
    match env.canon(p)
    case None => Failed(CanonError(p))
    case Some(file) =>
      if file in visited then Done(r, visited)
      else if file !in env.files then Failed(OpenError(file))
      else
        assert env.files.Keys - (visited + {file}) < env.files.Keys - visited;
        ReadItems(env, host, FileItems(env, host, file), r, visited + {file})
  }

  ghost function ReadItems(env: Env, host: string, items: seq<Item>, r: Resolution, visited: set<Path>): (o: Outcome)
    ensures o.Done? ==> visited <= o.visited
    decreases env.files.Keys - visited, 1 + |items|
  {
    if items == [] then Done(r, visited)
    else
      match items[0]
      case Fail(e) => Failed(e)
      case Value(f, v) =>
        (match Put(r, f, v)
         case Err(e) => Failed(e)
         case Ok(r') => ReadItems(env, host, items[1..], r', visited))
      case Visit(p) =>
        match ReadPath(env, host, p, r, visited)
        case Failed(e) => Failed(e)
        case Done(r', visited') =>
          assert env.files.Keys - visited' <= env.files.Keys - visited;
          ReadItems(env, host, items[1..], r', visited')
  }

  /** `resolveSSHConfigAlias` on an existing config file. */
  ghost function ResolveAlias(env: Env, host: string, config: string): Result<Resolution, Error> {
    match ReadPath(env, host, config, NOTHING, {})
    case Failed(e) => Err(e)
    case Done(r, _) => Ok(r)
  }

  // ----- the reader's equations

  lemma ReadPathIs(env: Env, host: string, p: string, r: Resolution, visited: set<Path>)
    ensures ReadPath(env, host, p, r, visited) ==
            match env.canon(p)
            case None => Failed(CanonError(p))
            case Some(file) =>
              if file in visited then Done(r, visited)
              else if file !in env.files then Failed(OpenError(file))
              else ReadItems(env, host, FileItems(env, host, file), r, visited + {file})
  {
  }

  lemma FileItemsAre(env: Env, host: string, file: Path)
    requires file in env.files
    ensures FileItems(env, host, file) == LinesItems(env, host, file, env.files[file].lines, true) + ScanItems(file, env.files[file].scanOk)
  {
  }

  lemma LinesItemsAt(env: Env, host: string, file: Path, lines: seq<Line>, i: nat, active: bool, scan: seq<Item>)
    requires i < |lines|
    ensures LinesItems(env, host, file, lines[i..], active) + scan
            == LineItems(env, file, lines[i], active)
               + (LinesItems(env, host, file, lines[i + 1..], NextActive(env, host, lines[i], active)) + scan)
  {
    hide LineItems;
    hide NextActive;
    assert lines[i..][1..] == lines[i + 1..];
  }

  lemma LineItemsIs(env: Env, host: string, file: Path, line: Line, active: bool)
    ensures NextActive(env, host, line, active) ==
            if line.HostLine? then HostMatches(env, host, line.patterns) else if line.MatchLine? then false else active
    ensures LineItems(env, file, line, active) ==
            if !active then []
            else if line.IncludeLine? then PatternItems(env, file, line.patterns)
            else if line.ValueLine? then [Value(line.field, if line.field == Unsupported then "proxycommand" else line.value)]
            else []
  {
    hide HostMatches;
    hide PatternItems;
  }

  lemma ValueRead(env: Env, host: string, f: Field, v: string, later: seq<Item>, r: Resolution, visited: set<Path>)
    ensures var text := if f == Unsupported then "proxycommand" else v;
            ReadItems(env, host, [Value(f, text)] + later, r, visited) ==
            if r.Get(f) != "" then ReadItems(env, host, later, r, visited)
            else if f == Port && !ValidPort(v) then Failed(InvalidPort(v))
            else ReadItems(env, host, later, r.Set(f, text), visited)
  {
    hide ValidPort;
    var item := Value(f, if f == Unsupported then "proxycommand" else v);
    assert ([item] + later)[1..] == later;
  }

  lemma PatternAt(env: Env, file: Path, patterns: seq<string>, j: nat, later: seq<Item>)
    requires j < |patterns|
    ensures var next := PatternItems(env, file, patterns[j + 1..]) + later;
            PatternItems(env, file, patterns[j..]) + later ==
            if TrimSpace(patterns[j]) == "" then next
            else
              match env.glob(TrimSpace(patterns[j]), file)
              case None => [Fail(GlobError(patterns[j]))] + next
              case Some(paths) => PathItems(paths) + next
  {
    hide TrimSpace;
    hide PathItems;
    assert patterns[j..][1..] == patterns[j + 1..];
  }

  lemma FailRead(env: Env, host: string, e: Error, later: seq<Item>, r: Resolution, visited: set<Path>)
    ensures ReadItems(env, host, [Fail(e)] + later, r, visited) == Failed(e)
  {
  }

  lemma VisitRead(env: Env, host: string, paths: seq<string>, k: nat, later: seq<Item>, r: Resolution, visited: set<Path>)
    requires k < |paths|
    ensures ReadItems(env, host, PathItems(paths[k..]) + later, r, visited) ==
            match ReadPath(env, host, paths[k], r, visited)
            case Failed(e) => Failed(e)
            case Done(r', visited') => ReadItems(env, host, PathItems(paths[k + 1..]) + later, r', visited')
  {
    hide ReadPath;
    var rest := PathItems(paths[k + 1..]) + later;
    assert PathItems(paths[k..]) + later == [Visit(paths[k])] + rest;
    assert ([Visit(paths[k])] + rest)[1..] == rest;
  }

  lemma NoPaths(paths: seq<string>, later: seq<Item>)
    ensures PathItems(paths[|paths|..]) + later == later
  {
  }

  lemma NoPatterns(env: Env, file: Path, patterns: seq<string>, later: seq<Item>)
    ensures PatternItems(env, file, patterns[|patterns|..]) + later == later
  {
  }

  lemma NoLinesLeft(env: Env, host: string, file: Path, active: bool, scanOk: bool, r: Resolution, visited: set<Path>)
    ensures ReadItems(env, host, LinesItems(env, host, file, [], active) + ScanItems(file, scanOk), r, visited) ==
            if scanOk then Done(r, visited) else Failed(ScanError(file))
  {
    assert [] + ScanItems(file, scanOk) == ScanItems(file, scanOk);
  }

  /** The reader in the source's form: it fills the resolution and the visited set while it scans. */
  class Reader {
    const env: Env
    const host: string
    var resolution: Resolution
    var visited: set<Path>

    constructor (env: Env, host: string)
      ensures this.env == env && this.host == host
      ensures resolution == NOTHING && visited == {}
    {
      this.env, this.host := env, host;
      resolution, visited := NOTHING, {};
    }

    /** The outcome the reader would report if it stopped here without an error. */
    ghost function Now(): Outcome
      reads this
    {
      Done(resolution, visited)
    }

    method ApplySSHConfigFile(path: string) returns (failure: Option<Error>)
      modifies this
      ensures (match failure case Some(e) => Failed(e) case None => Now())
           == ReadPath(env, host, path, old(resolution), old(visited))
      ensures old(visited) <= visited
      decreases env.files.Keys - visited, 0
    {
      hide HostMatches;
      hide PatternItems;
      hide ValidPort;
      hide ReadPath;
      hide ReadItems;
      hide LinesItems;
      hide LineItems;
      hide FileItems;
      hide ScanItems;
      hide NextActive;
      ReadPathIs(env, host, path, resolution, visited);
      var canonical := env.canon(path);
      if canonical == None {
        return Some(CanonError(path));
      }
      var file := canonical.value;
      if file in visited {
        return None;
      }
      visited := visited + {file};
      if file !in env.files {
        return Some(OpenError(file));
      }
      ghost var goal := ReadItems(env, host, FileItems(env, host, file), resolution, visited);
      var lines := env.files[file].lines;
      FileItemsAre(env, host, file);
      assert lines[0..] == lines;
      ghost var scan := ScanItems(file, env.files[file].scanOk);
      var active := true;
      for i := 0 to |lines|
        invariant old(visited) + {file} <= visited
        invariant goal == ReadItems(env, host, LinesItems(env, host, file, lines[i..], active) + scan, resolution, visited)
      {
        var line := lines[i];
        ghost var later := LinesItems(env, host, file, lines[i + 1..], NextActive(env, host, line, active)) + scan;
        LinesItemsAt(env, host, file, lines, i, active, scan);
        LineItemsIs(env, host, file, line, active);
        assert [] + later == later;
        match line {
          case HostLine(patterns) =>
            active := SSHConfigHostMatches(env, host, patterns);
          case MatchLine =>
            active := false;
          case IncludeLine(patterns) =>
            if !active {
              continue;
            }
            assert env.files.Keys - visited < old(env.files.Keys - visited);
            failure := ApplyIncludes(file, patterns, later);
            if failure.Some? {
              return;
            }
          case ValueLine(f, v) =>
            if !active {
              continue;
            }
            ValueRead(env, host, f, v, later, resolution, visited);
            if resolution.Get(f) == "" {
              if f == Port && !ValidPort(v) {
                return Some(InvalidPort(v));
              }
              resolution := resolution.Set(f, if f == Unsupported then "proxycommand" else v);
            }
          case OtherLine =>
        }
      }
      assert lines[|lines|..] == [];
      NoLinesLeft(env, host, file, active, env.files[file].scanOk, resolution, visited);
      if !env.files[file].scanOk {
        return Some(ScanError(file));
      }
      return None;
    }

    /** The loops over an Include line's patterns and over each pattern's files; `later` is what the caller does next. */
    method ApplyIncludes(file: Path, patterns: seq<string>, ghost later: seq<Item>) returns (failure: Option<Error>)
      modifies this
      ensures old(visited) <= visited
      ensures ReadItems(env, host, PatternItems(env, file, patterns) + later, old(resolution), old(visited))
           == match failure case Some(e) => Failed(e) case None => ReadItems(env, host, later, resolution, visited)
      decreases env.files.Keys - visited, 1
    {
      hide TrimSpace;
      hide ReadPath;
      hide ReadItems;
      hide PatternItems;
      hide PathItems;
      ghost var goal := ReadItems(env, host, PatternItems(env, file, patterns) + later, resolution, visited);
      assert patterns[0..] == patterns;
      for j := 0 to |patterns|
        invariant old(visited) <= visited
        invariant goal == ReadItems(env, host, PatternItems(env, file, patterns[j..]) + later, resolution, visited)
      {
        ghost var next := PatternItems(env, file, patterns[j + 1..]) + later;
        PatternAt(env, file, patterns, j, later);
        var pattern := TrimSpace(patterns[j]);
        if pattern == "" {
          continue;
        }
        var found := env.glob(pattern, file);
        if found == None {
          FailRead(env, host, GlobError(patterns[j]), next, resolution, visited);
          return Some(GlobError(patterns[j]));
        }
        var paths := found.value;
        assert paths[0..] == paths;
        for k := 0 to |paths|
          invariant old(visited) <= visited
          invariant goal == ReadItems(env, host, PathItems(paths[k..]) + next, resolution, visited)
        {
          VisitRead(env, host, paths, k, next, resolution, visited);
          assert env.files.Keys - visited <= old(env.files.Keys - visited);
          failure := ApplySSHConfigFile(paths[k]);
          if failure.Some? {
            return;
          }
        }
        NoPaths(paths, next);
      }
      NoPatterns(env, file, patterns, later);
      return None;
    }
  }
}
