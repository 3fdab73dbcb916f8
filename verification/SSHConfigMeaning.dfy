/**
 What a read of `~/.ssh/config` means in terms of the lines themselves: which
 lines are in force, what they give, when a read succeeds, and what an error
 says about the files.
 */
module SSHConfigMeaning {
  import opened Wrappers
  import opened Text
  import opened SSHConfig
  import opened SSHConfigInlining

  // ----- which lines are in force

  predicate OpensBlock(line: Line) {
    line.HostLine? || line.MatchLine?
  }

  /** After these lines of a file a line counts: no block has been opened yet, or the last one is a Host block that
      admits the host. A Match block admits nobody. */
  ghost predicate InForce(env: Env, host: string, lines: seq<Line>) {
    || (forall j :: 0 <= j < |lines| ==> !OpensBlock(lines[j]))
    || (exists j :: 0 <= j < |lines| && lines[j].HostLine? && HostMatches(env, host, lines[j].patterns)
                    && forall k :: j < k < |lines| ==> !OpensBlock(lines[k]))
  }

  ghost function ActiveAfter(env: Env, host: string, lines: seq<Line>, active: bool): bool {
    if lines == [] then active else NextActive(env, host, lines[|lines| - 1], ActiveAfter(env, host, lines[..|lines| - 1], active))
  }

  lemma {:induction false} ActiveIsInForce(env: Env, host: string, lines: seq<Line>)
    ensures ActiveAfter(env, host, lines, true) <==> InForce(env, host, lines)
  {
    hide HostMatches;
    if lines != [] {
      var n := |lines| - 1;
      ActiveIsInForce(env, host, lines[..n]);
      if !OpensBlock(lines[n]) {
        assert InForce(env, host, lines) <==> InForce(env, host, lines[..n]);
      }
    }
  }

  lemma {:induction false} LinesSplit(env: Env, host: string, file: Path, a: seq<Line>, b: seq<Line>, active: bool)
    ensures LinesItems(env, host, file, a + b, active)
         == LinesItems(env, host, file, a, active) + LinesItems(env, host, file, b, ActiveAfter(env, host, a, active))
  {
    hide LineItems;
    hide NextActive;
    if a == [] {
      assert a + b == b;
    } else {
      assert (a + b)[1..] == a[1..] + b;
      LinesSplit(env, host, file, a[1..], b, NextActive(env, host, a[0], active));
      ActiveFirst(env, host, a, active);
    }
  }

  lemma {:induction false} ActiveFirst(env: Env, host: string, a: seq<Line>, active: bool)
    requires a != []
    ensures ActiveAfter(env, host, a, active) == ActiveAfter(env, host, a[1..], NextActive(env, host, a[0], active))
  {
    hide NextActive;
    if |a| > 1 {
      ActiveFirst(env, host, a[..|a| - 1], active);
      assert a[..|a| - 1][1..] == a[1..][..|a| - 2];
    } else {
      assert a[..0] == [] && a[1..] == [];
    }
  }

  /** A line of a file asks for something exactly if it is in force: a value line for its value, an Include line for the
      files its patterns name; a proxycommand is only noted. What comes before and after it is read in order. */
  lemma LineGives(env: Env, host: string, file: Path, before: seq<Line>, line: Line, after: seq<Line>)
    ensures var here := if !InForce(env, host, before) then []
                        else match line
                          case ValueLine(f, v) => [Value(f, if f == Unsupported then "proxycommand" else v)]
                          case IncludeLine(patterns) => PatternItems(env, file, patterns)
                          case _ => [];
            LinesItems(env, host, file, before + [line] + after, true) ==
            LinesItems(env, host, file, before, true) + here + LinesItems(env, host, file, after, InForce(env, host, before + [line]))
  {
    ActiveIsInForce(env, host, before);
    ActiveIsInForce(env, host, before + [line]);
    hide InForce;
    hide ActiveAfter;
    hide PatternItems;
    LinesSplit(env, host, file, before + [line], after, true);
    LinesSplit(env, host, file, before, [line], true);
    LineAlone(env, host, file, line, InForce(env, host, before));
  }

  lemma LineAlone(env: Env, host: string, file: Path, line: Line, active: bool)
    ensures LinesItems(env, host, file, [line], active)
         == if !active then []
            else match line
              case ValueLine(f, v) => [Value(f, if f == Unsupported then "proxycommand" else v)]
              case IncludeLine(patterns) => PatternItems(env, file, patterns)
              case _ => []
  {
    hide PatternItems;
    assert LinesItems(env, host, file, [line], active) == LineItems(env, file, line, active) + [];
  }

  /** An Include pattern names the files it matches, in the order of the matches; a blank one names none. */
  lemma IncludeNames(env: Env, file: Path, pattern: string, rest: seq<string>)
    ensures Blank(pattern) ==> PatternItems(env, file, [pattern] + rest) == PatternItems(env, file, rest)
    ensures !Blank(pattern) && env.glob(TrimSpace(pattern), file).None?
            ==> PatternItems(env, file, [pattern] + rest) == [Fail(GlobError(pattern))] + PatternItems(env, file, rest)
    ensures !Blank(pattern) && env.glob(TrimSpace(pattern), file).Some?
            ==> var paths := env.glob(TrimSpace(pattern), file).value;
                PatternItems(env, file, [pattern] + rest) ==
                seq(|paths|, i requires 0 <= i < |paths| => Visit(paths[i])) + PatternItems(env, file, rest)
  {
    hide TrimSpace;
    assert ([pattern] + rest)[1..] == rest;
  }

  // ----- the resolution, field by field

  /** Each field of the resolution is the first value some line in force gives it, Includes written out. */
  lemma FieldsAreFirstValues(env: Env, host: string, config: string)
    requires ResolveAlias(env, host, config).Ok?
    ensures var r, events := ResolveAlias(env, host, config).value, InlinePath(env, host, config, {});
            && r.hostName == FirstValue(events, HostName)
            && r.user == FirstValue(events, User)
            && r.port == FirstValue(events, Port)
            && r.proxyJump == FirstValue(events, Field.ProxyJump)
            && r.hostKeyAlias == FirstValue(events, HostKeyAlias)
            && r.unsupported == FirstValue(events, Unsupported)
  {
    ReaderIsInlining(env, host, config);
    hide ResolveAlias;
    hide InlinePath;
    hide FirstValue;
    hide Fold;
    var events := InlinePath(env, host, config, {});
    FirstValueWins(events, NOTHING, HostName);
    FirstValueWins(events, NOTHING, User);
    FirstValueWins(events, NOTHING, Port);
    FirstValueWins(events, NOTHING, Field.ProxyJump);
    FirstValueWins(events, NOTHING, HostKeyAlias);
    FirstValueWins(events, NOTHING, Unsupported);
  }

  /** A port the reader gives is a number. */
  lemma {:induction false} PortsAreNumbers(events: seq<Event>, r: Resolution)
    requires r.port == "" || forall i :: 0 <= i < |r.port| ==> '0' <= r.port[i] <= '9'
    requires Fold(events, r).Ok?
    ensures var port := Fold(events, r).value.port; forall i :: 0 <= i < |port| ==> '0' <= port[i] <= '9'
  {
    if events != [] {
      PortsAreNumbers(events[1..], Put(r, events[0].field, events[0].v).value);
    }
  }

  // ----- when a read succeeds

  /** Everything a file in `read` asks for in a line in force is there, and is itself in `read`. */
  ghost predicate Complete(env: Env, host: string, file: Path, read: set<Path>) {
    && file in env.files && env.files[file].scanOk
    && forall k :: 0 <= k < |env.files[file].lines| && env.files[file].lines[k].IncludeLine?
                   && InForce(env, host, env.files[file].lines[..k]) ==>
         PatternsComplete(env, file, env.files[file].lines[k].patterns, read)
  }

  ghost predicate PatternsComplete(env: Env, file: Path, patterns: seq<string>, read: set<Path>) {
    forall j :: 0 <= j < |patterns| && !Blank(patterns[j]) ==>
      && env.glob(TrimSpace(patterns[j]), file).Some?
      && forall q :: q in env.glob(TrimSpace(patterns[j]), file).value ==> env.canon(q).Some? && env.canon(q).value in read
  }

  /** A successful read has found and scanned the config file and every file included by a line in force. */
  lemma SuccessMeansComplete(env: Env, host: string, config: string) returns (read: set<Path>)
    requires ResolveAlias(env, host, config).Ok?
    ensures env.canon(config).Some? && env.canon(config).value in read
    ensures forall file :: file in read ==> Complete(env, host, file, read)
  {
    PathAgrees(env, host, config, NOTHING, {}, {});
    hide InlinePath;
    hide Fold;
    hide ReadPath;
    var o := ReadPath(env, host, config, NOTHING, {});
    read := o.visited;
    forall file | file in read
      ensures Complete(env, host, file, read)
    {
      assert file in o.visited - {};
      SettledIsComplete(env, host, file, o.r, read);
    }
  }

  lemma SettledIsComplete(env: Env, host: string, file: Path, r: Resolution, read: set<Path>)
    requires file in env.files && ItemsSettled(env, FileItems(env, host, file), r, read)
    ensures Complete(env, host, file, read)
  {
    hide InForce;
    hide PatternsComplete;
    hide ItemSettled;
    hide LinesItems;
    var lines := env.files[file].lines;
    var items := LinesItems(env, host, file, lines, true);
    if !env.files[file].scanOk {
      assert FileItems(env, host, file)[|items|] == Fail(ScanError(file));
      NoFailSettled(env, ScanError(file), r, read);
    }
    forall k | 0 <= k < |lines| && lines[k].IncludeLine? && InForce(env, host, lines[..k])
      ensures PatternsComplete(env, file, lines[k].patterns, read)
    {
      var before, here := LinesItems(env, host, file, lines[..k], true), PatternItems(env, file, lines[k].patterns);
      LineGives(env, host, file, lines[..k], lines[k], lines[k + 1..]);
      assert lines == lines[..k] + [lines[k]] + lines[k + 1..];
      forall i | 0 <= i < |here|
        ensures ItemSettled(env, here[i], r, read)
      {
        assert FileItems(env, host, file)[|before| + i] == here[i];
      }
      PatternsSettled(env, file, lines[k].patterns, r, read);
    }
  }

  lemma NoFailSettled(env: Env, e: SSHConfig.Error, r: Resolution, read: set<Path>)
    ensures !ItemSettled(env, Fail(e), r, read)
  {
  }

  lemma {:induction false} PatternsSettled(env: Env, file: Path, patterns: seq<string>, r: Resolution, read: set<Path>)
    requires ItemsSettled(env, PatternItems(env, file, patterns), r, read)
    ensures PatternsComplete(env, file, patterns, read)
  {
    if patterns != [] {
      hide *;
      var front := FrontItems(env, file, patterns[0], patterns[1..]);
      var rest := PatternItems(env, file, patterns[1..]);
      assert patterns == [patterns[0]] + patterns[1..];
      SettledParts(env, front, rest, r, read);
      PatternsSettled(env, file, patterns[1..], r, read);
      if !Blank(patterns[0]) {
        FrontSettled(env, file, patterns[0], front, r, read);
      }
      CompleteFirst(env, file, patterns, read);
    }
  }

  lemma FrontItems(env: Env, file: Path, pattern: string, rest: seq<string>) returns (front: seq<Item>)
    ensures PatternItems(env, file, [pattern] + rest) == front + PatternItems(env, file, rest)
    ensures !Blank(pattern) ==> front == match env.glob(TrimSpace(pattern), file)
                                         case None => [Fail(GlobError(pattern))]
                                         case Some(paths) => seq(|paths|, i requires 0 <= i < |paths| => Visit(paths[i]))
  {
    IncludeNames(env, file, pattern, rest);
    hide PatternItems;
    hide TrimSpace;
    if Blank(pattern) {
      return [];
    }
    match env.glob(TrimSpace(pattern), file)
    case None => return [Fail(GlobError(pattern))];
    case Some(paths) => return seq(|paths|, i requires 0 <= i < |paths| => Visit(paths[i]));
  }

  lemma SettledParts(env: Env, front: seq<Item>, rest: seq<Item>, r: Resolution, read: set<Path>)
    requires ItemsSettled(env, front + rest, r, read)
    ensures ItemsSettled(env, front, r, read) && ItemsSettled(env, rest, r, read)
  {
    hide ItemSettled;
    forall i | 0 <= i < |front|
      ensures ItemSettled(env, front[i], r, read)
    {
      assert front[i] == (front + rest)[i];
    }
    forall i | 0 <= i < |rest|
      ensures ItemSettled(env, rest[i], r, read)
    {
      assert rest[i] == (front + rest)[|front| + i];
    }
  }

  ghost predicate PatternComplete(env: Env, file: Path, pattern: string, read: set<Path>) {
    && env.glob(TrimSpace(pattern), file).Some?
    && forall q :: q in env.glob(TrimSpace(pattern), file).value ==> env.canon(q).Some? && env.canon(q).value in read
  }

  lemma FrontSettled(env: Env, file: Path, pattern: string, front: seq<Item>, r: Resolution, read: set<Path>)
    requires ItemsSettled(env, front, r, read)
    requires front == match env.glob(TrimSpace(pattern), file)
                      case None => [Fail(GlobError(pattern))]
                      case Some(paths) => seq(|paths|, i requires 0 <= i < |paths| => Visit(paths[i]))
    ensures PatternComplete(env, file, pattern, read)
  {
    hide TrimSpace;
    hide Put;
    var found := env.glob(TrimSpace(pattern), file);
    assert found.None? ==> ItemSettled(env, front[0], r, read);
    if found.Some? {
      forall q | q in found.value
        ensures env.canon(q).Some? && env.canon(q).value in read
      {
        var i :| 0 <= i < |found.value| && found.value[i] == q;
        assert front[i] == Visit(q) && ItemSettled(env, front[i], r, read);
      }
    }
  }

  lemma CompleteFirst(env: Env, file: Path, patterns: seq<string>, read: set<Path>)
    requires patterns != [] && PatternsComplete(env, file, patterns[1..], read)
    requires Blank(patterns[0]) || PatternComplete(env, file, patterns[0], read)
    ensures PatternsComplete(env, file, patterns, read)
  {
    hide TrimSpace;
    assert patterns == [patterns[0]] + patterns[1..];
  }

  // ----- what an error says

  /** The fault an error names is there. */
  ghost predicate Real(env: Env, e: SSHConfig.Error) {
    match e
    case CanonError(p) => env.canon(p) == None
    case OpenError(f) => f !in env.files
    case ScanError(f) => f in env.files && !env.files[f].scanOk
    case GlobError(raw) => !Blank(raw) && exists f :: f in env.files && env.glob(TrimSpace(raw), f) == None
    case InvalidPort(v) => v == "" || exists i :: 0 <= i < |v| && !('0' <= v[i] <= '9')
  }

  ghost predicate ItemsReal(env: Env, items: seq<Item>) {
    forall i :: 0 <= i < |items| && items[i].Fail? ==> Real(env, items[i].e)
  }

  lemma {:induction false} PatternItemsReal(env: Env, file: Path, patterns: seq<string>)
    requires file in env.files
    ensures ItemsReal(env, PatternItems(env, file, patterns))
  {
    hide TrimSpace;
    if patterns != [] {
      PatternItemsReal(env, file, patterns[1..]);
    }
  }

  lemma {:induction false} LinesItemsReal(env: Env, host: string, file: Path, lines: seq<Line>, active: bool)
    requires file in env.files
    ensures ItemsReal(env, LinesItems(env, host, file, lines, active))
  {
    hide NextActive;
    hide PatternItems;
    hide Real;
    if lines != [] {
      LinesItemsReal(env, host, file, lines[1..], NextActive(env, host, lines[0], active));
      if lines[0].IncludeLine? {
        PatternItemsReal(env, file, lines[0].patterns);
      }
    }
  }

  lemma {:induction false} ReadPathReal(env: Env, host: string, p: string, r: Resolution, visited: set<Path>)
    ensures var o := ReadPath(env, host, p, r, visited); o.Failed? ==> Real(env, o.e)
    decreases env.files.Keys - visited, 0
  {
    if env.canon(p).Some? && env.canon(p).value !in visited && env.canon(p).value in env.files {
      var file := env.canon(p).value;
      assert env.files.Keys - (visited + {file}) < env.files.Keys - visited;
      FileItemsReal(env, host, file);
      ReadItemsReal(env, host, FileItems(env, host, file), r, visited + {file});
    }
  }

  lemma FileItemsReal(env: Env, host: string, file: Path)
    requires file in env.files
    ensures ItemsReal(env, FileItems(env, host, file))
  {
    LinesItemsReal(env, host, file, env.files[file].lines, true);
  }

  lemma {:induction false} ReadItemsReal(env: Env, host: string, items: seq<Item>, r: Resolution, visited: set<Path>)
    requires ItemsReal(env, items)
    ensures var o := ReadItems(env, host, items, r, visited); o.Failed? ==> Real(env, o.e)
    decreases env.files.Keys - visited, 1 + |items|
  {
    hide ReadPath;
    if items != [] {
      assert ItemsReal(env, items[1..]);
      match items[0]
      case Fail(_) =>
      case Value(f, v) =>
        if Put(r, f, v).Ok? {
          ReadItemsReal(env, host, items[1..], Put(r, f, v).value, visited);
        }
      case Visit(p) =>
        ReadPathReal(env, host, p, r, visited);
        var o := ReadPath(env, host, p, r, visited);
        if o.Done? {
          assert env.files.Keys - o.visited <= env.files.Keys - visited;
          ReadItemsReal(env, host, items[1..], o.r, o.visited);
        }
    }
  }

  /** A failed read names a fault that is there. */
  lemma FailureIsReal(env: Env, host: string, config: string)
    requires ResolveAlias(env, host, config).Err?
    ensures match ResolveAlias(env, host, config).error
            case CanonError(p) => env.canon(p) == None
            case OpenError(f) => f !in env.files
            case ScanError(f) => f in env.files && !env.files[f].scanOk
            case GlobError(raw) => !Blank(raw) && exists f :: f in env.files && env.glob(TrimSpace(raw), f) == None
            case InvalidPort(v) => v == "" || exists i :: 0 <= i < |v| && !('0' <= v[i] <= '9')
  {
    ReadPathReal(env, host, config, NOTHING, {});
  }
}
