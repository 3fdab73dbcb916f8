/**
 Resolution of a Git SSH destination through `~/.ssh/config`, following
 ProxyJump entries recursively with a path-scoped set of hosts being resolved.

 `Resolve` is the specification with the set as an argument; class `Resolver`
 holds the set as a field that its methods fill and empty. Walks and trees over
 the ProxyJump entries are the independent references.
 */
module ProxyJump {
  import opened Wrappers
  import opened Text
  import opened SSHConfig

  datatype Jump = Jump(host: string, user: string, port: string)

  datatype Target = Target(
    requestedHost: string, host: string, user: string, port: string,
    hostKeyAlias: string, fromConfig: bool, jumps: seq<Jump>)

  datatype ResolveError =
    | Cycle(host: string)
    | Config(e: SSHConfig.Error)
    | BadHostName(requested: string, hostName: string)
    | EmptyEntry
    | BadEntry(entry: string)

  /** `config` is the path of the config file, None when it does not exist. */
  datatype World = World(env: Env, config: Option<string>)

  // ----- entries

  predicate HostChar(c: char) {
    'a' <= c <= 'z' || '0' <= c <= '9' || c == '.' || c == '-'
  }

  predicate ValidHost(h: string) {
    h != "" && forall i :: 0 <= i < |h| ==> HostChar(h[i])
  }

  /** The text before the last colon and the port after it, when what follows the colon is a port. */
  function SplitPort(s: string): (string, string) {
    var colon := LastIndex(s, ':');
    if colon >= 0 && ValidPort(s[colon + 1..]) then (s[..colon], s[colon + 1..]) else (s, "")
  }

  /** `parseSSHConfigJumpTarget`: [user@]host[:port]. */
  function ParseJump(raw: string): Result<Jump, ResolveError> {
    var value := TrimSpace(raw);
    if value == "" then Err(EmptyEntry)
    else
      var at := LastIndex(value, '@');
      var user := if at >= 0 then value[..at] else "";
      var (name, port) := SplitPort(value[at + 1..]);
      var host := ToLower(TrimSpace(name));
      if ValidHost(host) then Ok(Jump(host, user, port)) else Err(BadEntry(name))
  }

  function Entries(value: string): seq<string> {
    Split(value, ',')
  }

  // ----- what the config says of a host

  ghost function Lookup(w: World, host: string): Result<Resolution, SSHConfig.Error> {
    if w.config == None then Ok(NOTHING) else ResolveAlias(w.env, host, w.config.value)
  }

  predicate HasJumps(r: Resolution) {
    r.proxyJump != "" && ToLower(TrimSpace(r.proxyJump)) != "none"
  }

  function JumpEntries(r: Resolution): seq<string> {
    if HasJumps(r) then Entries(r.proxyJump) else []
  }

  /** The target with everything but its jumps filled in from the config. */
  function ApplyAlias(t: Target, r: Resolution): Result<Target, ResolveError> {
    var t1 := if t.user == "" && r.user != "" then t.(user := r.user, fromConfig := true) else t;
    var t2 := if t1.port == "" && r.port != "" then t1.(port := r.port, fromConfig := true) else t1;
    var normalized := ToLower(TrimSpace(r.hostName));
    if r.hostName != "" && !ValidHost(normalized) then Err(BadHostName(t.requestedHost, r.hostName))
    else
      var t3 := if r.hostName == "" then t2
                else t2.(host := normalized, fromConfig := t2.fromConfig || normalized != t2.host);
      Ok(if r.hostKeyAlias != "" then t3.(hostKeyAlias := r.hostKeyAlias, fromConfig := true)
         else if t3.host != t3.requestedHost then t3.(hostKeyAlias := t3.requestedHost)
         else t3)
  }

  /**
   What was asked for explicitly wins over the config; the address is the configured HostName, if any; the host key
   is looked up under the configured alias, else under the requested name when the address differs from it; and the
   target is marked as coming from the config exactly when the config supplied one of these.
   */
  lemma AliasPrecedence(t: Target, r: Resolution)
    requires t.host == t.requestedHost && t.hostKeyAlias == "" && !t.fromConfig
    requires ApplyAlias(t, r).Ok?
    ensures var a := ApplyAlias(t, r).value;
            && a.requestedHost == t.requestedHost && a.jumps == t.jumps
            && (a.user == t.user || (t.user == "" && a.user == r.user))
            && (a.port == t.port || (t.port == "" && a.port == r.port))
            && (a.user == "" ==> r.user == "") && (a.port == "" ==> r.port == "")
            && (a.host == t.host || (r.hostName != "" && a.host == ToLower(TrimSpace(r.hostName)) && ValidHost(a.host)))
            && (r.hostName != "" ==> a.host == ToLower(TrimSpace(r.hostName)))
            && (r.hostKeyAlias != "" ==> a.hostKeyAlias == r.hostKeyAlias)
            && (r.hostKeyAlias == "" ==> a.hostKeyAlias == if a.host != t.host then t.requestedHost else "")
            && (a.fromConfig <==> a.user != t.user || a.port != t.port || a.host != t.host || r.hostKeyAlias != "")
  {
    hide ToLower;
    hide TrimSpace;
    hide ValidHost;
  }

  // ----- the finite set of hosts a ProxyJump value can name

  ghost function JumpValues(env: Env): set<string> {
    set file, i | file in env.files && 0 <= i < |env.files[file].lines|
                  && env.files[file].lines[i].ValueLine? && env.files[file].lines[i].field == Field.ProxyJump
      :: env.files[file].lines[i].value
  }

  ghost function JumpHosts(env: Env): set<string> {
    set v, i | v in JumpValues(env) && 0 <= i < |Entries(v)| && ParseJump(Entries(v)[i]).Ok?
      :: ParseJump(Entries(v)[i]).value.host
  }

  ghost predicate JumpItemsKnown(env: Env, items: seq<Item>) {
    forall i :: 0 <= i < |items| && items[i].Value? && items[i].field == Field.ProxyJump ==> items[i].v in JumpValues(env)
  }

  lemma {:induction false} PatternItemsGiveNoValue(env: Env, file: Path, patterns: seq<string>)
    ensures forall i :: 0 <= i < |PatternItems(env, file, patterns)| ==> !PatternItems(env, file, patterns)[i].Value?
  {
    hide TrimSpace;
    if patterns != [] {
      PatternItemsGiveNoValue(env, file, patterns[1..]);
    }
  }

  lemma {:induction false} LinesItemsKnown(env: Env, host: string, file: Path, k: nat, active: bool)
    requires file in env.files && k <= |env.files[file].lines|
    ensures JumpItemsKnown(env, LinesItems(env, host, file, env.files[file].lines[k..], active))
    decreases |env.files[file].lines| - k
  {
    hide HostMatches;
    var lines := env.files[file].lines;
    if k < |lines| {
      assert lines[k..][1..] == lines[k + 1..];
      LinesItemsKnown(env, host, file, k + 1, NextActive(env, host, lines[k], active));
      if lines[k].IncludeLine? {
        PatternItemsGiveNoValue(env, file, lines[k].patterns);
      } else if lines[k].ValueLine? && lines[k].field == Field.ProxyJump {
        assert lines[k].value in JumpValues(env);
      }
    }
  }

  lemma {:induction false} ReadPathKnown(env: Env, host: string, p: string, r: Resolution, visited: set<Path>)
    ensures var o := ReadPath(env, host, p, r, visited);
            o.Done? ==> o.r.proxyJump == r.proxyJump || o.r.proxyJump in JumpValues(env)
    decreases env.files.Keys - visited, 0
  {
    hide JumpValues;
    if env.canon(p).Some? && env.canon(p).value !in visited && env.canon(p).value in env.files {
      var file := env.canon(p).value;
      LinesItemsKnown(env, host, file, 0, true);
      assert env.files[file].lines[0..] == env.files[file].lines;
      assert env.files.Keys - (visited + {file}) < env.files.Keys - visited;
      ReadItemsKnown(env, host, FileItems(env, host, file), r, visited + {file});
    }
  }

  lemma {:induction false} ReadItemsKnown(env: Env, host: string, items: seq<Item>, r: Resolution, visited: set<Path>)
    requires JumpItemsKnown(env, items)
    ensures var o := ReadItems(env, host, items, r, visited);
            o.Done? ==> o.r.proxyJump == r.proxyJump || o.r.proxyJump in JumpValues(env)
    decreases env.files.Keys - visited, 1 + |items|
  {
    hide JumpValues;
    hide ReadPath;
    hide ValidPort;
    if items != [] {
      assert JumpItemsKnown(env, items[1..]);
      match items[0]
      case Fail(_) =>
      case Value(f, v) =>
        if Put(r, f, v).Ok? {
          ReadItemsKnown(env, host, items[1..], Put(r, f, v).value, visited);
        }
      case Visit(p) =>
        ReadPathKnown(env, host, p, r, visited);
        var o := ReadPath(env, host, p, r, visited);
        if o.Done? {
          assert env.files.Keys - o.visited <= env.files.Keys - visited;
          ReadItemsKnown(env, host, items[1..], o.r, o.visited);
        }
    }
  }

  /** Every entry the resolver follows names a host of the finite set. */
  lemma LookupIsKnown(w: World, host: string)
    ensures Lookup(w, host).Ok? ==> EntriesKnown(w, JumpEntries(Lookup(w, host).value))
  {
    hide ParseJump;
    if w.config != None {
      ReadPathKnown(w.env, host, w.config.value, NOTHING, {});
    }
  }

  ghost predicate EntriesKnown(w: World, entries: seq<string>) {
    forall i :: 0 <= i < |entries| && ParseJump(entries[i]).Ok? ==> ParseJump(entries[i]).value.host in JumpHosts(w.env)
  }

  // ----- resolution

  function EntryTarget(j: Jump): Target {
    Target(j.host, j.host, j.user, j.port, "", false, [])
  }

  ghost function Resolve(w: World, t: Target, seen: set<string>): Result<Target, ResolveError>
    decreases if t.requestedHost in JumpHosts(w.env) then 0 else 1, JumpHosts(w.env) - seen, 0
  {
    if t.requestedHost in seen then Err(Cycle(t.requestedHost))
    else
      match Lookup(w, t.host)
      case Err(e) => Err(Config(e))
      case Ok(r) =>
        match ApplyAlias(t, r)
        case Err(e) => Err(e)
        case Ok(t') =>
          if !HasJumps(r) then Ok(t')
          else
            LookupIsKnown(w, t.host);
            assert t.requestedHost in JumpHosts(w.env) ==> JumpHosts(w.env) - (seen + {t.requestedHost}) < JumpHosts(w.env) - seen;
            match ResolveEntries(w, JumpEntries(r), seen + {t.requestedHost})
            case Err(e) => Err(e)
            case Ok(jumps) => Ok(t'.(jumps := jumps, fromConfig := true))
  }

  ghost function ResolveEntries(w: World, entries: seq<string>, seen: set<string>): Result<seq<Jump>, ResolveError>
    requires EntriesKnown(w, entries)
    decreases 0, JumpHosts(w.env) - seen, 1 + |entries|
  {
    if entries == [] then Ok([])
    else
      match ParseJump(entries[0])
      case Err(e) => Err(e)
      case Ok(j) =>
        match Resolve(w, EntryTarget(j), seen)
        case Err(e) => Err(e)
        case Ok(hop) =>
          match ResolveEntries(w, entries[1..], seen)
          case Err(e) => Err(e)
          case Ok(rest) => Ok(hop.jumps + [Jump(hop.host, hop.user, hop.port)] + rest)
  }

  /** The resolver in the source's form, with the hosts being resolved in a field. */
  class Resolver {
    const w: World
    var seen: set<string>

    constructor (w: World)
      ensures this.w == w && seen == {}
    {
      this.w := w;
      seen := {};
    }

    method ResolveSSHConfigAlias(host: string) returns (r: Result<Resolution, SSHConfig.Error>)
      ensures r == Lookup(w, host)
    {
      if w.config == None {
        return Ok(NOTHING);
      }
      var reader := new Reader(w.env, host);
      var failure := reader.ApplySSHConfigFile(w.config.value);
      if failure.Some? {
        return Err(failure.value);
      }
      return Ok(reader.resolution);
    }

    /** On every exit, with or without an error, `seen` is what it was on entry. */
    method ResolveGitSSHTestTargetWithSeen(t: Target) returns (r: Result<Target, ResolveError>)
      modifies this
      ensures seen == old(seen)
      ensures r == Resolve(w, t, old(seen))
      decreases if t.requestedHost in JumpHosts(w.env) then 0 else 1, JumpHosts(w.env) - seen, 1
    {
      if t.requestedHost in seen {
        return Err(Cycle(t.requestedHost));
      }
      seen := seen + {t.requestedHost};
      r := ResolveMarked(t, old(seen));
      seen := seen - {t.requestedHost};
    }

    /** The body between marking the host and the deferred removal of the mark. */
    method ResolveMarked(t: Target, ghost entry: set<string>) returns (r: Result<Target, ResolveError>)
      requires t.requestedHost !in entry && seen == entry + {t.requestedHost}
      modifies this
      ensures seen == old(seen)
      ensures r == Resolve(w, t, entry)
      decreases if t.requestedHost in JumpHosts(w.env) then 0 else 1, JumpHosts(w.env) - entry, 0
    {
      hide JumpHosts;
      var lookup := ResolveSSHConfigAlias(t.host);
      if lookup.Err? {
        return Err(Config(lookup.error));
      }
      var resolved := lookup.value;
      var applied := ApplyAlias(t, resolved);
      if applied.Err? {
        return applied;
      }
      var target := applied.value;
      if resolved.proxyJump != "" && ToLower(TrimSpace(resolved.proxyJump)) != "none" {
        LookupIsKnown(w, t.host);
        assert t.requestedHost in JumpHosts(w.env) ==> JumpHosts(w.env) - seen < JumpHosts(w.env) - entry;
        var jumps := ResolveSSHConfigProxyJump(resolved.proxyJump);
        if jumps.Err? {
          return Err(jumps.error);
        }
        target := target.(jumps := jumps.value, fromConfig := true);
      }
      return Ok(target);
    }

    method ResolveSSHConfigProxyJump(value: string) returns (r: Result<seq<Jump>, ResolveError>)
      requires EntriesKnown(w, Entries(value))
      modifies this
      ensures seen == old(seen)
      ensures r == ResolveEntries(w, Entries(value), old(seen))
      decreases 0, JumpHosts(w.env) - seen, 2
    {
      hide JumpHosts;
      hide ParseJump;
      var parts := Split(value, ',');
      var targets: seq<Jump> := [];
      assert parts[0..] == parts;
      assert forall rest: seq<Jump> :: targets + rest == rest;
      for i := 0 to |parts|
        invariant seen == old(seen)
        invariant ResolveEntries(w, parts, seen)
               == match ResolveEntries(w, parts[i..], seen) case Err(e) => Err(e) case Ok(rest) => Ok(targets + rest)
      {
        assert parts[i..][1..] == parts[i + 1..];
        var entry := ParseJump(parts[i]);
        if entry.Err? {
          return Err(entry.error);
        }
        var hop := ResolveGitSSHTestTargetWithSeen(EntryTarget(entry.value));
        if hop.Err? {
          return Err(hop.error);
        }
        ghost var soFar := targets;
        targets := targets + hop.value.jumps;
        targets := targets + [Jump(hop.value.host, hop.value.user, hop.value.port)];
        assert forall rest: seq<Jump> :: soFar + (hop.value.jumps + [Jump(hop.value.host, hop.value.user, hop.value.port)] + rest)
                                      == targets + rest;
      }
      assert parts[|parts|..] == [];
      assert targets + [] == targets;
      return Ok(targets);
    }
  }
}
