/**
 What ProxyJump resolution computes, told without its `seen` set: it succeeds
 exactly when no walk along ProxyJump entries comes to a host it has already
 passed or to a host that is not well formed, and its jump list is then the
 post-order of the tree of hops.
 */
module ProxyJumpPaths {
  import opened Wrappers
  import opened Text
  import opened SSHConfig
  import opened ProxyJump

  /** The config can be read for the host, its HostName is a host name and its ProxyJump entries are well formed. */
  ghost predicate WellFormedAt(w: World, host: string) {
    && Lookup(w, host).Ok?
    && GoodHostName(Lookup(w, host).value)
    && forall i :: 0 <= i < |HopsOf(w, host)| ==> ParseJump(HopsOf(w, host)[i]).Ok?
  }

  predicate GoodHostName(r: Resolution) {
    r.hostName == "" || ValidHost(ToLower(TrimSpace(r.hostName)))
  }

  /** The ProxyJump entries the config gives a host: none for an empty value or for the word "none". */
  ghost function HopsOf(w: World, host: string): seq<string> {
    match Lookup(w, host)
    case Err(_) => []
    case Ok(r) => if r.proxyJump == "" || ToLower(TrimSpace(r.proxyJump)) == "none" then [] else Split(r.proxyJump, ',')
  }

  ghost predicate Edge(w: World, a: string, b: string) {
    exists i :: 0 <= i < |HopsOf(w, a)| && ParseJump(HopsOf(w, a)[i]).Ok? && ParseJump(HopsOf(w, a)[i]).value.host == b
  }

  ghost predicate IsWalk(w: World, p: seq<string>) {
    && p != []
    && forall i :: 0 <= i < |p| - 1 ==> Edge(w, p[i], p[i + 1])
  }

  function Last(p: seq<string>): string
    requires p != []
  {
    p[|p| - 1]
  }

  /** The walk ends where resolution must fail: at a host already on the walk, or at one that is not well formed. */
  ghost predicate Blocked(w: World, p: seq<string>)
    requires p != []
  {
    !WellFormedAt(w, Last(p)) || Last(p) in p[..|p| - 1]
  }

  predicate Fresh(t: Target) {
    t.host == t.requestedHost && t.jumps == []
  }

  lemma ApplyAliasFailsByHost(t: Target, r: Resolution)
    requires Fresh(t)
    ensures ApplyAlias(t, r).Ok? <==> GoodHostName(r)
    ensures ApplyAlias(t, r).Ok? ==> ApplyAlias(t, r).value.jumps == []
  {
    hide ToLower;
    hide TrimSpace;
    hide ValidHost;
  }

  // ----- success excludes blocked walks

  lemma {:induction false} EntryResolved(w: World, entries: seq<string>, seen: set<string>, k: nat)
    requires EntriesKnown(w, entries)
    requires ResolveEntries(w, entries, seen).Ok?
    requires k < |entries|
    ensures ParseJump(entries[k]).Ok?
    ensures Resolve(w, EntryTarget(ParseJump(entries[k]).value), seen).Ok?
    decreases |entries|
  {
    hide ParseJump;
    hide Resolve;
    hide JumpHosts;
    if k > 0 {
      EntryResolved(w, entries[1..], seen, k - 1);
    }
  }

  lemma ResolvedHost(w: World, t: Target, seen: set<string>)
    requires Fresh(t) && Resolve(w, t, seen).Ok?
    ensures t.host !in seen && WellFormedAt(w, t.host)
    ensures forall k :: 0 <= k < |HopsOf(w, t.host)| ==>
              ParseJump(HopsOf(w, t.host)[k]).Ok?
              && Resolve(w, EntryTarget(ParseJump(HopsOf(w, t.host)[k]).value), seen + {t.host}).Ok?
  {
    hide ParseJump;
    hide ApplyAlias;
    hide ResolveEntries;
    hide JumpHosts;
    var r := Lookup(w, t.host).value;
    ApplyAliasFailsByHost(t, r);
    if HasJumps(r) {
      LookupIsKnown(w, t.host);
      forall k | 0 <= k < |HopsOf(w, t.host)|
        ensures ParseJump(HopsOf(w, t.host)[k]).Ok?
        ensures Resolve(w, EntryTarget(ParseJump(HopsOf(w, t.host)[k]).value), seen + {t.host}).Ok?
      {
        EntryResolved(w, JumpEntries(r), seen + {t.host}, k);
      }
    }
  }

  lemma WalkTail(w: World, p: seq<string>)
    requires IsWalk(w, p) && |p| > 1
    ensures IsWalk(w, p[1..]) && Edge(w, p[0], p[1])
  {
    hide Edge;
    var q := p[1..];
    forall j | 0 <= j < |q| - 1
      ensures Edge(w, q[j], q[j + 1])
    {
      assert q[j] == p[j + 1] && q[j + 1] == p[j + 2];
      assert Edge(w, p[j + 1], p[j + 2]);
    }
  }

  lemma ResolvedHop(w: World, t: Target, seen: set<string>, next: string) returns (t': Target)
    requires Fresh(t) && Resolve(w, t, seen).Ok? && Edge(w, t.host, next)
    ensures Fresh(t') && t'.host == next && Resolve(w, t', seen + {t.host}).Ok?
  {
    ResolvedHost(w, t, seen);
    hide ParseJump;
    hide Resolve;
    hide HopsOf;
    var i :| 0 <= i < |HopsOf(w, t.host)| && ParseJump(HopsOf(w, t.host)[i]).Ok?
             && ParseJump(HopsOf(w, t.host)[i]).value.host == next;
    t' := EntryTarget(ParseJump(HopsOf(w, t.host)[i]).value);
  }

  lemma {:induction false} SuccessWalksFree(w: World, t: Target, seen: set<string>, p: seq<string>)
    requires Fresh(t) && Resolve(w, t, seen).Ok?
    requires IsWalk(w, p) && p[0] == t.host
    ensures WellFormedAt(w, Last(p)) && Last(p) !in seen
    ensures |p| > 1 ==> Last(p) !in p[..|p| - 1]
    decreases |p|
  {
    hide Resolve;
    hide WellFormedAt;
    hide Edge;
    hide Fresh;
    if |p| > 1 {
      WalkTail(w, p);
      var t' := ResolvedHop(w, t, seen, p[1]);
      SuccessWalksFree(w, t', seen + {p[0]}, p[1..]);
      assert p[..|p| - 1] == [p[0]] + p[1..][..|p| - 2];
    } else {
      ResolvedHost(w, t, seen);
    }
  }

  // ----- failure shows a blocked walk

  lemma {:induction false} FailureWalk(w: World, t: Target, seen: set<string>) returns (p: seq<string>)
    requires Fresh(t) && Resolve(w, t, seen).Err?
    ensures IsWalk(w, p) && p[0] == t.host
    ensures Last(p) in seen || Blocked(w, p)
    decreases if t.requestedHost in JumpHosts(w.env) then 0 else 1, JumpHosts(w.env) - seen, 0
  {
    hide ParseJump;
    hide ApplyAlias;
    hide ResolveEntries;
    hide JumpHosts;
    p := [t.host];
    if t.host !in seen && Lookup(w, t.host).Ok? {
      var r := Lookup(w, t.host).value;
      ApplyAliasFailsByHost(t, r);
      if ApplyAlias(t, r).Ok? && HasJumps(r) {
        LookupIsKnown(w, t.host);
        assert t.host in JumpHosts(w.env) ==> JumpHosts(w.env) - (seen + {t.host}) < JumpHosts(w.env) - seen;
        var k, q := FailureEntry(w, JumpEntries(r), seen + {t.host});
        if ParseJump(JumpEntries(r)[k]).Ok? {
          p := [t.host] + q;
          assert HopsOf(w, t.host) == JumpEntries(r);
          assert ParseJump(HopsOf(w, t.host)[k]).value.host == q[0];
          assert Edge(w, t.host, q[0]);
          forall j | 0 <= j < |p| - 1
            ensures Edge(w, p[j], p[j + 1])
          {
            if j > 0 {
              assert p[j] == q[j - 1] && p[j + 1] == q[j];
            }
          }
          assert p[..|p| - 1] == [t.host] + q[..|q| - 1];
        } else {
          assert !ParseJump(HopsOf(w, t.host)[k]).Ok?;
        }
      }
    }
  }

  lemma {:induction false} FailureEntry(w: World, entries: seq<string>, seen: set<string>) returns (k: nat, q: seq<string>)
    requires EntriesKnown(w, entries) && ResolveEntries(w, entries, seen).Err?
    ensures k < |entries|
    ensures ParseJump(entries[k]).Ok? ==>
              && IsWalk(w, q) && q[0] == ParseJump(entries[k]).value.host
              && (Last(q) in seen || Blocked(w, q))
    decreases 0, JumpHosts(w.env) - seen, 1 + |entries|
  {
    hide ParseJump;
    hide Resolve;
    hide JumpHosts;
    hide Blocked;
    k, q := 0, [];
    var first := ParseJump(entries[0]);
    if first.Ok? {
      assert first.value.host in JumpHosts(w.env);
      var t := EntryTarget(first.value);
      if Resolve(w, t, seen).Err? {
        q := FailureWalk(w, t, seen);
      } else {
        var k';
        k', q := FailureEntry(w, entries[1..], seen);
        k := k' + 1;
      }
    }
  }

  /** Resolution of a host succeeds exactly when every walk along ProxyJump entries from it is free of repeats and ill-formed hosts. */
  lemma ResolvesIffNoBlockedWalk(w: World, t: Target)
    requires Fresh(t)
    ensures Resolve(w, t, {}).Ok? <==> !exists p :: IsWalk(w, p) && p[0] == t.host && Blocked(w, p)
  {
    hide Resolve;
    hide WellFormedAt;
    if Resolve(w, t, {}).Ok? {
      forall p | IsWalk(w, p) && p[0] == t.host
        ensures !Blocked(w, p)
      {
        SuccessWalksFree(w, t, {}, p);
      }
    } else {
      var p := FailureWalk(w, t, {});
      assert IsWalk(w, p) && p[0] == t.host && Blocked(w, p);
    }
  }

  /** When every host a walk from the target can reach is well formed, success is exactly the absence of a reachable ProxyJump cycle. */
  lemma ResolvesIffAcyclic(w: World, t: Target)
    requires Fresh(t)
    requires forall p :: IsWalk(w, p) && p[0] == t.host ==> WellFormedAt(w, Last(p))
    ensures Resolve(w, t, {}).Ok? <==>
            !exists p :: IsWalk(w, p) && p[0] == t.host && Last(p) in p[..|p| - 1]
  {
    hide Resolve;
    hide WellFormedAt;
    hide JumpHosts;
    ResolvesIffNoBlockedWalk(w, t);
    if p :| IsWalk(w, p) && p[0] == t.host && Blocked(w, p) {
      assert Last(p) in p[..|p| - 1];
    }
    forall p | IsWalk(w, p) && p[0] == t.host && Last(p) in p[..|p| - 1]
      ensures Blocked(w, p)
    {
    }
  }

  // ----- the jump list is the post-order of the tree of hops

  /** A jump with, below it, the trees of the jumps its own host needs. */
  datatype Tree = Tree(entry: Jump, hops: seq<Tree>)

  ghost predicate IsTree(w: World, t: Tree)
    decreases t
  {
    && WellFormedAt(w, t.entry.host)
    && |t.hops| == |HopsOf(w, t.entry.host)|
    && forall i :: 0 <= i < |t.hops| ==>
         t.hops[i].entry == ParseJump(HopsOf(w, t.entry.host)[i]).value && IsTree(w, t.hops[i])
  }

  /** The jump itself as ssh will be given it: the user and port written in the entry win over the configured ones, and
      the configured HostName, if any, is the host. */
  ghost function Resolved(w: World, entry: Jump): Jump
    requires Lookup(w, entry.host).Ok?
  {
    var r := Lookup(w, entry.host).value;
    Jump(if r.hostName != "" then ToLower(TrimSpace(r.hostName)) else entry.host,
         if entry.user != "" then entry.user else r.user,
         if entry.port != "" then entry.port else r.port)
  }

  /** Each hop's own jumps, then the hop. */
  ghost function Flatten(w: World, trees: seq<Tree>): seq<Jump>
    requires forall i :: 0 <= i < |trees| ==> IsTree(w, trees[i])
    decreases trees
  {
    if trees == [] then []
    else
      assert IsTree(w, trees[0]);
      Flatten(w, trees[0].hops) + [Resolved(w, trees[0].entry)] + Flatten(w, trees[1..])
  }

  /** One tree for each entry, in order. */
  ghost predicate TreesFor(w: World, entries: seq<string>, trees: seq<Tree>) {
    && |trees| == |entries|
    && forall i :: 0 <= i < |trees| ==> ParseJump(entries[i]) == Ok(trees[i].entry) && IsTree(w, trees[i])
  }

  lemma {:induction false} TreeOfTarget(w: World, t: Target, seen: set<string>) returns (hops: seq<Tree>)
    requires Fresh(t) && Resolve(w, t, seen).Ok?
    ensures WellFormedAt(w, t.host)
    ensures TreesFor(w, HopsOf(w, t.host), hops)
    ensures Resolve(w, t, seen).value.jumps == Flatten(w, hops)
    decreases if t.requestedHost in JumpHosts(w.env) then 0 else 1, JumpHosts(w.env) - seen, 0
  {
    ResolvedHost(w, t, seen);
    hide ParseJump;
    hide ApplyAlias;
    hide ResolveEntries;
    hide JumpHosts;
    hide WellFormedAt;
    var r := Lookup(w, t.host).value;
    ApplyAliasFailsByHost(t, r);
    hops := [];
    if HasJumps(r) {
      LookupIsKnown(w, t.host);
      assert t.host in JumpHosts(w.env) ==> JumpHosts(w.env) - (seen + {t.host}) < JumpHosts(w.env) - seen;
      hops := TreesOfEntries(w, JumpEntries(r), seen + {t.host});
    }
  }

  lemma {:induction false} TreesOfEntries(w: World, entries: seq<string>, seen: set<string>) returns (trees: seq<Tree>)
    requires EntriesKnown(w, entries) && ResolveEntries(w, entries, seen).Ok?
    ensures TreesFor(w, entries, trees)
    ensures ResolveEntries(w, entries, seen).value == Flatten(w, trees)
    decreases 0, JumpHosts(w.env) - seen, 1 + |entries|
  {
    hide *;
    if entries == [] {
      trees := [];
      NoEntries(w, seen);
    } else {
      var j := ResolveEntriesCons(w, entries, seen);
      var hops := TreeOfTarget(w, EntryTarget(j), seen);
      var rest := TreesOfEntries(w, entries[1..], seen);
      ResolvedIsApplied(w, j, seen);
      TreesForCons(w, entries, j, hops, rest);
      trees := [Tree(j, hops)] + rest;
    }
  }

  lemma NoEntries(w: World, seen: set<string>)
    ensures EntriesKnown(w, []) && TreesFor(w, [], [])
    ensures ResolveEntries(w, [], seen) == Ok(Flatten(w, []))
  {
  }

  lemma ResolveEntriesCons(w: World, entries: seq<string>, seen: set<string>) returns (j: Jump)
    requires EntriesKnown(w, entries) && entries != [] && ResolveEntries(w, entries, seen).Ok?
    ensures ParseJump(entries[0]) == Ok(j) && j.host in JumpHosts(w.env) && Fresh(EntryTarget(j))
    ensures EntryTarget(j).requestedHost == j.host == EntryTarget(j).host
    ensures EntriesKnown(w, entries[1..]) && ResolveEntries(w, entries[1..], seen).Ok?
    ensures Resolve(w, EntryTarget(j), seen).Ok?
    ensures ResolveEntries(w, entries, seen).value
         == Resolve(w, EntryTarget(j), seen).value.jumps
            + [Jump(Resolve(w, EntryTarget(j), seen).value.host, Resolve(w, EntryTarget(j), seen).value.user,
                    Resolve(w, EntryTarget(j), seen).value.port)]
            + ResolveEntries(w, entries[1..], seen).value
  {
    hide ParseJump;
    hide JumpHosts;
    hide Resolve;
    j := ParseJump(entries[0]).value;
  }

  lemma TreesForCons(w: World, entries: seq<string>, j: Jump, hops: seq<Tree>, rest: seq<Tree>)
    requires entries != [] && ParseJump(entries[0]) == Ok(j) && WellFormedAt(w, j.host)
    requires TreesFor(w, HopsOf(w, j.host), hops) && TreesFor(w, entries[1..], rest)
    ensures TreesFor(w, entries, [Tree(j, hops)] + rest)
    ensures Flatten(w, [Tree(j, hops)] + rest) == Flatten(w, hops) + [Resolved(w, j)] + Flatten(w, rest)
  {
    hide ParseJump;
    hide WellFormedAt;
    hide Resolved;
    hide HopsOf;
    var t := Tree(j, hops);
    var trees := [t] + rest;
    assert IsTree(w, t);
    assert trees[1..] == rest;
    forall i | 0 <= i < |trees|
      ensures ParseJump(entries[i]) == Ok(trees[i].entry) && IsTree(w, trees[i])
    {
      if i > 0 {
        assert trees[i] == rest[i - 1] && entries[i] == entries[1..][i - 1];
      }
    }
  }

  /** What the config makes of a target that names its host only, field by field. */
  lemma AliasFields(t: Target, r: Resolution)
    requires t.host == t.requestedHost && t.hostKeyAlias == "" && !t.fromConfig && ApplyAlias(t, r).Ok?
    ensures var a := ApplyAlias(t, r).value;
            && a.host == (if r.hostName != "" then ToLower(TrimSpace(r.hostName)) else t.host)
            && a.user == (if t.user != "" then t.user else r.user)
            && a.port == (if t.port != "" then t.port else r.port)
            && a.hostKeyAlias == (if r.hostKeyAlias != "" then r.hostKeyAlias else if a.host != t.host then t.host else "")
            && (a.fromConfig <==> a.host != t.host || a.user != t.user || a.port != t.port || r.hostKeyAlias != "")
            && a.requestedHost == t.requestedHost && a.jumps == t.jumps
  {
    hide ToLower;
    hide TrimSpace;
    hide ValidHost;
  }

  lemma ResolvedIsApplied(w: World, j: Jump, seen: set<string>)
    requires WellFormedAt(w, j.host) && Resolve(w, EntryTarget(j), seen).Ok?
    ensures Jump(Resolve(w, EntryTarget(j), seen).value.host, Resolve(w, EntryTarget(j), seen).value.user,
                 Resolve(w, EntryTarget(j), seen).value.port) == Resolved(w, j)
  {
    AliasFields(EntryTarget(j), Lookup(w, j.host).value);
    hide HopsOf;
    hide GoodHostName;
    hide ParseJump;
    hide ApplyAlias;
    hide ResolveEntries;
    hide JumpHosts;
    hide ToLower;
    hide TrimSpace;
    hide Lookup;
  }

  /** The tree below an entry is determined by the config alone. */
  lemma {:induction false} TreeIsUnique(w: World, a: Tree, b: Tree)
    requires IsTree(w, a) && IsTree(w, b) && a.entry == b.entry
    ensures a == b
    decreases a
  {
    forall i | 0 <= i < |a.hops|
      ensures a.hops[i] == b.hops[i]
    {
      TreeIsUnique(w, a.hops[i], b.hops[i]);
    }
    assert a.hops == b.hops;
  }

  /** On success the jump list is the post-order of the tree of hops, whatever hosts were being resolved already. */
  lemma JumpsAreFlattening(w: World, t: Target, seen: set<string>) returns (hops: seq<Tree>)
    requires Fresh(t) && Resolve(w, t, seen).Ok?
    ensures IsTree(w, Tree(Jump(t.host, t.user, t.port), hops))
    ensures Resolve(w, t, seen).value.jumps == Flatten(w, hops)
  {
    hide Resolve;
    hide WellFormedAt;
    hide ParseJump;
    hops := TreeOfTarget(w, t, seen);
  }

  lemma {:induction false} FlattenLast(w: World, trees: seq<Tree>)
    requires trees != [] && forall i :: 0 <= i < |trees| ==> IsTree(w, trees[i])
    ensures Lookup(w, trees[|trees| - 1].entry.host).Ok?
    ensures Flatten(w, trees) != [] && Flatten(w, trees)[|Flatten(w, trees)| - 1] == Resolved(w, trees[|trees| - 1].entry)
    decreases |trees|
  {
    hide HopsOf;
    hide ParseJump;
    hide Resolved;
    hide GoodHostName;
    assert IsTree(w, trees[0]) && IsTree(w, trees[|trees| - 1]);
    if |trees| == 1 {
      assert Flatten(w, trees[1..]) == [];
    } else {
      assert trees[1..][|trees| - 2] == trees[|trees| - 1];
      FlattenLast(w, trees[1..]);
    }
  }

  lemma LastTree(w: World, entries: seq<string>, trees: seq<Tree>, j: Jump)
    requires TreesFor(w, entries, trees) && entries != [] && ParseJump(entries[|entries| - 1]) == Ok(j)
    ensures trees != [] && trees[|trees| - 1].entry == j
    ensures forall i :: 0 <= i < |trees| ==> IsTree(w, trees[i])
  {
    hide ParseJump;
    hide IsTree;
  }

  lemma ResolvedIs(w: World, j: Jump)
    requires Lookup(w, j.host).Ok?
    ensures var r := Lookup(w, j.host).value;
            Resolved(w, j) == Jump(
              if r.hostName != "" then ToLower(TrimSpace(r.hostName)) else j.host,
              if j.user != "" then j.user else r.user,
              if j.port != "" then j.port else r.port)
  {
    hide Lookup;
    hide ToLower;
    hide TrimSpace;
  }

  /** The last entry of a ProxyJump value is the last jump, with the user and port written there. */
  lemma LastEntryIsLastJump(w: World, entries: seq<string>, seen: set<string>, j: Jump)
    requires EntriesKnown(w, entries) && ResolveEntries(w, entries, seen).Ok?
    requires entries != [] && ParseJump(entries[|entries| - 1]) == Ok(j)
    ensures Lookup(w, j.host).Ok? && ResolveEntries(w, entries, seen).value != []
    ensures var jumps, r := ResolveEntries(w, entries, seen).value, Lookup(w, j.host).value;
            jumps[|jumps| - 1] == Jump(
              if r.hostName != "" then ToLower(TrimSpace(r.hostName)) else j.host,
              if j.user != "" then j.user else r.user,
              if j.port != "" then j.port else r.port)
  {
    hide *;
    var trees := TreesOfEntries(w, entries, seen);
    LastTree(w, entries, trees, j);
    FlattenLast(w, trees);
    ResolvedIs(w, j);
  }

  /** The resolved target, field by field. */
  lemma ResolvedTarget(w: World, t: Target, seen: set<string>)
    requires t.host == t.requestedHost && t.jumps == [] && t.hostKeyAlias == "" && !t.fromConfig
    requires Resolve(w, t, seen).Ok?
    ensures Lookup(w, t.host).Ok? && t.host !in seen
    ensures var a, r := Resolve(w, t, seen).value, Lookup(w, t.host).value;
            && a.requestedHost == t.requestedHost
            && a.host == (if r.hostName != "" then ToLower(TrimSpace(r.hostName)) else t.host)
            && a.user == (if t.user != "" then t.user else r.user)
            && a.port == (if t.port != "" then t.port else r.port)
            && a.hostKeyAlias == (if r.hostKeyAlias != "" then r.hostKeyAlias else if a.host != t.host then t.host else "")
            && (a.fromConfig <==> a.host != t.host || a.user != t.user || a.port != t.port || r.hostKeyAlias != ""
                                  || HopsOf(w, t.host) != [])
  {
    hide ParseJump;
    hide ToLower;
    hide TrimSpace;
    hide ApplyAlias;
    hide ResolveEntries;
    hide JumpHosts;
    hide Lookup;
    var r := Lookup(w, t.host).value;
    AliasFields(t, r);
    if HasJumps(r) {
      LookupIsKnown(w, t.host);
    }
  }
}
