/** The startup ACL cache: two yes-or-no answers a path, kept as long as the path's state is unchanged. */
module AclHealthCache {
  import opened Wrappers
  import opened Acl
  import opened Text

  datatype PathState = PathState(device: nat, inode: nat, mode: nat, uid: nat, gid: nat, ctimeSec: int, ctimeNsec: int)

  datatype Entry = Entry(state: PathState, devGroupInheritable: bool, agentTraverse: bool)

  type Entries = map<string, Entry>

  /** The host at one moment: the state of a path, unless it cannot be taken, and what reading its ACL gives. */
  datatype Host = Host(state: string -> Option<PathState>, read: string -> ReadResult)

  /** The state of a path determines what reading its ACL gives: `law` says what. */
  type Law = (string, PathState) -> ReadResult

  ghost predicate Follows(host: Host, law: Law) {
    forall p :: host.state(p).Some? ==> host.read(p) == law(p, host.state(p).value)
  }

  function RowsOf(e: Entry): seq<Row> {
    (if e.devGroupInheritable then [AclSyntheticRowForGrant(DEVINHERITABLE)] else [])
    + if e.agentTraverse then [AclSyntheticRowForGrant(AGENTTRAVERSE)] else []
  }

  function EntryFor(state: PathState, rows: seq<Row>): Entry {
    Entry(state, AclRowsSatisfy(rows, DEVINHERITABLE), HomeHasAgentTraverse(rows))
  }

  predicate Hit(entries: Entries, host: Host, p: string) {
    p in entries && host.state(p) == Some(entries[p].state)
  }

  function Answer(entries: Entries, host: Host, p: string): ReadResult {
    if Hit(entries, host, p) then ReadResult(RowsOf(entries[p]), true) else host.read(p)
  }

  predicate Storable(host: Host, p: string) {
    host.read(p).ok && host.state(p).Some?
  }

  /** The entries after reading `paths`: hits stay, misses are stored when they can be, all other paths are dropped. */
  function Updated(entries: Entries, host: Host, paths: set<string>): Entries {
    map p | p in paths && (Hit(entries, host, p) || Storable(host, p)) ::
      if Hit(entries, host, p) then entries[p] else EntryFor(host.state(p).value, host.read(p).rows)
  }

  /** Both agree on success and on the two questions asked at startup. */
  predicate SameAnswers(a: ReadResult, b: ReadResult) {
    && a.ok == b.ok
    && (AclRowsSatisfy(a.rows, DEVINHERITABLE) <==> AclRowsSatisfy(b.rows, DEVINHERITABLE))
    && (HomeHasAgentTraverse(a.rows) <==> HomeHasAgentTraverse(b.rows))
  }

  /** An entry answers as a read in its state would. */
  ghost predicate Sound(law: Law, entries: Entries) {
    forall p :: p in entries ==>
      law(p, entries[p].state).ok && entries[p] == EntryFor(entries[p].state, law(p, entries[p].state).rows)
  }

  lemma SyntheticRows()
    ensures forall r :: r == AclSyntheticRowForGrant(DEVINHERITABLE) ==>
              Satisfies(r, DEVINHERITABLE) && Satisfies(r, DEVPLAIN) && !Satisfies(r, AGENTTRAVERSE)
    ensures forall r :: r == AclSyntheticRowForGrant(AGENTTRAVERSE) ==>
              !Satisfies(r, DEVINHERITABLE) && !Satisfies(r, DEVPLAIN) && Satisfies(r, AGENTTRAVERSE) && GrantsPerm(r, "execute")
  {
    assert DEVGROUP[0] != AGENTTRAVERSE.principal[0];
    var agent := AclSyntheticRowForGrant(AGENTTRAVERSE);
    assert AclPermAliases("execute")[0] == "execute";
    assert agent.perms[0] == "execute";
    assert "execute" in AclPermAliases("execute") && "execute" in agent.perms;
    assert GrantsPerm(agent, "execute");
  }

  lemma RowsHold(e: Entry)
    ensures forall r :: r in RowsOf(e) <==>
              (e.devGroupInheritable && r == AclSyntheticRowForGrant(DEVINHERITABLE))
              || (e.agentTraverse && r == AclSyntheticRowForGrant(AGENTTRAVERSE))
  {
  }

  /** The rows a hit gives, for the dev group with inheritance and for the agent without. */
  lemma CachedRowsAre(e: Entry)
    ensures RowsOf(e) ==
            (if e.devGroupInheritable then
               [Row(0, "group:dev", Allow, ["read", "write", "execute", "append", "delete", "delete_child",
                    "readattr", "writeattr", "readextattr", "writeextattr", "readsecurity"], true)]
             else [])
            + (if e.agentTraverse then [Row(0, "user:agent", Allow, ["execute", "readattr", "readextattr", "readsecurity"], false)]
               else [])
  {
    assert DEVPERMS == ["read", "write", "execute", "append", "delete", "delete_child",
                        "readattr", "writeattr", "readextattr", "writeextattr", "readsecurity"];
  }

  /** The synthetic rows give back the two flags, and nothing else by accident. */
  lemma RowsAnswer(e: Entry)
    ensures AclRowsSatisfy(RowsOf(e), DEVINHERITABLE) <==> e.devGroupInheritable
    ensures AclRowsSatisfy(RowsOf(e), DEVPLAIN) <==> e.devGroupInheritable
    ensures HomeHasAgentTraverse(RowsOf(e)) <==> e.agentTraverse
  {
    SyntheticRows();
    RowsHold(e);
    hide RowsOf;
    hide AclSyntheticRowForGrant;
    hide Satisfies;
    hide GrantsPerm;
    assert e.devGroupInheritable ==> AclSyntheticRowForGrant(DEVINHERITABLE) in RowsOf(e);
    assert e.agentTraverse ==> AclSyntheticRowForGrant(AGENTTRAVERSE) in RowsOf(e);
  }

  lemma AnswerAgrees(law: Law, entries: Entries, host: Host, p: string)
    requires Follows(host, law) && Sound(law, entries)
    ensures SameAnswers(Answer(entries, host, p), host.read(p))
  {
    if Hit(entries, host, p) {
      RowsAnswer(entries[p]);
    }
  }

  lemma UpdatedSound(law: Law, entries: Entries, host: Host, paths: set<string>)
    requires Follows(host, law) && Sound(law, entries)
    ensures Sound(law, Updated(entries, host, paths))
  {
    hide AclRowsSatisfy;
    hide HomeHasAgentTraverse;
  }

  /** Reading again on an unchanged host reads no ACL but those that cannot be stored. */
  lemma SecondReadHits(entries: Entries, host: Host, paths: set<string>, p: string)
    requires p in paths
    ensures Storable(host, p) ==> Hit(Updated(entries, host, paths), host, p)
    ensures Updated(Updated(entries, host, paths), host, paths) == Updated(entries, host, paths)
  {
    hide AclRowsSatisfy;
    hide HomeHasAgentTraverse;
    var once := Updated(entries, host, paths);
    forall q | q in paths
      ensures Hit(once, host, q) <==> Hit(entries, host, q) || Storable(host, q)
    {
    }
  }

  /** One read of a run: the cache file may be lost, found in a state that reads as empty, or fail to be saved. */
  datatype Call = Call(host: Host, paths: set<string>)

  ghost predicate IsRun(law: Law, files: seq<Entries>, calls: seq<Call>) {
    && |files| == |calls| + 1
    && (forall i :: 0 <= i < |calls| ==> Follows(calls[i].host, law))
    && forall i :: 0 <= i < |calls| ==>
         files[i + 1] in {map[], files[i], Updated(files[i], calls[i].host, calls[i].paths),
                          Updated(map[], calls[i].host, calls[i].paths)}
  }

  lemma {:induction false} RunStaysSound(law: Law, files: seq<Entries>, calls: seq<Call>, k: nat)
    requires IsRun(law, files, calls) && Sound(law, files[0]) && k <= |calls|
    ensures Sound(law, files[k])
  {
    if k > 0 {
      RunStaysSound(law, files, calls, k - 1);
      UpdatedSound(law, files[k - 1], calls[k - 1].host, calls[k - 1].paths);
      UpdatedSound(law, map[], calls[k - 1].host, calls[k - 1].paths);
      hide Updated;
      hide Sound;
      assert Sound(law, map[]) by {
        EmptyIsSound(law);
      }
    }
  }

  lemma EmptyIsSound(law: Law)
    ensures Sound(law, map[])
  {
  }

  /** Over any run of cached reads, with any changes to the host between them, every answer agrees with a fresh read. */
  lemma RunAnswersAgree(law: Law, files: seq<Entries>, calls: seq<Call>, k: nat, p: string)
    requires IsRun(law, files, calls) && Sound(law, files[0]) && k < |calls|
    ensures SameAnswers(Answer(files[k], calls[k].host, p), calls[k].host.read(p))
  {
    RunStaysSound(law, files, calls, k);
    hide Sound;
    hide Answer;
    AnswerAgrees(law, files[k], calls[k].host, p);
  }

  /** Other questions are not answered: a hit answers for the plain dev-group grant as if only inheritable rows
      counted. */
  lemma PlainGrantAnswer(law: Law, entries: Entries, host: Host, p: string)
    requires Follows(host, law) && Sound(law, entries) && Hit(entries, host, p)
    ensures AclRowsSatisfy(Answer(entries, host, p).rows, DEVPLAIN) <==> AclRowsSatisfy(host.read(p).rows, DEVINHERITABLE)
  {
    RowsAnswer(entries[p]);
    hide AclRowsSatisfy;
    hide HomeHasAgentTraverse;
    hide RowsOf;
  }

  /** What a hit answers for any grant: only inheritable dev-group rows and the agent's traverse row count. */
  lemma GrantAnswer(law: Law, entries: Entries, host: Host, p: string, g: Grant)
    requires Follows(host, law) && Sound(law, entries) && Hit(entries, host, p)
    ensures AclRowsSatisfy(Answer(entries, host, p).rows, g) <==>
            || (g.principal == DEVGROUP && AclRowsSatisfy(host.read(p).rows, DEVINHERITABLE))
            || (g.principal == AGENTTRAVERSE.principal && !g.inherit && HomeHasAgentTraverse(host.read(p).rows))
  {
    var e := entries[p];
    RowsHold(e);
    assert e == EntryFor(e.state, host.read(p).rows);
    SyntheticSatisfies(g);
    hide AclSyntheticRowForGrant;
    hide Satisfies;
    hide RowsOf;
    hide HomeHasAgentTraverse;
    var dev, agent := AclSyntheticRowForGrant(DEVINHERITABLE), AclSyntheticRowForGrant(AGENTTRAVERSE);
    assert e.devGroupInheritable ==> dev in RowsOf(e);
    assert e.agentTraverse ==> agent in RowsOf(e);
  }

  lemma SyntheticSatisfies(g: Grant)
    ensures Satisfies(AclSyntheticRowForGrant(DEVINHERITABLE), g) <==> g.principal == DEVGROUP
    ensures Satisfies(AclSyntheticRowForGrant(AGENTTRAVERSE), g) <==> g.principal == AGENTTRAVERSE.principal && !g.inherit
  {
  }

  /** Exactly when a hit and a fresh read agree on a grant: the fresh read denies it, or one of those rows grants it. */
  lemma HitAgreesIff(law: Law, entries: Entries, host: Host, p: string, g: Grant)
    requires Follows(host, law) && Sound(law, entries) && Hit(entries, host, p)
    ensures (AclRowsSatisfy(Answer(entries, host, p).rows, g) <==> AclRowsSatisfy(host.read(p).rows, g)) <==>
            || !AclRowsSatisfy(host.read(p).rows, g)
            || (g.principal == DEVGROUP && AclRowsSatisfy(host.read(p).rows, DEVINHERITABLE))
            || (g.principal == AGENTTRAVERSE.principal && !g.inherit && HomeHasAgentTraverse(host.read(p).rows))
  {
    GrantAnswer(law, entries, host, p, g);
    CountedRowsGrant(host.read(p).rows, g);
    hide *;
  }

  lemma CountedRowsGrant(rows: seq<Row>, g: Grant)
    ensures g.principal == DEVGROUP && AclRowsSatisfy(rows, DEVINHERITABLE) ==> AclRowsSatisfy(rows, g)
    ensures g.principal == AGENTTRAVERSE.principal && !g.inherit && HomeHasAgentTraverse(rows) ==> AclRowsSatisfy(rows, g)
  {
    hide GrantsPerm;
    if g.principal == DEVGROUP && AclRowsSatisfy(rows, DEVINHERITABLE) {
      var r :| r in rows && Satisfies(r, DEVINHERITABLE);
      assert Satisfies(r, g);
    }
    if g.principal == AGENTTRAVERSE.principal && !g.inherit && HomeHasAgentTraverse(rows) {
      var r :| r in rows && Satisfies(r, AGENTTRAVERSE) && GrantsPerm(r, "execute");
      assert Satisfies(r, g);
    }
  }

  /** A file with one plain dev-group row: a fresh read finds the grant, a hit does not. */
  lemma PlainGrantMissed(law: Law, entries: Entries, host: Host, p: string, row: Row)
    requires Follows(host, law) && Sound(law, entries) && Hit(entries, host, p)
    requires host.read(p).rows == [row] && Satisfies(row, DEVPLAIN) && !row.inherit
    ensures AclRowsSatisfy(host.read(p).rows, DEVPLAIN) && !AclRowsSatisfy(Answer(entries, host, p).rows, DEVPLAIN)
  {
    assert row in host.read(p).rows;
    PlainGrantAnswer(law, entries, host, p);
  }

  // ---- in place -----------------------------------------------------------------------------------------------

  method UniqueACLPaths(paths: seq<string>) returns (unique: seq<string>)
    ensures unique == Unique(paths)
  {
    unique := [];
    var seen: set<string> := {};
    for i := 0 to |paths|
      invariant unique == Unique(paths[..i])
      invariant forall p :: p in seen <==> p in unique
    {
      assert paths[..i + 1][..i] == paths[..i];
      if paths[i] == "" {
        continue;
      }
      if paths[i] in seen {
        continue;
      }
      seen := seen + {paths[i]};
      unique := unique + [paths[i]];
    }
    assert paths[..|paths|] == paths;
  }

  class StartupCache {
    var entries: Entries

    constructor (entries: Entries)
      ensures this.entries == entries
    {
      this.entries := entries;
    }

    method ResultForPath(host: Host, p: string) returns (r: Option<ReadResult>)
      ensures r == if Hit(entries, host, p) then Some(Answer(entries, host, p)) else None
    {
      if p !in entries {
        return None;
      }
      var state := host.state(p);
      if state != Some(entries[p].state) {
        return None;
      }
      return Some(ReadResult(RowsOf(entries[p]), true));
    }

    method UpdateFromResults(host: Host, results: map<string, ReadResult>) returns (changed: bool)
      modifies this
      ensures forall p :: p !in results ==> (p in entries <==> p in old(entries)) && (p in entries ==> entries[p] == old(entries)[p])
      ensures forall p :: p in results ==> (p in entries <==> results[p].ok && host.state(p).Some?)
      ensures forall p :: p in results && p in entries ==> entries[p] == EntryFor(host.state(p).value, results[p].rows)
      ensures !changed ==> entries == old(entries)
    {
      hide EntryFor;
      changed := false;
      var rest := results.Keys;
      while rest != {}
        invariant rest <= results.Keys
        invariant forall p :: p !in results || p in rest ==>
                    (p in entries <==> p in old(entries)) && (p in entries ==> entries[p] == old(entries)[p])
        invariant forall p :: p in results && p !in rest ==> (p in entries <==> results[p].ok && host.state(p).Some?)
        invariant forall p :: p in results && p !in rest && p in entries ==>
                    entries[p] == EntryFor(host.state(p).value, results[p].rows)
        invariant !changed ==> entries == old(entries)
      {
        var p :| p in rest;
        rest := rest - {p};
        if !results[p].ok || host.state(p) == None {
          if p in entries {
            entries := entries - {p};
            changed := true;
          }
          continue;
        }
        var entry := EntryFor(host.state(p).value, results[p].rows);
        if p !in entries || entries[p] != entry {
          entries := entries[p := entry];
          changed := true;
        }
      }
    }

    method RetainPaths(paths: seq<string>) returns (changed: bool)
      modifies this
      ensures entries == map p | p in old(entries) && p in paths && p != "" :: old(entries)[p]
      ensures !changed ==> entries == old(entries)
    {
      if entries == map[] {
        return false;
      }
      changed := false;
      var rest := entries.Keys;
      while rest != {}
        invariant rest <= old(entries).Keys
        invariant entries == map p | p in old(entries) && (p in rest || (p in paths && p != "")) :: old(entries)[p]
        invariant !changed ==> entries == old(entries)
      {
        var p :| p in rest;
        rest := rest - {p};
        if p in paths && p != "" {
          continue;
        }
        entries := entries - {p};
        changed := true;
      }
    }
  }

  class StartupACLs {
    const off: bool
    var file: Entries

    constructor (off: bool, file: Entries)
      ensures this.off == off && this.file == file
    {
      this.off, this.file := off, file;
    }

    /** A file that cannot be read or decoded reads as empty. */
    method LoadStartupACLHealthCache() returns (cache: StartupCache)
      ensures fresh(cache) && cache.entries in {map[], file}
    {
      var fine: bool := *;
      cache := new StartupCache(if fine then file else map[]);
    }

    method SaveStartupACLHealthCache(cache: StartupCache)
      modifies this
      ensures file in {old(file), cache.entries}
    {
      var fine: bool := *;
      if fine {
        file := cache.entries;
      }
    }

    method ReadFresh(host: Host, paths: seq<string>) returns (results: map<string, ReadResult>)
      ensures results == map p | p in paths :: host.read(p)
    {
      results := map p | p in paths :: host.read(p);
    }

    /** The paths the cache answers for, and the others. */
    method LookUp(cache: StartupCache, host: Host, unique: seq<string>)
      returns (results: map<string, ReadResult>, misses: seq<string>)
      ensures forall p :: p in results <==> p in unique && Hit(cache.entries, host, p)
      ensures forall p :: p in misses <==> p in unique && !Hit(cache.entries, host, p)
      ensures forall p :: p in results ==> results[p] == Answer(cache.entries, host, p)
    {
      hide RowsOf;
      results, misses := map[], [];
      for i := 0 to |unique|
        invariant forall p :: p in results <==> p in unique[..i] && Hit(cache.entries, host, p)
        invariant forall p :: p in misses <==> p in unique[..i] && !Hit(cache.entries, host, p)
        invariant forall p :: p in results ==> results[p] == Answer(cache.entries, host, p)
      {
        assert unique[..i + 1] == unique[..i] + [unique[i]];
        var result := cache.ResultForPath(host, unique[i]);
        if result.Some? {
          results := results[unique[i] := result.value];
          continue;
        }
        misses := misses + [unique[i]];
      }
      assert unique[..|unique|] == unique;
    }

    /** The cached read, against the plain one. */
    method ReadStartupACLsForPaths(host: Host, paths: seq<string>, ghost law: Law) returns (results: map<string, ReadResult>)
      requires Follows(host, law) && Sound(law, file)
      modifies this
      ensures results.Keys == set p | p in paths && p != ""
      ensures forall p :: p in results ==> SameAnswers(results[p], host.read(p))
      ensures Sound(law, file)
      ensures file in {old(file), Updated(old(file), host, results.Keys), Updated(map[], host, results.Keys)}
    {
      var unique := UniqueACLPaths(paths);
      UniqueHolds(paths);
      hide *;
      results := map[];
      if unique == [] {
        return;
      }
      if off {
        results := ReadFresh(host, unique);
        AgreeWithThemselves(host, results);
        return;
      }
      var cache := LoadStartupACLHealthCache();
      ghost var loaded := cache.entries;
      EmptyIsSound(law);
      var misses;
      results, misses := LookUp(cache, host, unique);
      ghost var hits := results;
      var changed := false;
      ghost var read: map<string, ReadResult> := map[];
      if misses != [] {
        var read' := ReadFresh(host, misses);
        read := read';
        results := results + read';
        changed := cache.UpdateFromResults(host, read');
      }
      ghost var stored := cache.entries;
      var dropped := cache.RetainPaths(unique);
      IsUpdated(loaded, stored, cache.entries, host, unique, read, results.Keys);
      UpdatedSound(law, loaded, host, results.Keys);
      if changed || dropped {
        SaveStartupACLHealthCache(cache);
      }
      AllAgree(law, loaded, host, hits, read, results);
    }
  }

  lemma IsUpdated(loaded: Entries, stored: Entries, kept: Entries, host: Host, unique: seq<string>,
                  read: map<string, ReadResult>, paths: set<string>)
    requires forall p :: p in read <==> p in unique && !Hit(loaded, host, p)
    requires forall p :: p in read ==> read[p] == host.read(p)
    requires forall p :: p !in read ==> (p in stored <==> p in loaded) && (p in stored ==> stored[p] == loaded[p])
    requires forall p :: p in read ==> (p in stored <==> read[p].ok && host.state(p).Some?)
    requires forall p :: p in read && p in stored ==> stored[p] == EntryFor(host.state(p).value, read[p].rows)
    requires kept == map p | p in stored && p in unique && p != "" :: stored[p]
    requires "" !in unique && paths == set p | p in unique
    ensures kept == Updated(loaded, host, paths)
  {
    hide EntryFor;
  }

  lemma AllAgree(law: Law, loaded: Entries, host: Host, hits: map<string, ReadResult>, read: map<string, ReadResult>,
                 results: map<string, ReadResult>)
    requires Follows(host, law) && Sound(law, loaded) && results == hits + read
    requires forall p :: p in hits ==> hits[p] == Answer(loaded, host, p)
    requires forall p :: p in read ==> read[p] == host.read(p)
    ensures forall p :: p in results ==> SameAnswers(results[p], host.read(p))
  {
    hide Sound;
    hide Answer;
    AgreeWithThemselves(host, read);
    hide SameAnswers;
    forall p | p in results
      ensures SameAnswers(results[p], host.read(p))
    {
      if p !in read {
        AnswerAgrees(law, loaded, host, p);
      }
    }
  }

  lemma AgreeWithThemselves(host: Host, results: map<string, ReadResult>)
    requires forall p :: p in results ==> results[p] == host.read(p)
    ensures forall p :: p in results ==> SameAnswers(results[p], host.read(p))
  {
  }

  /** A run is a file, or a run and one more call on its last file, which was read or not and written or not. */
  lemma RunsAre(law: Law, file: Entries, files: seq<Entries>, calls: seq<Call>, next: Entries, call: Call)
    requires files != []
    ensures IsRun(law, [file], [])
    ensures IsRun(law, files + [next], calls + [call]) <==>
            var last := files[|files| - 1];
            && IsRun(law, files, calls) && Follows(call.host, law)
            && next in {map[], last, Updated(last, call.host, call.paths), Updated(map[], call.host, call.paths)}
  {
    hide Updated;
    hide Follows;
    var n, more, all := |calls|, files + [next], calls + [call];
    if IsRun(law, more, all) {
      assert all[n] == call && more[n] == files[|files| - 1] && more[n + 1] == next;
      forall i | 0 <= i < n
        ensures Follows(calls[i].host, law)
        ensures files[i + 1] in {map[], files[i], Updated(files[i], calls[i].host, calls[i].paths),
                                 Updated(map[], calls[i].host, calls[i].paths)}
      {
        assert all[i] == calls[i] && more[i] == files[i] && more[i + 1] == files[i + 1];
      }
    }
  }
}
