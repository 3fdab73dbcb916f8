/** The credential syncs in place. Reads, writes and clears take their answers from the script. */
module CredentialSyncer {
  import opened Wrappers
  import opened Faults
  import opened CredentialSync
  import opened CredentialFreshest

  datatype Support = Supported | AdapterRequired | NoDelivery | Unknown

  class Syncer {
    const support: Support
    var store: Endpoint
    var cache: Option<Endpoint>
    var sinks: seq<Endpoint>
    var script: Script

    constructor (support: Support, s: State, script: Script)
      ensures this.support == support && Now() == s && this.script == script
    {
      this.support, this.script := support, script;
      store, cache, sinks := s.store, s.cache, s.sinks;
    }

    ghost function Now(): State
      reads this
    {
      State(store, cache, sinks)
    }

    method Attempt() returns (r: Outcome)
      modifies this`script
      ensures r == Answer(old(script)) && script == After(old(script))
    {
      if script == [] {
        return Stopped;
      }
      r := if script[0] then Done else Failed;
      script := script[1..];
    }

    /** `syncReadEndpoints`: the first failing read ends it. */
    method SyncReadEndpoints(endpoints: seq<Endpoint>) returns (r: Outcome, out: seq<Material>)
      modifies this`script
      ensures r == Done ==> out == Offers(endpoints)
      ensures Used(old(script), script, r == Stopped, |endpoints|) && (Faultless(old(script)) ==> r != Failed)
    {
      hide *;
      r, out := Done, [];
      assert endpoints[0..] == endpoints;
      assert out + Offers(endpoints) == Offers(endpoints);
      UsedSelf(script);
      for i := 0 to |endpoints|
        invariant r == Done && out + Offers(endpoints[i..]) == Offers(endpoints)
        invariant Used(old(script), script, false, i)
      {
        var endpoint := endpoints[i];
        ghost var rest := Offers(endpoints[i + 1..]);
        OffersFrom(endpoints, i);
        OfferIs(endpoint);
        assert [] + rest == rest;
        UsedLess(old(script), script, false, i, i + 1);
        UsedLess(old(script), script, false, i, |endpoints|);
        if !endpoint.canRead {
          continue;
        }
        UsedNext(old(script), script, i, |endpoints|);
        r := Attempt();
        if r != Done {
          return;
        }
        if endpoint.held == None || !endpoint.held.value.valid {
          continue;
        }
        assert out + ([endpoint.held.value] + rest) == out + [endpoint.held.value] + rest;
        out := out + [endpoint.held.value];
      }
      NoOffers();
      assert endpoints[|endpoints|..] == [] && out + [] == out;
    }

    method WriteValue(e: Endpoint, v: Material) returns (r: Outcome, e': Endpoint)
      modifies this`script
      ensures if r == Done then Put(e, e', v) else e' == e
      ensures Used(old(script), script, r == Stopped, 1)
      ensures Faultless(old(script)) && e.canWrite ==> r != Failed
    {
      UsedSelf(script);
      UsedNext(script, script, 0, 1);
      UsedLess(script, script, false, 0, 1);
      hide Used;
      if !e.canWrite {
        return Failed, e;
      }
      r := Attempt();
      e' := if r == Done then e.(held := Some(v)) else e;
    }

    /** Store, then host cache. */
    method WriteBoth(v: Material) returns (r: Outcome)
      modifies this`store, this`cache, this`script
      ensures r == Done ==> Put(old(store), store, v) && CachePut(old(Now()), Now(), v)
      ensures r != Done ==> cache == old(cache) && (store == old(store) || Put(old(store), store, v))
      ensures Used(old(script), script, r == Stopped, 2)
      ensures Faultless(old(script)) && Writable(old(Now())) ==> r != Failed
    {
      hide Used;
      ghost var first := script;
      r, store := WriteValue(store, v);
      UsedLess(first, script, r == Stopped, 1, 2);
      if r != Done || cache == None {
        return;
      }
      ghost var second := script;
      UsedCalm(first, second, false, 1);
      var written;
      r, written := WriteValue(cache.value, v);
      UsedThen(first, second, script, r == Stopped, 1, 1, 2);
      if r == Done {
        cache := Some(written);
      }
    }

    /** Every sink is written; the first failure ends it. */
    method WriteSinks(v: Material) returns (r: Outcome)
      modifies this`sinks, this`script
      ensures SameOrPut(old(sinks), sinks, v)
      ensures r == Done ==> forall i :: 0 <= i < |sinks| ==> sinks[i].held == Some(v)
      ensures Used(old(script), script, r == Stopped, |sinks|)
      ensures Faultless(old(script)) && (forall i :: 0 <= i < |old(sinks)| ==> old(sinks)[i].canWrite) ==> r != Failed
    {
      ghost var s, first := sinks, script;
      r := Done;
      UsedSelf(script);
      hide Used;
      for i := 0 to |sinks|
        invariant |sinks| == |s| && r == Done
        invariant forall j :: 0 <= j < i ==> Put(s[j], sinks[j], v)
        invariant forall j :: i <= j < |sinks| ==> sinks[j] == s[j]
        invariant Used(first, script, false, i)
      {
        ghost var before := script;
        UsedCalm(first, before, false, i);
        var written;
        r, written := WriteValue(sinks[i], v);
        UsedThen(first, before, script, r == Stopped, i, 1, |s|);
        if r != Done {
          return;
        }
        sinks := sinks[i := written];
      }
    }

    /** With enough working operations ahead and endpoints that can be written, it finishes unless the values conflict. */
    method SyncCredentialBeforeLaunch() returns (r: Outcome, conflict: bool)
      modifies this
      ensures BeforeBetween(old(Now()), Now())
      ensures support != Supported ==> r == Failed && !conflict && Now() == old(Now())
      ensures conflict ==> r == Failed && Choose(BeforeCandidates(old(Now()))).Conflict? && Now() == old(Now())
      ensures r == Done ==> !Choose(BeforeCandidates(old(Now()))).Conflict?
      ensures r == Done ==> Synced(Choose(BeforeCandidates(old(Now()))), Now())
      ensures r == Done ==> Launched(old(Now()), Now())
      ensures support == Supported && Calm(old(script), 4 + |old(sinks)|) && AllWritable(old(Now()))
              ==> (r == Failed && conflict) || (r == Done && !conflict)
    {
      ghost var s, first := Now(), script;
      conflict := false;
      if support != Supported {
        return Failed, false;
      }
      var out;
      assert [store] + (if cache.Some? then [cache.value] else []) == [s.store] + CacheList(s);
      r, out := SyncReadEndpoints([store] + (if cache.Some? then [cache.value] else []));
      assert |[s.store] + CacheList(s)| <= 2;
      UsedLess(first, script, r == Stopped, |[s.store] + CacheList(s)|, 2);
      UsedCalm(first, script, r == Stopped, 2);
      hide Used;
      if r != Done {
        return;
      }
      var choice := ChooseCredentialSyncLatest(out);
      assert choice == Choose(BeforeCandidates(s));
      hide Choose;
      hide BeforeCandidates;
      if choice.Conflict? {
        return Failed, true;
      }
      if choice.Nothing? {
        LaunchDone(s, s);
        return;
      }
      ghost var second := script;
      r := WriteBoth(choice.value);
      UsedCalm(second, script, r == Stopped, 2);
      assert SameOrPut(s.sinks, s.sinks, choice.value);
      if r != Done {
        return;
      }
      ghost var third := script;
      r := WriteSinks(choice.value);
      UsedCalm(third, script, r == Stopped, |sinks|);
      if r == Done {
        LaunchDone(s, Now());
      }
    }

    /** With enough working operations ahead, and store and cache writable, it finishes unless the values conflict. */
    method SyncCredentialAfterExit() returns (r: Outcome, conflict: bool)
      modifies this
      ensures AfterBetween(old(Now()), Now())
      ensures support != Supported ==> r == Failed && !conflict && Now() == old(Now())
      ensures conflict ==> r == Failed && Choose(AfterCandidates(old(Now()))).Conflict? && Now() == old(Now())
      ensures r == Done ==> !Choose(AfterCandidates(old(Now()))).Conflict?
      ensures r == Done && Choose(AfterCandidates(old(Now()))).Best? ==> BothHold(Now(), Choose(AfterCandidates(old(Now()))).value)
      ensures r == Done ==> Exited(old(Now()), Now())
      ensures support == Supported && Calm(old(script), 4 + 2 * |old(sinks)|) && Writable(old(Now()))
              ==> (r == Failed && conflict) || (r == Done && !conflict)
    {
      ghost var s, first := Now(), script;
      conflict := false;
      StandingStill(s);
      if support != Supported {
        return Failed, false;
      }
      var endpoints := [store];
      if cache.Some? {
        endpoints := endpoints + [cache.value];
      }
      endpoints := endpoints + sinks;
      assert endpoints == [s.store] + CacheList(s) + s.sinks;
      var out;
      r, out := SyncReadEndpoints(endpoints);
      UsedLess(first, script, r == Stopped, |endpoints|, 2 + |s.sinks|);
      UsedCalm(first, script, r == Stopped, 2 + |s.sinks|);
      hide Used;
      if r != Done {
        return;
      }
      var choice := ChooseCredentialSyncLatest(out);
      assert choice == Choose(AfterCandidates(s));
      hide Choose;
      hide AfterCandidates;
      if choice.Conflict? {
        return Failed, true;
      }
      if choice.Best? {
        ghost var second := script;
        r := WriteBoth(choice.value);
        UsedCalm(second, script, r == Stopped, 2);
        if r != Done {
          return;
        }
      }
      assert SameOrCleared(sinks, sinks);
      ghost var third := script;
      r := ClearCredentialSyncAgentSinks();
      UsedCalm(third, script, r == Stopped, |sinks|);
      if r == Done {
        ExitDone(s, Now());
      }
    }

    /** Every sink is tried; failures are joined and reported at the end. */
    method ClearCredentialSyncAgentSinks() returns (r: Outcome)
      modifies this`sinks, this`script
      ensures SameOrCleared(old(sinks), sinks)
      ensures r == Done ==> forall i :: 0 <= i < |sinks| ==> sinks[i].canClear ==> sinks[i].held == None
      ensures Used(old(script), script, r == Stopped, |sinks|) && (Faultless(old(script)) ==> r != Failed)
    {
      ghost var s, first := sinks, script;
      r := Done;
      UsedSelf(script);
      hide Used;
      for i := 0 to |sinks|
        invariant |sinks| == |s| && r != Stopped
        invariant forall j :: 0 <= j < i ==> sinks[j] == s[j] || (s[j].canClear && sinks[j] == s[j].(held := None))
        invariant forall j :: i <= j < |sinks| ==> sinks[j] == s[j]
        invariant r == Done ==> forall j :: 0 <= j < i ==> sinks[j].canClear ==> sinks[j].held == None
        invariant Used(first, script, false, i) && (Faultless(first) ==> r == Done)
      {
        UsedLess(first, script, false, i, i + 1);
        if !sinks[i].canClear {
          continue;
        }
        UsedNext(first, script, i, |s|);
        var cleared := Attempt();
        if cleared == Stopped {
          return Stopped;
        }
        if cleared == Done {
          sinks := sinks[i := sinks[i].(held := None)];
        } else {
          r := Failed;
        }
      }
    }
  }

  predicate AllWritable(s: State) {
    Writable(s) && forall i :: 0 <= i < |s.sinks| ==> s.sinks[i].canWrite
  }

  predicate BothHold(s: State, v: Material) {
    s.store.held == Some(v) && (s.cache.Some? ==> s.cache.value.held == Some(v))
  }

  /** Store, cache and every sink hold `v`. */
  predicate AllHold(s: State, v: Material) {
    BothHold(s, v) && forall i :: 0 <= i < |s.sinks| ==> s.sinks[i].held == Some(v)
  }

  predicate Synced(choice: Choice, s: State) {
    choice.Best? ==> AllHold(s, choice.value)
  }

  lemma LaunchDone(s: State, t: State)
    requires !Choose(BeforeCandidates(s)).Conflict? && Synced(Choose(BeforeCandidates(s)), t)
    requires Choose(BeforeCandidates(s)).Nothing? ==> t == s
    requires t.cache.Some? ==> s.cache.Some?
    ensures Launched(s, t)
  {
    assert [s.store] + CacheList(s) == [s.store] + if s.cache.Some? then [s.cache.value] else [];
    ChosenFromHeld([s.store] + CacheList(s));
    hide Choose;
    hide HeldBy;
  }

  lemma ExitDone(s: State, t: State)
    requires !Choose(AfterCandidates(s)).Conflict?
    requires Choose(AfterCandidates(s)).Best? ==> BothHold(t, Choose(AfterCandidates(s)).value)
    requires Choose(AfterCandidates(s)).Nothing? ==> t.store == s.store && t.cache == s.cache
    requires forall i :: 0 <= i < |t.sinks| ==> t.sinks[i].canClear ==> t.sinks[i].held == None
    ensures Exited(s, t)
  {
    assert [s.store] + CacheList(s) + s.sinks == [s.store] + (if s.cache.Some? then [s.cache.value] else []) + s.sinks;
    ChosenFromHeld([s.store] + CacheList(s) + s.sinks);
    hide Choose;
    hide HeldBy;
  }

  lemma OffersFrom(es: seq<Endpoint>, i: nat)
    requires i < |es|
    ensures Offers(es[i..]) == Offer(es[i]) + Offers(es[i + 1..])
  {
    assert es[i..][1..] == es[i + 1..];
  }

  lemma NoOffers()
    ensures Offers([]) == []
  {
  }

  lemma OfferIs(e: Endpoint)
    ensures Offer(e) == if e.canRead && e.held.Some? && e.held.value.valid then [e.held.value] else []
  {
  }

  lemma StandingStill(s: State)
    ensures AfterBetween(s, s)
  {
    hide Choose;
    assert SameOrCleared(s.sinks, s.sinks);
  }
}
