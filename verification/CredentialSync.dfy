/**
 The credential sync around a session: before launch the freshest value of
 store and host cache is written to both and to the agent sinks; after exit the
 freshest value of all endpoints is written back and the sinks are cleared.

 `BeforeBetween` and `AfterBetween` say what a sync stopped or failing anywhere
 may leave. Class `Syncer` runs the syncs in place; every read, write and clear
 may fail, and the process may be stopped before it.
 */
module CredentialSync {
  import opened Wrappers

  datatype Material = Material(secret: string, generation: int, updatedAt: int, valid: bool)

  /** One endpoint: what it holds and which of its three operations exist. */
  datatype Endpoint = Endpoint(held: Option<Material>, canRead: bool, canWrite: bool, canClear: bool)

  datatype State = State(store: Endpoint, cache: Option<Endpoint>, sinks: seq<Endpoint>)

  predicate Newer(a: Material, b: Material) {
    if a.generation != b.generation then a.generation > b.generation else a.updatedAt > b.updatedAt
  }

  predicate SameFreshness(a: Material, b: Material) {
    a.generation == b.generation && a.updatedAt == b.updatedAt
  }

  // ----- choosing the freshest value

  datatype Choice = Nothing | Best(value: Material) | Conflict

  /** The chooser's loop, with the best candidate so far. */
  function ChooseFrom(best: Choice, candidates: seq<Material>): Choice
    requires !best.Conflict?
    decreases |candidates|
  {
    if candidates == [] then best
    else
      var c := candidates[0];
      if best.Nothing? || Newer(c, best.value) then ChooseFrom(Best(c), candidates[1..])
      else if SameFreshness(c, best.value) && c.secret != best.value.secret then Conflict
      else ChooseFrom(best, candidates[1..])
  }

  function Choose(candidates: seq<Material>): Choice {
    ChooseFrom(Nothing, candidates)
  }

  method ChooseCredentialSyncLatest(candidates: seq<Material>) returns (r: Choice)
    ensures r == Choose(candidates)
  {
    r := Nothing;
    assert candidates[0..] == candidates;
    for i := 0 to |candidates|
      invariant !r.Conflict?
      invariant ChooseFrom(r, candidates[i..]) == Choose(candidates)
    {
      assert candidates[i..][1..] == candidates[i + 1..];
      var candidate := candidates[i];
      if r.Nothing? || Newer(candidate, r.value) {
        r := Best(candidate);
        continue;
      }
      if SameFreshness(candidate, r.value) && candidate.secret != r.value.secret {
        return Conflict;
      }
    }
  }

  /** Candidate `i` is the first of those before `j` that none of them is newer than. */
  ghost predicate FirstFreshest(c: seq<Material>, j: int, i: int)
    requires 0 <= j <= |c|
  {
    && 0 <= i < j
    && (forall k :: 0 <= k < j ==> !Newer(c[k], c[i]))
    && (forall k :: 0 <= k < i ==> Newer(c[i], c[k]))
  }

  /** Candidate `j` ties with the freshest before it but holds another secret. */
  ghost predicate Clashes(c: seq<Material>, j: int)
    requires 0 <= j < |c|
  {
    exists i :: FirstFreshest(c, j, i) && SameFreshness(c[j], c[i]) && c[j].secret != c[i].secret
  }

  lemma FirstFreshestUnique(c: seq<Material>, j: int, a: int, b: int)
    requires 0 <= j <= |c| && FirstFreshest(c, j, a) && FirstFreshest(c, j, b)
    ensures a == b
  {
    var x, y := c[a], c[b];
    assert !Newer(x, y) && !Newer(y, x);
    assert a < b ==> Newer(x, y);
    assert b < a ==> Newer(y, x);
  }

  lemma NewFreshest(c: seq<Material>, j: int, i: int)
    requires 0 <= i < j < |c| && FirstFreshest(c, j, i) && Newer(c[j], c[i])
    ensures FirstFreshest(c, j + 1, j)
  {
    forall k | 0 <= k < j
      ensures Newer(c[j], c[k]) && !Newer(c[k], c[j])
    {
      assert !Newer(c[k], c[i]);
    }
  }

  lemma SameFreshest(c: seq<Material>, j: int, i: int)
    requires 0 <= i < j < |c| && FirstFreshest(c, j, i) && !Newer(c[j], c[i])
    ensures FirstFreshest(c, j + 1, i)
  {
    hide Newer;
  }

  lemma ClashHere(c: seq<Material>, j: int, i: int)
    requires 0 <= i < j < |c| && FirstFreshest(c, j, i) && SameFreshness(c[j], c[i]) && c[j].secret != c[i].secret
    ensures Clashes(c, j)
  {
    hide FirstFreshest;
    hide SameFreshness;
  }

  lemma {:induction false} ChooseFromIs(c: seq<Material>, j: int, i: int)
    requires 0 <= i < j <= |c| && FirstFreshest(c, j, i)
    ensures var r := ChooseFrom(Best(c[i]), c[j..]);
            && !r.Nothing?
            && (r.Conflict? <==> exists k :: j <= k < |c| && Clashes(c, k))
            && (r.Best? ==> exists k :: 0 <= k < |c| && FirstFreshest(c, |c|, k) && r.value == c[k])
    decreases |c| - j
  {
    hide Newer;
    hide SameFreshness;
    hide FirstFreshest;
    hide Clashes;
    if j < |c| {
      assert c[j..][1..] == c[j + 1..] && c[j..][0] == c[j];
      if Newer(c[j], c[i]) {
        NewFreshest(c, j, i);
        NoClashWhenNewer(c, j, i);
        ChooseFromIs(c, j + 1, j);
      } else if SameFreshness(c[j], c[i]) && c[j].secret != c[i].secret {
        ClashHere(c, j, i);
      } else {
        SameFreshest(c, j, i);
        NoClashWhenAgreeing(c, j, i);
        ChooseFromIs(c, j + 1, i);
      }
    }
  }

  lemma NoClashWhenNewer(c: seq<Material>, j: int, i: int)
    requires 0 <= j < |c| && FirstFreshest(c, j, i) && Newer(c[j], c[i])
    ensures !Clashes(c, j)
  {
    forall k | FirstFreshest(c, j, k)
      ensures !SameFreshness(c[j], c[k])
    {
      FirstFreshestUnique(c, j, i, k);
    }
  }

  lemma NoClashWhenAgreeing(c: seq<Material>, j: int, i: int)
    requires 0 <= j < |c| && FirstFreshest(c, j, i) && !(SameFreshness(c[j], c[i]) && c[j].secret != c[i].secret)
    ensures !Clashes(c, j)
  {
    forall k | FirstFreshest(c, j, k)
      ensures !(SameFreshness(c[j], c[k]) && c[j].secret != c[k].secret)
    {
      FirstFreshestUnique(c, j, i, k);
    }
  }

  /**
   The chooser exactly: nothing for no candidates; a conflict when some candidate ties with the freshest before it and
   holds another secret, whatever comes later; otherwise the first of the freshest.
   */
  lemma ChooseIs(c: seq<Material>)
    ensures Choose(c).Nothing? <==> c == []
    ensures Choose(c).Conflict? <==> exists j :: 0 <= j < |c| && Clashes(c, j)
    ensures Choose(c).Best? ==> exists i :: 0 <= i < |c| && FirstFreshest(c, |c|, i) && Choose(c).value == c[i]
  {
    if c != [] {
      assert FirstFreshest(c, 1, 0);
      assert !Clashes(c, 0) by {
        assert forall i :: !FirstFreshest(c, 0, i);
      }
      ChooseFromIs(c, 1, 0);
    }
  }

  /** The order of the candidates matters: a tie between two stale values is an error only when it is met first. */
  lemma ChooseDependsOnOrder()
    ensures exists a: Material, b: Material, c: Material ::
              Choose([a, b, c]).Conflict? && Choose([c, a, b]) == Best(c)
  {
    var a, b, c := Material("a", 1, 0, true), Material("b", 1, 0, true), Material("c", 2, 0, true);
    assert [a, b, c][1..] == [b, c];
    assert [c, a, b][1..] == [a, b] && [a, b][1..] == [b] && [b][1..] == [];
    assert ChooseFrom(Best(a), [b, c]).Conflict?;
    assert ChooseFrom(Best(c), [a, b]) == ChooseFrom(Best(c), [b]) == Best(c);
  }

  /** A value nothing in `c` beats or contradicts. */
  ghost predicate Dominates(v: Material, c: seq<Material>) {
    forall m :: m in c ==> !Newer(m, v) && (SameFreshness(m, v) ==> m.secret == v.secret)
  }

  lemma ChosenDominates(c: seq<Material>)
    requires Choose(c).Best?
    ensures Choose(c).value in c && Dominates(Choose(c).value, c)
  {
    ChooseIs(c);
    hide Choose;
    hide Newer;
    hide SameFreshness;
    hide FirstFreshest;
    hide Clashes;
    var i :| 0 <= i < |c| && FirstFreshest(c, |c|, i) && Choose(c).value == c[i];
    forall k | 0 <= k < |c|
      ensures !Newer(c[k], c[i]) && (SameFreshness(c[k], c[i]) ==> c[k].secret == c[i].secret)
    {
      AgreesWithFirst(c, i, k);
    }
  }

  lemma AgreesWithFirst(c: seq<Material>, i: int, k: int)
    requires 0 <= i < |c| && FirstFreshest(c, |c|, i) && 0 <= k < |c| && !Clashes(c, k)
    ensures !Newer(c[k], c[i]) && (SameFreshness(c[k], c[i]) ==> c[k].secret == c[i].secret)
  {
    if i < k {
      assert FirstFreshest(c, k, i);
    }
  }

  lemma {:induction false} DominatingIsChosen(v: Material, c: seq<Material>)
    requires Dominates(v, c)
    ensures ChooseFrom(Best(v), c) == Best(v)
  {
    if c != [] {
      assert c[0] in c;
      assert forall m :: m in c[1..] ==> m in c;
      DominatingIsChosen(v, c[1..]);
    }
  }

  // ----- candidates

  /** What reading an endpoint contributes. */
  function Offer(e: Endpoint): seq<Material> {
    if e.canRead && e.held.Some? && e.held.value.valid then [e.held.value] else []
  }

  function Offers(es: seq<Endpoint>): seq<Material> {
    if es == [] then [] else Offer(es[0]) + Offers(es[1..])
  }

  function CacheList(s: State): seq<Endpoint> {
    if s.cache.Some? then [s.cache.value] else []
  }

  function BeforeCandidates(s: State): seq<Material> {
    Offers([s.store] + CacheList(s))
  }

  function AfterCandidates(s: State): seq<Material> {
    Offers([s.store] + CacheList(s) + s.sinks)
  }

  lemma {:induction false} OffersAppend(a: seq<Endpoint>, b: seq<Endpoint>)
    ensures Offers(a + b) == Offers(a) + Offers(b)
  {
    hide Offer;
    if a == [] {
      assert a + b == b;
    } else {
      assert (a + b)[1..] == a[1..] + b;
      OffersAppend(a[1..], b);
    }
  }

  lemma {:induction false} OffersHold(es: seq<Endpoint>, m: Material)
    ensures m in Offers(es) <==> exists i :: 0 <= i < |es| && m in Offer(es[i])
  {
    hide Offer;
    if es != [] {
      OffersHold(es[1..], m);
      if i :| 0 <= i < |es| && m in Offer(es[i]) {
        assert i > 0 ==> es[1..][i - 1] == es[i];
      }
      if i :| 0 <= i < |es[1..]| && m in Offer(es[1..][i]) {
        assert es[i + 1] == es[1..][i];
      }
    }
  }

  /** The candidates of a state are the store's offer, then the cache's, then the sinks'. */
  lemma CandidatesAre(s: State)
    ensures BeforeCandidates(s) == Offer(s.store) + Offers(CacheList(s))
    ensures AfterCandidates(s) == Offer(s.store) + Offers(CacheList(s)) + Offers(s.sinks)
  {
    hide Offer;
    OffersAppend([s.store] + CacheList(s), s.sinks);
    OffersAppend([s.store], CacheList(s));
    assert Offers([s.store]) == Offer(s.store) + Offers([]);
  }

  // ----- syncs stopped or failing anywhere

  /** Only what can be written is. */
  predicate Put(e: Endpoint, e': Endpoint, v: Material) {
    e.canWrite && e' == e.(held := Some(v))
  }

  /** Store and host cache can be written, so an after-exit sync may get to clearing. */
  predicate Writable(s: State) {
    s.store.canWrite && (s.cache.Some? ==> s.cache.value.canWrite)
  }

  predicate CachePut(s: State, t: State, v: Material) {
    if s.cache.Some? then t.cache.Some? && Put(s.cache.value, t.cache.value, v) else t.cache == None
  }

  predicate SameOrPut(es: seq<Endpoint>, es': seq<Endpoint>, v: Material) {
    |es'| == |es| && forall i :: 0 <= i < |es| ==> es'[i] == es[i] || Put(es[i], es'[i], v)
  }

  predicate SameOrCleared(es: seq<Endpoint>, es': seq<Endpoint>) {
    |es'| == |es| && forall i :: 0 <= i < |es| ==> es'[i] == es[i] || (es[i].canClear && es'[i] == es[i].(held := None))
  }

  /** Store first, then cache, then sinks. */
  predicate BeforeBetween(s: State, t: State) {
    match Choose(BeforeCandidates(s))
    case Best(v) =>
      || t == s
      || (Put(s.store, t.store, v) && t.cache == s.cache && t.sinks == s.sinks)
      || (Put(s.store, t.store, v) && CachePut(s, t, v) && SameOrPut(s.sinks, t.sinks, v))
    case _ => t == s
  }

  /** No sink is cleared before the chosen value is in store and cache; a conflict changes nothing. */
  predicate AfterBetween(s: State, t: State) {
    match Choose(AfterCandidates(s))
    case Best(v) =>
      || t == s
      || (Put(s.store, t.store, v) && t.cache == s.cache && t.sinks == s.sinks)
      || (Put(s.store, t.store, v) && CachePut(s, t, v) && SameOrCleared(s.sinks, t.sinks))
    case Nothing => t.store == s.store && t.cache == s.cache && SameOrCleared(s.sinks, t.sinks)
    case Conflict => t == s
  }

  // ----- consequences

  lemma {:induction false} ClearedOffers(es: seq<Endpoint>, es': seq<Endpoint>, m: Material)
    requires SameOrCleared(es, es') && m in Offers(es')
    ensures m in Offers(es)
  {
    OffersHold(es', m);
    var i :| 0 <= i < |es'| && m in Offer(es'[i]);
    assert es'[i] == es[i];
    OffersHold(es, m);
  }

  lemma CacheOffers(s: State, t: State, v: Material, m: Material)
    requires t.cache == s.cache || CachePut(s, t, v)
    requires m in Offers(CacheList(t)) && v.valid
    ensures m in Offers(CacheList(s)) || m == v
  {
    if t.cache != s.cache {
      assert Offers(CacheList(t)) == Offer(t.cache.value) + Offers([]);
    }
  }

  lemma {:induction false} OffersAreValid(es: seq<Endpoint>)
    ensures forall m :: m in Offers(es) ==> m.valid
  {
    if es != [] {
      OffersAreValid(es[1..]);
    }
  }

  /** The store or the host cache can be read. */
  predicate Anchor(s: State) {
    s.store.canRead || (s.cache.Some? && s.cache.value.canRead)
  }

  /** Redoing a stopped after-exit sync picks the same value and meets no new conflict if what it writes first can be
      read again. */
  lemma RedoAfterPicksSame(s: State, t: State)
    requires Anchor(s)
    requires AfterBetween(s, t)
    ensures Choose(AfterCandidates(t)) == Choose(AfterCandidates(s))
  {
    hide Choose;
    match Choose(AfterCandidates(s))
    case Conflict =>
    case Nothing =>
      NothingStays(s, t);
    case Best(v) =>
      if t != s {
        assert SameOrCleared(s.sinks, s.sinks);
        if s.store.canRead {
          ValueWritten(s, t, v);
        } else {
          CachedValue(s, t, v);
        }
      }
  }

  lemma NothingStays(s: State, t: State)
    requires AfterBetween(s, t) && Choose(AfterCandidates(s)).Nothing?
    ensures Choose(AfterCandidates(t)).Nothing?
  {
    var c, d := AfterCandidates(s), AfterCandidates(t);
    CandidatesAre(s);
    CandidatesAre(t);
    ChooseIs(c);
    hide Choose;
    forall m | m in Offers(t.sinks)
      ensures m in Offers(s.sinks)
    {
      ClearedOffers(s.sinks, t.sinks, m);
    }
    assert Offers(s.sinks) == [];
    SomeMember(Offers(t.sinks));
    assert d == [];
    ChooseIs(d);
  }

  /** The store cannot be read: the chosen value is where it was, or in a cache that can. */
  lemma CachedValue(s: State, t: State, v: Material)
    requires !s.store.canRead && s.cache.Some? && s.cache.value.canRead && Choose(AfterCandidates(s)) == Best(v)
    requires AfterBetween(s, t) && t != s
    ensures Choose(AfterCandidates(t)) == Best(v)
  {
    var c := AfterCandidates(s);
    CandidatesAre(s);
    CandidatesAre(t);
    ChosenIsValid(s, v);
    hide Choose;
    hide Offers;
    hide AfterCandidates;
    hide BeforeCandidates;
    if t.cache == s.cache && t.sinks == s.sinks {
      assert Offer(t.store) == Offer(s.store) == [];
    } else {
      CacheWritten(t, v);
      var sunk := Offers(t.sinks);
      assert Offer(t.store) == [];
      assert [] + [v] + sunk == [v] + sunk;
      hide Offer;
      forall m | m in sunk
        ensures m in c
      {
        ClearedOffers(s.sinks, t.sinks, m);
      }
      FirstChosen(v, c, sunk);
    }
  }

  lemma CacheWritten(s: State, v: Material)
    requires s.cache.Some? && s.cache.value.canRead && s.cache.value.held == Some(v) && v.valid
    ensures Offers(CacheList(s)) == [v]
  {
    assert Offers(CacheList(s)) == Offer(s.cache.value) + Offers([]);
  }

  lemma ValueWritten(s: State, t: State, v: Material)
    requires s.store.canRead && Choose(AfterCandidates(s)) == Best(v)
    requires Put(s.store, t.store, v) && (t.cache == s.cache || CachePut(s, t, v)) && SameOrCleared(s.sinks, t.sinks)
    ensures Choose(AfterCandidates(t)) == Best(v)
    ensures Choose(BeforeCandidates(t)) == Best(v)
  {
    var c := AfterCandidates(s);
    CandidatesWritten(s, t, v);
    ChosenIsValid(s, v);
    CandidatesAre(s);
    hide *;
    var cached, sunk := Offers(CacheList(t)), Offers(t.sinks);
    forall m | m in cached
      ensures m in c || m == v
    {
      CacheOffers(s, t, v, m);
    }
    forall m | m in sunk
      ensures m in c
    {
      ClearedOffers(s.sinks, t.sinks, m);
    }
    FirstChosen(v, c, cached);
    FirstChosen(v, c, cached + sunk);
  }

  lemma ChosenIsValid(s: State, v: Material)
    requires Choose(AfterCandidates(s)) == Best(v)
    ensures v.valid
  {
    hide Choose;
    ChosenDominates(AfterCandidates(s));
    OffersAreValid([s.store] + CacheList(s) + s.sinks);
  }

  lemma CandidatesWritten(s: State, t: State, v: Material)
    requires s.store.canRead && Put(s.store, t.store, v) && Choose(AfterCandidates(s)) == Best(v)
    ensures BeforeCandidates(t) == [v] + Offers(CacheList(t))
    ensures AfterCandidates(t) == [v] + (Offers(CacheList(t)) + Offers(t.sinks))
  {
    ChosenIsValid(s, v);
    hide Choose;
    hide AfterCandidates;
    hide BeforeCandidates;
    hide Offers;
    CandidatesAre(t);
    assert Offer(t.store) == [v];
  }

  lemma FirstChosen(v: Material, c: seq<Material>, rest: seq<Material>)
    requires Choose(c) == Best(v)
    requires forall m :: m in rest ==> m in c || m == v
    ensures Choose([v] + rest) == Best(v)
  {
    hide Choose;
    ChosenDominates(c);
    assert Dominates(v, rest);
    StartsWithBest(v, rest);
  }

  lemma SomeMember<T>(x: seq<T>)
    ensures x == [] || exists m :: m in x
  {
    if x != [] {
      assert x[0] in x;
    }
  }

  lemma StartsWithBest(v: Material, rest: seq<Material>)
    requires Dominates(v, rest)
    ensures Choose([v] + rest) == Best(v)
  {
    assert ([v] + rest)[1..] == rest;
    DominatingIsChosen(v, rest);
  }

  /** Redoing a stopped before-launch sync picks the same value too, whatever can be read. */
  lemma RedoBeforePicksSame(s: State, t: State)
    requires BeforeBetween(s, t)
    ensures Choose(BeforeCandidates(t)) == Choose(BeforeCandidates(s))
  {
    var c, d := BeforeCandidates(s), BeforeCandidates(t);
    CandidatesAre(s);
    CandidatesAre(t);
    hide Choose;
    if Choose(c).Best? && t != s {
      var v := Choose(c).value;
      ChosenDominates(c);
      OffersAreValid([s.store] + CacheList(s));
      var rest := Offers(CacheList(t));
      forall m | m in rest
        ensures m in c || m == v
      {
        CacheOffers(s, t, v, m);
      }
      if s.store.canRead {
        assert d == [v] + rest;
        assert Dominates(v, rest);
        StartsWithBest(v, rest);
      } else {
        OnlyCached(s, t, v);
      }
    }
  }

  lemma OnlyCached(s: State, t: State, v: Material)
    requires !s.store.canRead && v in BeforeCandidates(s) && v.valid
    requires Put(s.store, t.store, v) && (t.cache == s.cache || CachePut(s, t, v))
    ensures BeforeCandidates(s) == BeforeCandidates(t)
  {
    CandidatesAre(s);
    CandidatesAre(t);
    assert s.cache.Some?;
    assert Offers(CacheList(s)) == Offer(s.cache.value) + Offers([]);
    assert Offers(CacheList(t)) == Offer(t.cache.value) + Offers([]);
  }

  /** A launch after an after-exit sync that got as far as the store starts from the value that sync chose exactly if
      the store can be read or the host cache, by then, offers that value. */
  lemma LaunchAfterStoppedExit(s: State, t: State)
    requires AfterBetween(s, t) && Choose(AfterCandidates(s)).Best? && t != s
    ensures Choose(BeforeCandidates(t)) == Choose(AfterCandidates(s))
            <==> s.store.canRead || Offers(CacheList(t)) == [Choose(AfterCandidates(s)).value]
  {
    var v := Choose(AfterCandidates(s)).value;
    assert SameOrCleared(s.sinks, s.sinks);
    if s.store.canRead {
      ValueWritten(s, t, v);
    } else {
      CandidatesAre(t);
      assert BeforeCandidates(t) == Offers(CacheList(t));
      CacheIsOne(t);
    }
  }

  lemma CacheIsOne(s: State)
    ensures var c := Offers(CacheList(s)); Choose(c) == if c == [] then Nothing else Best(c[0])
    ensures |Offers(CacheList(s))| <= 1
  {
    if s.cache.Some? {
      assert Offers(CacheList(s)) == Offer(s.cache.value) + Offers([]);
      var c := Offers(CacheList(s));
      if c != [] {
        assert c == [c[0]] + [];
        StartsWithBest(c[0], []);
      }
    }
  }

  // ----- the freshest value of store and cache never gets older

  /** The valid values store and cache hold. */
  ghost predicate Holder(s: State, m: Material) {
    m.valid && (s.store.held == Some(m) || (s.cache.Some? && s.cache.value.held == Some(m)))
  }

  ghost predicate NotLowered(s: State, t: State) {
    forall m :: Holder(s, m) ==> exists n :: Holder(t, n) && !Newer(m, n)
  }

  predicate Readable(s: State) {
    s.store.canRead && (s.cache.Some? ==> s.cache.value.canRead)
  }

  lemma HoldersAreCandidates(s: State, m: Material)
    requires Readable(s) && Holder(s, m)
    ensures m in BeforeCandidates(s) && m in AfterCandidates(s)
  {
    CandidatesAre(s);
    if s.cache.Some? {
      assert Offers(CacheList(s)) == Offer(s.cache.value) + Offers([]);
    }
  }

  lemma WritingChosenNotLowered(s: State, t: State, c: seq<Material>)
    requires Choose(c).Best? && Choose(c).value.valid
    requires forall m :: Holder(s, m) ==> m in c
    requires Put(s.store, t.store, Choose(c).value)
    ensures NotLowered(s, t)
  {
    var v := Choose(c).value;
    ChosenDominates(c);
    assert Holder(t, v);
  }

  /** No stop or failure of a sync lowers the freshest value held by store or host cache. */
  lemma SyncNotLowered(s: State, t: State)
    requires Readable(s)
    requires BeforeBetween(s, t) || AfterBetween(s, t)
    ensures NotLowered(s, t) && Readable(t)
  {
    hide Choose;
    forall m | Holder(s, m)
      ensures m in BeforeCandidates(s) && m in AfterCandidates(s)
    {
      HoldersAreCandidates(s, m);
    }
    OffersAreValid([s.store] + CacheList(s));
    OffersAreValid([s.store] + CacheList(s) + s.sinks);
    if BeforeBetween(s, t) && t != s {
      ChosenDominates(BeforeCandidates(s));
      WritingChosenNotLowered(s, t, BeforeCandidates(s));
    } else if t.store == s.store && t.cache == s.cache {
      assert forall m :: Holder(s, m) ==> Holder(t, m) && !Newer(m, m);
    } else {
      ChosenDominates(AfterCandidates(s));
      WritingChosenNotLowered(s, t, AfterCandidates(s));
    }
  }

  lemma SinkIsCandidate(s: State, i: nat, m: Material)
    requires i < |s.sinks| && m in Offer(s.sinks[i])
    ensures m in AfterCandidates(s)
  {
    CandidatesAre(s);
    hide Offer;
    OffersHold(s.sinks, m);
  }

  /** A sink that held a value is only found cleared once store and host cache both hold one that is no staler, and
      the same secret if it is as fresh. */
  lemma ClearedIsCovered(s: State, t: State, i: nat, m: Material)
    requires AfterBetween(s, t) && i < |s.sinks| == |t.sinks| && t.sinks[i] != s.sinks[i] && m in Offer(s.sinks[i])
    ensures t.store.held.Some? && !Newer(m, t.store.held.value)
    ensures SameFreshness(m, t.store.held.value) ==> m.secret == t.store.held.value.secret
    ensures t.cache.Some? ==> t.cache.value.held == t.store.held
  {
    SinkIsCandidate(s, i, m);
    ChooseIs(AfterCandidates(s));
    hide Choose;
    hide Newer;
    hide SameFreshness;
    hide Offer;
    hide AfterCandidates;
    if Choose(AfterCandidates(s)).Best? {
      ChosenDominates(AfterCandidates(s));
    }
  }

  /** A step of a run: a sync that got anywhere, or the agent doing as it likes with its sinks. */
  predicate Step(s: State, t: State) {
    BeforeBetween(s, t) || AfterBetween(s, t) || (t.store == s.store && t.cache == s.cache)
  }

  /** Over any run the freshest value held by store or host cache never gets older. */
  lemma {:induction false} RunNotLowered(run: seq<State>)
    requires run != [] && Readable(run[0])
    requires forall i :: 0 < i < |run| ==> Step(run[i - 1], run[i])
    ensures NotLowered(run[0], run[|run| - 1]) && Readable(run[|run| - 1])
  {
    hide BeforeBetween;
    hide AfterBetween;
    if |run| == 1 {
      assert forall m :: Holder(run[0], m) ==> !Newer(m, m);
    } else {
      var n := |run| - 1;
      RunNotLowered(run[..n]);
      var s, t := run[n - 1], run[n];
      assert Step(s, t);
      if !(t.store == s.store && t.cache == s.cache) {
        SyncNotLowered(s, t);
      } else {
        assert forall m :: Holder(s, m) ==> Holder(t, m) && !Newer(m, m);
      }
      NotLoweredTransitive(run[0], s, t);
    }
  }

  lemma NotLoweredTransitive(a: State, b: State, c: State)
    requires NotLowered(a, b) && NotLowered(b, c)
    ensures NotLowered(a, c)
  {
    forall m | Holder(a, m)
      ensures exists n :: Holder(c, n) && !Newer(m, n)
    {
      var n :| Holder(b, n) && !Newer(m, n);
      var o :| Holder(c, o) && !Newer(n, o);
      assert !Newer(m, o);
    }
  }

  // ----- exactly when a sync may lower the freshest value

  /** The host cache keeps, because it cannot be written, a value as fresh as `m`. */
  predicate CacheStays(s: State, m: Material) {
    && s.cache.Some? && !s.cache.value.canWrite
    && s.cache.value.held.Some? && s.cache.value.held.value.valid && !Newer(m, s.cache.value.held.value)
  }

  /** Writing `v` lowers nothing: no valid value of store or cache is newer, or the store cannot be written, or a cache
      that cannot be written has one as fresh. */
  ghost predicate Guarded(s: State, v: Material) {
    s.store.canWrite ==> forall m :: Holder(s, m) && Newer(m, v) ==> CacheStays(s, m)
  }

  /** As far as the cache, or as far as the store when the cache cannot be written. */
  function Written(s: State, v: Material): State {
    var t := s.(store := s.store.(held := Some(v)));
    if s.cache.Some? && s.cache.value.canWrite then t.(cache := Some(s.cache.value.(held := Some(v)))) else t
  }

  lemma WrittenIsReached(s: State, v: Material)
    requires s.store.canWrite
    ensures Choose(BeforeCandidates(s)) == Best(v) ==> BeforeBetween(s, Written(s, v))
    ensures Choose(AfterCandidates(s)) == Best(v) ==> AfterBetween(s, Written(s, v))
  {
    hide Choose;
    assert SameOrCleared(s.sinks, s.sinks) && SameOrPut(s.sinks, s.sinks, v);
  }

  lemma UnguardedLowers(s: State, v: Material)
    requires !Guarded(s, v)
    ensures !NotLowered(s, Written(s, v))
  {
    var m :| Holder(s, m) && Newer(m, v) && !CacheStays(s, m);
    assert forall n :: Holder(Written(s, v), n) ==> Newer(m, n);
  }

  lemma GuardedKeeps(s: State, t: State, v: Material)
    requires Guarded(s, v) && v.valid
    requires Put(s.store, t.store, v) && (t.cache == s.cache || CachePut(s, t, v))
    ensures NotLowered(s, t)
  {
    assert Holder(t, v);
    forall m | Holder(s, m)
      ensures exists n :: Holder(t, n) && !Newer(m, n)
    {
      if Newer(m, v) {
        assert CacheStays(s, m);
        assert Holder(t, s.cache.value.held.value);
      }
    }
  }

  lemma StandsStill(s: State, t: State)
    requires t.store == s.store && t.cache == s.cache
    ensures NotLowered(s, t)
  {
    assert forall m :: Holder(s, m) ==> Holder(t, m) && !Newer(m, m);
  }

  /** A before-launch sync that chose `v` lowers nothing, wherever it stops, exactly if writing `v` is guarded. */
  lemma BeforeLowersIff(s: State)
    requires Choose(BeforeCandidates(s)).Best?
    ensures (forall t :: BeforeBetween(s, t) ==> NotLowered(s, t)) <==> Guarded(s, Choose(BeforeCandidates(s)).value)
  {
    var v := Choose(BeforeCandidates(s)).value;
    ChosenDominates(BeforeCandidates(s));
    OffersAreValid([s.store] + CacheList(s));
    hide Choose;
    hide NotLowered;
    if Guarded(s, v) {
      forall t | BeforeBetween(s, t)
        ensures NotLowered(s, t)
      {
        if t == s {
          StandsStill(s, t);
        } else {
          GuardedKeeps(s, t, v);
        }
      }
    } else {
      WrittenIsReached(s, v);
      UnguardedLowers(s, v);
    }
  }

  /** And so does an after-exit sync. */
  lemma AfterLowersIff(s: State)
    requires Choose(AfterCandidates(s)).Best?
    ensures (forall t :: AfterBetween(s, t) ==> NotLowered(s, t)) <==> Guarded(s, Choose(AfterCandidates(s)).value)
  {
    var v := Choose(AfterCandidates(s)).value;
    ChosenIsValid(s, v);
    hide Choose;
    hide NotLowered;
    if Guarded(s, v) {
      forall t | AfterBetween(s, t)
        ensures NotLowered(s, t)
      {
        if t == s {
          StandsStill(s, t);
        } else {
          GuardedKeeps(s, t, v);
        }
      }
    } else {
      WrittenIsReached(s, v);
      UnguardedLowers(s, v);
    }
  }

  /** A sync with nothing to choose, or with a conflict, lowers nothing. */
  lemma NoChoiceLowersNothing(s: State, t: State)
    requires (BeforeBetween(s, t) && !Choose(BeforeCandidates(s)).Best?) || (AfterBetween(s, t) && !Choose(AfterCandidates(s)).Best?)
    ensures NotLowered(s, t)
  {
    hide Choose;
    StandsStill(s, t);
  }

  /** Without a way to read the store the promise fails: a staler cached value overwrites what the store held. */
  lemma UnreadableStoreMayBeLowered()
    ensures exists s: State, t: State :: BeforeBetween(s, t) && !NotLowered(s, t)
  {
    var newest, stale := Material("fresh", 2, 0, true), Material("stale", 1, 0, true);
    var s := State(Endpoint(Some(newest), false, true, true), Some(Endpoint(Some(stale), true, true, true)), []);
    var t := s.(store := s.store.(held := Some(stale)));
    CandidatesAre(s);
    assert Offers(CacheList(s)) == Offer(s.cache.value) + Offers([]);
    assert BeforeCandidates(s) == [stale];
    assert [stale] + [] == [stale];
    StartsWithBest(stale, []);
    assert BeforeBetween(s, t);
    assert Holder(s, newest);
    assert forall n :: Holder(t, n) ==> Newer(newest, n);
  }
}
