/** What the syncs choose and leave behind, said on the fields of the values and endpoints alone. */
module CredentialFreshest {
  import opened Wrappers
  import opened CredentialSync

  /** As fresh on both fields. */
  predicate Ties(a: Material, b: Material) {
    a.generation == b.generation && a.updatedAt == b.updatedAt
  }

  predicate NoFresher(a: Material, b: Material) {
    a.generation < b.generation || (a.generation == b.generation && a.updatedAt <= b.updatedAt)
  }

  /** The generation decides and the time breaks ties; values that tie in both hold the same secret. */
  lemma ChosenIsFreshest(c: seq<Material>, v: Material)
    requires Choose(c) == Best(v)
    ensures v in c
    ensures forall m :: m in c ==> m.generation < v.generation || (m.generation == v.generation && m.updatedAt <= v.updatedAt)
    ensures forall m :: m in c && m.generation == v.generation && m.updatedAt == v.updatedAt ==> m.secret == v.secret
  {
    ChosenDominates(c);
    hide Choose;
  }

  /** The values read conflict exactly if two of them tie with different secrets and no earlier one is fresher. */
  lemma ConflictIff(c: seq<Material>)
    ensures Choose(c).Conflict?
            <==> exists i, j :: 0 <= i < j < |c| && Ties(c[i], c[j]) && c[i].secret != c[j].secret
                                && forall k :: 0 <= k < j ==> NoFresher(c[k], c[i])
  {
    ChooseIs(c);
    hide Choose;
    hide Clashes;
    hide FirstFreshest;
    hide NoFresher;
    hide Ties;
    if j :| 0 <= j < |c| && Clashes(c, j) {
      var i := ClashMeans(c, j);
    }
    if i, j :| 0 <= i < j < |c| && Ties(c[i], c[j]) && c[i].secret != c[j].secret && forall k :: 0 <= k < j ==> NoFresher(c[k], c[i]) {
      var first := FirstTie(c, i, j);
      TieClashes(c, first, i, j);
    }
  }

  lemma ClashMeans(c: seq<Material>, j: int) returns (i: int)
    requires 0 <= j < |c| && Clashes(c, j)
    ensures 0 <= i < j && Ties(c[i], c[j]) && c[i].secret != c[j].secret && forall k :: 0 <= k < j ==> NoFresher(c[k], c[i])
  {
    i :| FirstFreshest(c, j, i) && SameFreshness(c[j], c[i]) && c[j].secret != c[i].secret;
    forall k | 0 <= k < j
      ensures NoFresher(c[k], c[i])
    {
      assert !Newer(c[k], c[i]);
    }
  }

  /** Of two clashing candidates one clashes with the first of the freshest. */
  lemma TieClashes(c: seq<Material>, first: int, i: int, j: int)
    requires 0 <= first <= i < j < |c| && FirstFreshest(c, j, first) && Ties(c[first], c[i])
    requires Ties(c[i], c[j]) && c[i].secret != c[j].secret
    ensures Clashes(c, j) || Clashes(c, i)
  {
    if c[first].secret == c[i].secret {
      ClashHere(c, j, first);
    } else {
      assert FirstFreshest(c, i, first);
      ClashHere(c, i, first);
    }
  }

  lemma {:induction false} FirstTie(c: seq<Material>, i: int, j: int) returns (first: int)
    requires 0 <= i < j < |c| && forall k :: 0 <= k < j ==> NoFresher(c[k], c[i])
    ensures 0 <= first <= i && Ties(c[first], c[i]) && FirstFreshest(c, j, first)
    decreases i
  {
    if k :| 0 <= k < i && Ties(c[k], c[i]) {
      first := FirstTie(c, k, j);
    } else {
      first := i;
      forall k | 0 <= k < i
        ensures Newer(c[i], c[k])
      {
        assert NoFresher(c[k], c[i]) && !Ties(c[k], c[i]);
      }
    }
  }

  // ----- what a sync that finished leaves

  /** An endpoint that can be read holds the valid value `m`. */
  ghost predicate HeldBy(es: seq<Endpoint>, m: Material) {
    m.valid && exists i :: 0 <= i < |es| && es[i].canRead && es[i].held == Some(m)
  }

  /** `v` is held, no held value is fresher, and one as fresh has the same secret. */
  ghost predicate Freshest(es: seq<Endpoint>, v: Material) {
    && HeldBy(es, v)
    && (forall m :: HeldBy(es, m) ==> NoFresher(m, v) && (Ties(m, v) ==> m.secret == v.secret))
  }

  lemma OfferedIffHeld(es: seq<Endpoint>, m: Material)
    ensures m in Offers(es) <==> HeldBy(es, m)
  {
    OffersHold(es, m);
    assert forall e: Endpoint :: m in Offer(e) <==> e.canRead && e.held == Some(m) && m.valid;
  }

  lemma ChosenFromHeld(es: seq<Endpoint>)
    ensures Choose(Offers(es)).Best? ==> Freshest(es, Choose(Offers(es)).value)
    ensures Choose(Offers(es)).Nothing? <==> forall m :: !HeldBy(es, m)
  {
    var c := Offers(es);
    forall m
      ensures m in c <==> HeldBy(es, m)
    {
      OfferedIffHeld(es, m);
    }
    ChooseIs(c);
    SomeMember(c);
    hide Choose;
    hide HeldBy;
    if Choose(c).Best? {
      ChosenIsFreshest(c, Choose(c).value);
    }
  }

  /** After a finished launch sync store, cache and sinks hold the freshest value that store and cache held. */
  ghost predicate Launched(s: State, t: State) {
    var es := [s.store] + if s.cache.Some? then [s.cache.value] else [];
    if forall m :: !HeldBy(es, m) then t == s
    else
      && t.store.held.Some? && Freshest(es, t.store.held.value)
      && (t.cache.Some? ==> t.cache.value.held == t.store.held)
      && (forall i :: 0 <= i < |t.sinks| ==> t.sinks[i].held == t.store.held)
  }

  /** After a finished exit sync store and cache hold the freshest value anyone held, and every sink that can be
      cleared is empty. */
  ghost predicate Exited(s: State, t: State) {
    var es := [s.store] + (if s.cache.Some? then [s.cache.value] else []) + s.sinks;
    && (if forall m :: !HeldBy(es, m) then t.store == s.store && t.cache == s.cache
        else
          && t.store.held.Some? && Freshest(es, t.store.held.value)
          && (t.cache.Some? ==> t.cache.value.held == t.store.held))
    && (forall i :: 0 <= i < |t.sinks| ==> t.sinks[i].canClear ==> t.sinks[i].held == None)
  }
}
