/** Redoing an after-exit sync whose choice is neither in a store nor in a host cache that can be read. */
module CredentialRedo {
  import opened Wrappers
  import opened CredentialSync

  predicate Offering(e: Endpoint) {
    Offer(e) != []
  }

  /** Two offers as fresh as each other with different secrets. */
  predicate Contradict(a: Endpoint, b: Endpoint)
    requires Offering(a) && Offering(b)
  {
    SameFreshness(Offer(a)[0], Offer(b)[0]) && Offer(a)[0].secret != Offer(b)[0].secret
  }

  /** Before `b`, a sink that cannot be cleared offers something newer than `b` does. */
  predicate Overtaken(es: seq<Endpoint>, b: nat)
    requires b < |es| && Offering(es[b])
  {
    exists n :: 0 <= n < b && !es[n].canClear && Offering(es[n]) && Newer(Offer(es[n])[0], Offer(es[b])[0])
  }

  /** Sink `i` cannot be cleared and offers `v`, and no clearing makes the sinks before it conflict. */
  predicate Held(es: seq<Endpoint>, v: Material, i: nat) {
    && i < |es| && !es[i].canClear && Offer(es[i]) == [v]
    && forall a, b :: 0 <= a < b < i && Offering(es[a]) && Offering(es[b]) && Contradict(es[a], es[b]) ==> Overtaken(es, b)
  }

  predicate Kept(es: seq<Endpoint>, v: Material) {
    exists i :: 0 <= i < |es| && Held(es, v, i)
  }

  lemma OffersSnoc(es: seq<Endpoint>, k: nat)
    requires k < |es|
    ensures Offers(es[..k + 1]) == Offers(es[..k]) + Offer(es[k])
  {
    assert es[..k + 1] == es[..k] + [es[k]];
    OffersAppend(es[..k], [es[k]]);
    assert Offers([es[k]]) == Offer(es[k]) + Offers([]);
  }

  lemma OffersSplit(es: seq<Endpoint>, k: nat)
    requires k <= |es|
    ensures Offers(es) == Offers(es[..k]) + Offers(es[k..])
  {
    assert es == es[..k] + es[k..];
    OffersAppend(es[..k], es[k..]);
  }

  lemma {:induction false} ChooseFromAppend(best: Choice, x: seq<Material>, y: seq<Material>)
    requires !best.Conflict?
    ensures var r := ChooseFrom(best, x); ChooseFrom(best, x + y) == if r.Conflict? then r else ChooseFrom(r, y)
    decreases |x|
  {
    if x == [] {
      assert x + y == y;
    } else {
      assert (x + y)[1..] == x[1..] + y;
      var c := x[0];
      if best.Nothing? || Newer(c, best.value) {
        ChooseFromAppend(Best(c), x[1..], y);
      } else if !(SameFreshness(c, best.value) && c.secret != best.value.secret) {
        ChooseFromAppend(best, x[1..], y);
      }
    }
  }

  lemma OfferedAt(es: seq<Endpoint>, k: nat, n: nat)
    requires n < k <= |es| && Offering(es[n])
    ensures Offer(es[n])[0] in Offers(es[..k])
  {
    OffersHold(es[..k], Offer(es[n])[0]);
    assert es[..k][n] == es[n];
  }

  lemma OfferedBy(es: seq<Endpoint>, k: nat, m: Material) returns (n: nat)
    requires k <= |es| && m in Offers(es[..k])
    ensures n < k && Offering(es[n]) && Offer(es[n])[0] == m
  {
    OffersHold(es[..k], m);
    n :| 0 <= n < k && m in Offer(es[..k][n]);
  }

  lemma OfferStays(es: seq<Endpoint>, es': seq<Endpoint>, n: nat)
    requires SameOrCleared(es, es') && n < |es|
    ensures Offering(es'[n]) ==> Offer(es'[n]) == Offer(es[n])
    ensures !es[n].canClear ==> es'[n] == es[n]
  {
  }

  /** Up to the sink that holds the value, whatever is cleared, nothing conflicts. */
  lemma {:induction false} NoConflictBefore(es: seq<Endpoint>, es': seq<Endpoint>, v: Material, i: nat, k: nat)
    requires SameOrCleared(es, es') && Held(es, v, i) && k <= i
    ensures !Choose(Offers(es'[..k])).Conflict?
  {
    if k > 0 {
      var j := k - 1;
      NoConflictBefore(es, es', v, i, j);
      OffersSnoc(es', j);
      var x := Offers(es'[..j]);
      hide Offers;
      ChooseFromAppend(Nothing, x, Offer(es'[j]));
      if Offering(es'[j]) && Choose(x).Best? {
        NoClashAt(es, es', v, i, j);
      }
    }
  }

  lemma NoClashAt(es: seq<Endpoint>, es': seq<Endpoint>, v: Material, i: nat, j: nat)
    requires SameOrCleared(es, es') && Held(es, v, i) && j < i && Offering(es'[j]) && Choose(Offers(es'[..j])).Best?
    ensures var w, m := Choose(Offers(es'[..j])).value, Offer(es'[j])[0];
            !(SameFreshness(m, w) && m.secret != w.secret)
  {
    hide Choose;
    hide Offers;
    hide Offer;
    var x := Offers(es'[..j]);
    var w, m := Choose(x).value, Offer(es'[j])[0];
    ChosenDominates(x);
    OfferStays(es, es', j);
    if SameFreshness(m, w) && m.secret != w.secret {
      var a := OfferedBy(es', j, w);
      OfferStays(es, es', a);
      assert Contradict(es[a], es[j]);
      var n :| 0 <= n < j && !es[n].canClear && Offering(es[n]) && Newer(Offer(es[n])[0], Offer(es[j])[0]);
      OfferStays(es, es', n);
      OfferedAt(es', j, n);
      assert false;
    }
  }

  /** Held: clearing any of the sinks leaves the choice as it was. */
  lemma HeldStays(es: seq<Endpoint>, es': seq<Endpoint>, v: Material, i: nat)
    requires Choose(Offers(es)) == Best(v) && SameOrCleared(es, es') && Held(es, v, i)
    ensures Choose(Offers(es')) == Best(v)
  {
    NoConflictBefore(es, es', v, i, i);
    OfferStays(es, es', i);
    OffersSnoc(es', i);
    OffersSplit(es', i + 1);
    ChosenDominates(Offers(es));
    var x, rest := Offers(es'[..i]), Offers(es'[i + 1..]);
    forall m | m in x || m in rest
      ensures m in Offers(es)
    {
      ClearedOffers(es, es', m) by {
        OffersSplit(es', i + 1);
      }
    }
    assert [v][1..] == [];
    OffersAreValid(es);
    BestSoFar(x, v);
    hide *;
    ChooseFromAppend(Nothing, x, [v]);
    ChooseFromAppend(Nothing, x + [v], rest);
    DominatingIsChosen(v, rest);
  }

  lemma BestSoFar(x: seq<Material>, v: Material)
    requires !Choose(x).Conflict? && Dominates(v, x) && v.valid && forall m :: m in x ==> m.valid
    ensures ChooseFrom(Choose(x), [v]) == Best(v)
  {
    if Choose(x).Best? {
      ChosenDominates(x);
      hide Choose;
      var w := Choose(x).value;
      assert [v][1..] == [];
      if !Newer(v, w) {
        assert SameFreshness(w, v);
        assert w == v;
      }
    } else {
      assert [v][1..] == [];
    }
  }

  // ----- and otherwise some clearing changes it

  /** Everything that can be cleared is, but for the sinks in `but`. */
  function ClearedBut(es: seq<Endpoint>, but: set<nat>): (es': seq<Endpoint>)
    ensures SameOrCleared(es, es')
  {
    seq(|es|, i requires 0 <= i < |es| => if es[i].canClear && i !in but then es[i].(held := None) else es[i])
  }

  lemma NobodyOffers(es: seq<Endpoint>, v: Material)
    requires forall i :: 0 <= i < |es| && !es[i].canClear ==> Offer(es[i]) != [v]
    ensures Choose(Offers(ClearedBut(es, {}))) != Best(v)
  {
    var es' := ClearedBut(es, {});
    hide Choose;
    forall i | 0 <= i < |es'|
      ensures v !in Offer(es'[i])
    {
      OfferStays(es, es', i);
    }
    OffersHold(es', v);
    if Choose(Offers(es')).Best? {
      ChosenDominates(Offers(es'));
    }
  }

  lemma ContradictionStays(es: seq<Endpoint>, a: nat, b: nat)
    requires a < b < |es| && Offering(es[a]) && Offering(es[b]) && Contradict(es[a], es[b]) && !Overtaken(es, b)
    ensures Choose(Offers(ClearedBut(es, {a, b}))).Conflict?
  {
    hide *;
    var es' := ClearedBut(es, {a, b});
    Survives(es, a, b);
    var x := Offers(es'[..b + 1]);
    OffersSplit(es', b + 1);
    OfferedAt(es', b + 1, b);
    ChooseFromAppend(Nothing, x, Offers(es'[b + 1..]));
    ChoiceIs(es');
    ChooseIs(x);
    if Choose(x).Best? {
      NoneIsFreshest(es, a, b, Choose(x).value);
    }
    ChooseOf(x);
  }

  lemma Survives(es: seq<Endpoint>, a: nat, b: nat)
    requires a < b < |es| && Offering(es[b])
    ensures |ClearedBut(es, {a, b})| == |es| && Offering(ClearedBut(es, {a, b})[b])
  {
    hide Offer;
  }

  lemma ChooseOf(x: seq<Material>)
    ensures Choose(x) == ChooseFrom(Nothing, x)
  {
  }

  lemma ChoiceIs(es: seq<Endpoint>)
    ensures Choose(Offers(es)) == ChooseFrom(Nothing, Offers(es))
  {
    hide Offers;
    hide ChooseFrom;
  }

  lemma NoneNewer(es: seq<Endpoint>, a: nat, b: nat, m: Material)
    requires a < b < |es| && Offering(es[a]) && Offering(es[b]) && Contradict(es[a], es[b]) && !Overtaken(es, b)
    requires m in Offers(ClearedBut(es, {a, b})[..b + 1])
    ensures !Newer(m, Offer(es[b])[0])
  {
    hide Offers;
    var es' := ClearedBut(es, {a, b});
    var n := OfferedBy(es', b + 1, m);
    assert n in {a, b} || !es[n].canClear;
  }

  lemma TwoSecrets(x: seq<Material>, a: Material, b: Material, w: Material)
    requires a in x && b in x && SameFreshness(a, b) && a.secret != b.secret && forall m :: m in x ==> !Newer(m, b)
    ensures w in x ==> !Dominates(w, x)
  {
  }

  lemma NoneIsFreshest(es: seq<Endpoint>, a: nat, b: nat, w: Material)
    requires a < b < |es| && Offering(es[a]) && Offering(es[b]) && Contradict(es[a], es[b]) && !Overtaken(es, b)
    ensures Choose(Offers(ClearedBut(es, {a, b})[..b + 1])) != Best(w)
  {
    var es' := ClearedBut(es, {a, b});
    var x := Offers(es'[..b + 1]);
    OfferedAt(es', b + 1, a);
    OfferedAt(es', b + 1, b);
    hide Choose;
    hide Offers;
    hide Dominates;
    hide Overtaken;
    forall m | m in x
      ensures !Newer(m, Offer(es[b])[0])
    {
      NoneNewer(es, a, b, m);
    }
    TwoSecrets(x, Offer(es[a])[0], Offer(es[b])[0], w);
    if Choose(x).Best? {
      ChosenDominates(x);
    }
  }

  /** Whatever clears some of the sinks, the choice among them stays, exactly if a sink that cannot be cleared holds it. */
  lemma SteadyIff(es: seq<Endpoint>, v: Material)
    requires Choose(Offers(es)) == Best(v)
    ensures (forall es' :: SameOrCleared(es, es') ==> Choose(Offers(es')) == Best(v)) <==> Kept(es, v)
  {
    if Kept(es, v) {
      var i :| 0 <= i < |es| && Held(es, v, i);
      forall es' | SameOrCleared(es, es')
        ensures Choose(Offers(es')) == Best(v)
      {
        HeldStays(es, es', v, i);
      }
    } else if i :| 0 <= i < |es| && !es[i].canClear && Offer(es[i]) == [v] {
      assert !Held(es, v, i);
      var a, b :| 0 <= a < b < i && Offering(es[a]) && Offering(es[b]) && Contradict(es[a], es[b]) && !Overtaken(es, b);
      ContradictionStays(es, a, b);
      assert SameOrCleared(es, ClearedBut(es, {a, b}));
    } else {
      NobodyOffers(es, v);
      assert SameOrCleared(es, ClearedBut(es, {}));
    }
  }

  lemma OnlySinks(s: State)
    requires !Anchor(s)
    ensures AfterCandidates(s) == Offers(s.sinks)
  {
    CandidatesAre(s);
    if s.cache.Some? {
      assert Offers(CacheList(s)) == Offer(s.cache.value) + Offers([]) == [];
    }
    assert [] + [] + Offers(s.sinks) == Offers(s.sinks);
  }

  lemma StillNoAnchor(s: State, t: State)
    requires AfterBetween(s, t) && !Anchor(s)
    ensures !Anchor(t) && (t.sinks == s.sinks || (Writable(s) && SameOrCleared(s.sinks, t.sinks)) || !Choose(AfterCandidates(s)).Best?)
  {
    hide Choose;
  }

  /** Redoing a stopped after-exit sync picks the same value, wherever it stopped, exactly if store or cache can be read,
      or it never gets to clearing, or a sink that cannot be cleared holds the value. */
  lemma RedoAfterIff(s: State)
    requires Choose(AfterCandidates(s)).Best?
    ensures (forall t :: AfterBetween(s, t) ==> Choose(AfterCandidates(t)) == Choose(AfterCandidates(s)))
            <==> Anchor(s) || !Writable(s) || Kept(s.sinks, Choose(AfterCandidates(s)).value)
  {
    var v := Choose(AfterCandidates(s)).value;
    if Anchor(s) {
      forall t | AfterBetween(s, t)
        ensures Choose(AfterCandidates(t)) == Choose(AfterCandidates(s))
      {
        RedoAfterPicksSame(s, t);
      }
    } else {
      OnlySinks(s);
      SteadyIff(s.sinks, v);
      if !Writable(s) || Kept(s.sinks, v) {
        forall t | AfterBetween(s, t)
          ensures Choose(AfterCandidates(t)) == Choose(AfterCandidates(s))
        {
          StillNoAnchor(s, t);
          OnlySinks(t);
        }
      } else {
        ClearingIsReached(s, v);
      }
    }
  }

  lemma ClearingIsReached(s: State, v: Material)
    requires Choose(AfterCandidates(s)) == Best(v) && !Anchor(s) && Writable(s)
    requires exists es' :: SameOrCleared(s.sinks, es') && Choose(Offers(es')) != Best(v)
    ensures exists t :: AfterBetween(s, t) && Choose(AfterCandidates(t)) != Best(v)
  {
    hide Choose;
    hide Offers;
    var es' :| SameOrCleared(s.sinks, es') && Choose(Offers(es')) != Best(v);
    var t := Written(s, v).(sinks := es');
    assert AfterBetween(s, t);
    OnlySinks(t);
  }
}
