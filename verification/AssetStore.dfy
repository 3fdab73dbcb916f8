/** The sync of `AssetSync` in place. Every file operation takes its answer from the script. */
module AssetStore {
  import opened Wrappers
  import opened Faults
  import opened AssetSync

  /** The two maps agree at `p`. */
  predicate Same<V(==)>(a: map<Path, V>, b: map<Path, V>, p: Path) {
    (p in a <==> p in b) && (p in a ==> a[p] == b[p])
  }

  lemma SameEverywhere<V>(a: map<Path, V>, b: map<Path, V>)
    requires forall p: Path :: Same(a, b, p)
    ensures a == b
  {
    forall p: Path
      ensures p in a <==> p in b
      ensures p in a ==> a[p] == b[p]
    {
      assert Same(a, b, p);
    }
  }

  /** Between can be judged path by path, from the values at that path alone. */
  lemma BetweenAt(s: State, s': State, t: State, t': State, p: Path, desired: Desired)
    requires Same(s.dest, s'.dest, p) && Same(s.manifest, s'.manifest, p)
    requires Same(t.dest, t'.dest, p) && Same(t.manifest, t'.manifest, p)
    ensures p in desired ==> (DesiredBetween(s, t, p, desired[p]) <==> DesiredBetween(s', t', p, desired[p]))
    ensures p !in desired ==> (OtherBetween(s, t, p) <==> OtherBetween(s', t', p))
  {
  }

  /** One path has moved on: the rest of the state is still between. */
  lemma BetweenStep(s: State, t: State, t': State, p: Path, desired: Desired)
    requires Between(s, t, desired)
    requires forall q: Path :: q != p ==> Same(t'.dest, t.dest, q) && Same(t'.manifest, t.manifest, q)
    requires if p in desired then DesiredBetween(s, t', p, desired[p]) else OtherBetween(s, t', p)
    ensures Between(s, t', desired)
  {
    hide DesiredBetween;
    hide OtherBetween;
    forall q: Path
      ensures if q in desired then DesiredBetween(s, t', q, desired[q]) else OtherBetween(s, t', q)
    {
      if q != p {
        assert Same(s.dest, s.dest, q) && Same(s.manifest, s.manifest, q);
        assert Same(t'.dest, t.dest, q) && Same(t'.manifest, t.manifest, q);
        BetweenAt(s, s, t, t', q, desired);
        assert if q in desired then DesiredBetween(s, t, q, desired[q]) else OtherBetween(s, t, q);
      }
    }
  }

  lemma StartIsBetween(s: State, desired: Desired)
    ensures Between(s, s, desired)
  {
  }

  /** As long as the manifest file has not been written, the old one stands in for the one in memory. */
  lemma UnsavedIsBetween(s: State, dest: map<Path, Content>, recorded: map<Path, Mark>, desired: Desired)
    requires Between(s, State(dest, recorded), desired)
    ensures Between(s, State(dest, s.manifest), desired)
  {
    forall p: Path
      ensures if p in desired then DesiredBetween(s, State(dest, s.manifest), p, desired[p])
              else OtherBetween(s, State(dest, s.manifest), p)
    {
      assert if p in desired then DesiredBetween(s, State(dest, recorded), p, desired[p])
             else OtherBetween(s, State(dest, recorded), p);
    }
  }

  /** A managed path that is not desired may hold anything as long as it is still recorded, and nothing once it is not. */
  lemma RemovalStep(s: State, t: State, t': State, p: Path, desired: Desired)
    requires Between(s, t, desired)
    requires p !in desired && p in s.manifest
    requires forall q: Path :: q != p ==> Same(t'.dest, t.dest, q) && Same(t'.manifest, t.manifest, q)
    requires if p in t'.manifest then t'.manifest[p] == s.manifest[p] else p !in t'.dest
    ensures Between(s, t', desired)
  {
    hide Between;
    hide Same;
    BetweenStep(s, t, t', p, desired);
  }

  /** Exactly the paths in `removed` are gone from both maps; the rest is as before. */
  ghost predicate Removed(dest0: map<Path, Content>, recorded0: map<Path, Mark>, dest: map<Path, Content>,
                          recorded: map<Path, Mark>, removed: set<Path>) {
    forall p: Path ::
      if p in removed then p !in dest && p !in recorded else Same(dest, dest0, p) && Same(recorded, recorded0, p)
  }

  lemma RemovedStep(dest0: map<Path, Content>, recorded0: map<Path, Mark>, t: State, t': State, removed: set<Path>, p: Path)
    requires Removed(dest0, recorded0, t.dest, t.manifest, removed)
    requires forall q: Path :: q != p ==> Same(t'.dest, t.dest, q) && Same(t'.manifest, t.manifest, q)
    requires p !in t'.dest && p !in t'.manifest
    ensures Removed(dest0, recorded0, t'.dest, t'.manifest, removed + {p})
  {
    forall q: Path
      ensures if q in removed + {p} then q !in t'.dest && q !in t'.manifest
              else Same(t'.dest, dest0, q) && Same(t'.manifest, recorded0, q)
    {
      if q != p {
        assert Same(t'.dest, t.dest, q) && Same(t'.manifest, t.manifest, q);
        assert if q in removed then q !in t.dest && q !in t.manifest
               else Same(t.dest, dest0, q) && Same(t.manifest, recorded0, q);
      }
    }
  }

  lemma NothingRemoved(dest: map<Path, Content>, recorded: map<Path, Mark>)
    ensures Removed(dest, recorded, dest, recorded, {})
  {
  }

  lemma RemovalAllowed(s: State, t: State, t': State, dest0: map<Path, Content>, recorded0: map<Path, Mark>,
                       removed: set<Path>, p: Path, desired: Desired)
    requires Between(s, t, desired) && p !in desired && p in s.manifest
    requires Removed(dest0, recorded0, t.dest, t.manifest, removed) && p in recorded0 && p !in removed
    requires forall q: Path :: q != p ==> Same(t'.dest, t.dest, q) && Same(t'.manifest, t.manifest, q)
    requires (p !in t'.dest && p !in t'.manifest) || t'.manifest == t.manifest
    ensures Between(s, t', desired)
  {
    assert OtherBetween(s, t, p);
    hide Between;
    assert Same(t.manifest, recorded0, p);
    RemovalStep(s, t, t', p, desired);
  }

  /** What a sync of all desired paths but those in `todo` counts. */
  function CountsBut(s: State, desired: Desired, todo: set<Path>): Counts {
    CountsOf(s, desired, desired.Keys - todo)
  }

  lemma CountsButAll(s: State, desired: Desired)
    ensures CountsBut(s, desired, desired.Keys) == Counts(0, 0, 0, 0, 0)
  {
    NothingCounted(s, desired);
    hide CountsOf;
    assert desired.Keys - desired.Keys == {};
  }

  lemma AllCountsIs(s: State, desired: Desired)
    ensures AllCounts(s, desired) == CountsBut(s, desired, {}).(deleted := |s.manifest.Keys - desired.Keys|)
  {
    hide CountsOf;
    assert desired.Keys - {} == desired.Keys;
  }

  lemma CountsButLess(s: State, desired: Desired, todo: set<Path>, p: Path)
    requires todo <= desired.Keys && p in todo
    ensures var c := CountsBut(s, desired, todo);
            CountsBut(s, desired, todo - {p}) ==
            Counts(c.added + (if p !in s.dest then 1 else 0),
                   c.updated + (if IsStale(s, desired, p) then 1 else 0),
                   c.adopted + (if IsAdoptable(s, desired, p) then 1 else 0),
                   c.deleted,
                   c.conflicts + (if IsForeign(s, desired, p) then 1 else 0))
  {
    CountOneMore(s, desired, desired.Keys - todo, p);
    hide CountsOf;
    hide IsStale;
    hide IsAdoptable;
    hide IsForeign;
    assert desired.Keys - (todo - {p}) == desired.Keys - todo + {p};
  }

  class Store {
    var dest: map<Path, Content>
    var manifest: map<Path, Mark>   // the manifest file
    var script: Script

    constructor (dest: map<Path, Content>, manifest: map<Path, Mark>, script: Script)
      ensures this.dest == dest && this.manifest == manifest && this.script == script
    {
      this.dest, this.manifest, this.script := dest, manifest, script;
    }

    /** A file operation. */
    method Attempt() returns (r: Outcome)
      modifies this`script
      ensures r == Answer(old(script)) && script == After(old(script))
    {
      if script == [] {
        return Stopped;
      }
      r := if script[0] then Done else Failed;
      script := script[1..];
    }

    ghost function Now(): State
      reads this
    {
      State(dest, manifest)
    }

    method DiffOne(desired: Desired, p: Path, c: Counts) returns (r: Counts)
      requires p in desired
      ensures r == Counts(c.added + (if p !in dest then 1 else 0),
                          c.updated + (if IsStale(Now(), desired, p) then 1 else 0),
                          c.adopted + (if IsAdoptable(Now(), desired, p) then 1 else 0),
                          c.deleted,
                          c.conflicts + (if IsForeign(Now(), desired, p) then 1 else 0))
    {
      r := c;
      if p in manifest {
        if Matches(dest, p, desired[p]) {
        } else if p !in dest {
          r := r.(added := r.added + 1);
        } else {
          r := r.(updated := r.updated + 1);
        }
      } else {
        if p !in dest {
          r := r.(added := r.added + 1);
        } else if Matches(dest, p, desired[p]) {
          r := r.(adopted := r.adopted + 1);
        } else {
          r := r.(conflicts := r.conflicts + 1);
        }
      }
    }

    /** `diffHarnessAssetState`: what a sync would count. */
    method Diff(desired: Desired) returns (result: Counts)
      ensures result == AllCounts(Now(), desired)
    {
      result := Counts(0, 0, 0, 0, 0);
      var todo := desired.Keys;
      CountsButAll(Now(), desired);
      AllCountsIs(Now(), desired);
      hide *;
      while todo != {}
        invariant todo <= desired.Keys && result == CountsBut(Now(), desired, todo)
        decreases todo
      {
        var p :| p in todo;
        CountsButLess(Now(), desired, todo, p);
        result := DiffOne(desired, p, result);
        todo := todo - {p};
      }
      result := result.(deleted := |manifest.Keys - desired.Keys|);
    }

    /** `replaceHarnessAssetPath`: what was there is renamed aside, the copy into place, and the old one removed. */
    method ReplaceHarnessAssetPath(p: Path, entry: Entry) returns (r: Outcome)
      modifies this`dest, this`script
      ensures forall q: Path :: q != p ==> Same(dest, old(dest), q)
      ensures r == Done ==> p in dest && dest[p] == entry.source
      ensures r != Done ==> Same(dest, old(dest), p) || (p in old(dest) && (p !in dest || dest[p] == entry.source))
      ensures Used(old(script), script, r == Stopped, 3) && (Faultless(old(script)) ==> r != Failed)
    {
      hide *;
      ghost var first := script;
      UsedSelf(script);
      UsedNext(first, script, 0, 3);
      r := Attempt();
      if r != Done || p !in dest {
        if r == Done {
          dest := dest[p := entry.source];
        }
        ChangedAt(old(dest), dest, p);
        return;
      }
      var backup := dest[p];
      dest := dest - {p};
      ChangedAt(old(dest), dest, p);
      UsedNext(first, script, 1, 3);
      r := Attempt();
      if r == Stopped {
        return;
      }
      UsedNext(first, script, 2, 3);
      var last := Attempt();
      if r == Failed {            // renaming the old one back is best effort
        if last == Done {
          dest := dest[p := backup];
        }
        r := if last == Stopped then Stopped else Failed;
      } else {                    // removing the old one may fail
        dest := dest[p := entry.source];
        r := last;
      }
      ChangedAt(old(dest), dest, p);
    }

    /** Installing one entry: a temporary copy is made and then put into place. */
    method Install(p: Path, entry: Entry) returns (r: Outcome)
      modifies this`dest, this`script
      ensures forall q: Path :: q != p ==> Same(dest, old(dest), q)
      ensures r == Done ==> p in dest && dest[p] == entry.source
      ensures r != Done ==> Same(dest, old(dest), p) || (p in old(dest) && (p !in dest || dest[p] == entry.source))
      ensures Used(old(script), script, r == Stopped, 4) && (Faultless(old(script)) ==> r != Failed)
    {
      ghost var first, before := script, dest;
      UsedSelf(script);
      UsedNext(first, script, 0, 4);
      hide Used;
      hide Answer;
      hide After;
      r := Attempt();
      if r == Done {
        ghost var copied := script;
        UsedCalm(first, copied, false, 1);
        assert dest == before;
        r := ReplaceHarnessAssetPath(p, entry);
        assert forall q: Path :: q != p ==> Same(dest, before, q);
        UsedThen(first, copied, script, r == Stopped, 1, 3, 4);
      }
    }

    /** One desired path: `recorded` is the manifest in memory. A failed installation counts as a conflict. */
    method SyncPath(p: Path, entry: Entry, recorded: map<Path, Mark>, counted: Counts)
      returns (r: Outcome, recorded': map<Path, Mark>, counted': Counts)
      requires entry.source.mark == Some(entry.mark)
      modifies this`dest, this`script
      ensures forall q: Path :: q != p ==> Same(dest, old(dest), q) && Same(recorded', recorded, q)
      ensures DesiredBetween(State(old(dest), recorded), State(dest, recorded'), p, entry)
      ensures r != Done ==> recorded' == recorded
      ensures r == Failed ==> p !in old(dest) || (p in recorded && !Matches(old(dest), p, entry))
      ensures r == Failed ==> counted' == counted.(conflicts := counted.conflicts + 1)
      ensures Used(old(script), script, r == Stopped, 4) && (Faultless(old(script)) ==> r != Failed)
      ensures r == Done ==> PathSynced(State(old(dest), recorded), State(dest, recorded'), p, entry, counted, counted')
    {
      UsedSelf(script);
      UsedLess(script, script, false, 0, 4);
      hide Used;
      r, recorded', counted' := Done, recorded, counted;
      if p in recorded {
        if Matches(dest, p, entry) {
          return;
        }
        var existedBefore := p in dest;
        r := Install(p, entry);
        if r == Failed {
          counted' := counted.(conflicts := counted.conflicts + 1);
        }
        if r != Done {
          return;
        }
        counted' := if existedBefore then counted.(updated := counted.updated + 1) else counted.(added := counted.added + 1);
        recorded' := recorded[p := entry.mark];
        return;
      }
      if p !in dest {
        r := Install(p, entry);
        if r == Failed {
          counted' := counted.(conflicts := counted.conflicts + 1);
        }
        if r != Done {
          return;
        }
        counted' := counted.(added := counted.added + 1);
        recorded' := recorded[p := entry.mark];
      } else if Matches(dest, p, entry) {
        counted' := counted.(adopted := counted.adopted + 1);
        recorded' := recorded[p := entry.mark];
      } else {
        counted' := counted.(conflicts := counted.conflicts + 1);
      }
    }

    /**
     The loop over desired paths, started with the manifest `start` in memory. Nothing but `dest` changes. `failed` are
     the paths that could not be installed: they stay as recorded and count as conflicts.
     */
    method SyncDesired(desired: Desired, start: map<Path, Mark>)
      returns (r: Outcome, failed: set<Path>, result: Counts, recorded: map<Path, Mark>)
      requires Fresh(desired)
      modifies this`dest, this`script
      ensures r != Failed && failed <= desired.Keys
      ensures Reached(State(old(dest), start), State(dest, recorded), desired, failed)
      ensures r == Done ==> AtFinal(State(old(dest), start), State(dest, recorded), desired, desired.Keys - failed)
      ensures r == Done ==> result == PartCounts(State(old(dest), start), desired, failed)
      ensures Used(old(script), script, r == Stopped, 4 * |desired.Keys|) && (Faultless(old(script)) ==> failed == {})
    {
      hide *;
      ghost var s, first, n, k := State(dest, start), script, |desired.Keys|, 0;
      r, failed, result, recorded := Done, {}, Counts(0, 0, 0, 0, 0), start;
      var todo := desired.Keys;
      LoopStarts(s, desired);
      UsedSelf(first);
      while todo != {}
        invariant r == Done && todo <= desired.Keys && failed <= desired.Keys
        invariant SoFar(s, State(dest, recorded), desired, todo, failed, result)
        invariant Used(first, script, false, 4 * k) && k + |todo| == n
        invariant Faultless(first) ==> failed == {}
        decreases todo
      {
        var p :| p in todo;
        ghost var t, before, counted := State(dest, recorded), script, result;
        UsedCalm(first, before, false, 4 * k);
        FreshAt(desired, p);
        r, recorded, result := SyncPath(p, desired[p], recorded, result);
        FewerLeft(todo, desired.Keys, p);
        UsedThen(first, before, script, r == Stopped, 4 * k, 4, 4 * n);
        LoopSteps(s, t, State(dest, recorded), desired, todo, failed, p, r, counted, result);
        if r == Stopped {
          return;
        }
        if r == Failed {
          failed := failed + {p};
        }
        r := Done;
        todo, k := todo - {p}, k + 1;
      }
      LoopEnds(s, State(dest, recorded), desired, failed, result);
    }

    /** `removeHarnessAssetPath`, then forgetting the path; a removal that fails halfway may leave part of a directory. */
    method RemovePath(p: Path, recorded: map<Path, Mark>) returns (r: Outcome, recorded': map<Path, Mark>)
      modifies this`dest, this`script
      ensures forall q: Path :: q != p ==> Same(dest, old(dest), q) && Same(recorded', recorded, q)
      ensures if r == Done then p !in dest && p !in recorded' else recorded' == recorded
      ensures r == Answer(old(script)) && script == After(old(script))
    {
      recorded' := recorded;
      r := Attempt();
      if r == Failed {
        var emptied: bool := *;
        var data: string := *;
        dest := if emptied then dest - {p} else dest[p := Content(None, data)];
      } else if r == Done {
        dest := dest - {p};
        recorded' := recorded - {p};
      }
    }

    /** The loop over managed paths that are no longer desired. The first failure ends it. */
    method SyncRemovals(ghost s: State, desired: Desired, recorded0: map<Path, Mark>, result0: Counts)
      returns (r: Outcome, recorded: map<Path, Mark>, result: Counts)
      requires s.manifest == manifest
      requires Between(s, State(dest, recorded0), desired)
      requires forall p: Path :: p !in desired ==> Same(recorded0, manifest, p)
      modifies this`dest, this`script
      ensures Between(s, State(dest, recorded), desired)
      ensures r == Done ==> Removed(old(dest), recorded0, dest, recorded, Undesired(recorded0, desired))
      ensures r == Done ==> result == result0.(deleted := result0.deleted + |Undesired(recorded0, desired)|)
      ensures Used(old(script), script, r == Stopped, |Undesired(recorded0, desired)|)
      ensures Faultless(old(script)) ==> r != Failed
    {
      hide *;
      ghost var first, dest0, n, k := script, dest, |Undesired(recorded0, desired)|, 0;
      r, recorded, result := Done, recorded0, result0;
      var gone := Undesired(recorded0, desired);
      var todo := gone;
      UsedSelf(first);
      NoneRemovedYet(dest, recorded, gone);
      while todo != {}
        invariant r == Done && todo <= gone
        invariant Between(s, State(dest, recorded), desired)
        invariant RemovedBut(dest0, recorded0, State(dest, recorded), gone, todo)
        invariant k + |todo| == n && result == result0.(deleted := result0.deleted + k)
        invariant Used(first, script, false, k)
        decreases todo
      {
        var p :| p in todo;
        ghost var t := State(dest, recorded);
        FewerLeft(todo, gone, p);
        UsedNext(first, script, k, n);
        r, recorded := RemovePath(p, recorded);
        RemovalHolds(s, t, State(dest, recorded), dest0, recorded0, gone, todo, p, desired, r);
        if r != Done {
          return;
        }
        result := result.(deleted := result.deleted + 1);
        todo, k := todo - {p}, k + 1;
      }
      AllRemoved(dest0, recorded0, State(dest, recorded), gone);
    }

    /**
     The whole sync. However it ends, the store is between. Once done, every path is where `Final` has it, and counted as
     `Diff` counts it, but for those whose installation failed; and with enough working operations ahead none fails.
     */
    method Sync(desired: Desired) returns (r: Outcome, failed: set<Path>, result: Counts)
      requires Fresh(desired)
      modifies this
      ensures Between(old(Now()), Now(), desired)
      ensures failed <= desired.Keys && forall p :: p in failed ==> NeedsInstall(old(Now()), desired, p)
      ensures r == Done ==> forall p: Path :: p !in failed ==>
                Same(dest, Final(old(Now()), desired).dest, p) && Same(manifest, Final(old(Now()), desired).manifest, p)
      ensures r == Done ==> forall p :: p in failed ==> Same(manifest, old(manifest), p)
      ensures r == Done ==> forall p :: p in manifest && p !in failed ==>
                p in desired && p in dest && dest[p].mark == Some(desired[p].mark)
      ensures r != Done ==> manifest == old(manifest)
      ensures r == Done ==> result == PartCounts(old(Now()), desired, failed).(deleted := |Undesired(old(manifest), desired)|)
      ensures r == Done && failed == {} ==> Now() == Final(old(Now()), desired) && result == AllCounts(old(Now()), desired)
      ensures Calm(old(script), SyncOperations(old(Now()), desired)) ==> r == Done && failed == {}
    {
      hide Undesired;
      hide CountsOf;
      hide Between;
      hide Used;
      hide AtFinal;
      hide NeedsInstall;
      hide Final;
      hide Same;
      hide Removed;
      hide Reached;
      hide PartCounts;
      hide AllCounts;
      hide Fresh;
      hide Answer;
      hide After;
      hide Calm;
      hide Faultless;
      hide SyncOperations;
      ghost var s, a, b := Now(), 4 * |desired.Keys|, |Undesired(manifest, desired)|;
      var recorded;
      r, failed, result, recorded := SyncDesired(desired, manifest);
      UsedCalm(old(script), script, r == Stopped, a);
      ReachedHolds(s, State(dest, recorded), desired, failed);
      CalmSync(old(script), s, desired, a, b);
      ghost var calm := Calm(old(script), SyncOperations(s, desired));
      assert calm ==> r == Done && failed == {} && |script| >= b + 1 && Faultless(script);
      if r == Done {
        ghost var middle, recorded1, second := dest, recorded, script;
        KeysNotDesired(recorded1, s.manifest, desired);
        r, recorded, result := SyncRemovals(s, desired, recorded, result);
        UsedCalm(second, script, r == Stopped, b);
        assert calm ==> r == Done && |script| >= 1 && Faultless(script);
        if r == Done {
          CalmOne(script);
          r := Attempt();
          if r == Done {
            manifest := recorded;
            RemovedRest(middle, recorded1, dest, recorded, desired);
            FinalReached(s, middle, recorded1, Now(), desired, failed);
            AllCountsAre(s, desired, failed);
            DoneHoldsDesired(s, Now(), desired, failed);
            return;
          }
        }
      }
      UnsavedIsBetween(s, dest, recorded, desired);
    }

    /**
     `syncEphemeralHarnessAssetsWithPreview`: a session-local home has no manifest, so missing files are installed and
     nothing is replaced or removed. Every path is visited once, so what the loop records is never consulted.
     */
    method SyncEphemeral(desired: Desired) returns (r: Outcome, failed: set<Path>, result: Counts)
      requires Fresh(desired)
      modifies this`dest, this`script
      ensures r != Failed
      ensures Between(State(old(dest), map[]), State(dest, map[]), desired)
      ensures forall p :: p in failed ==> p in desired && p !in old(dest)
      ensures r == Done ==> forall p: Path :: p !in failed ==> Same(dest, Final(State(old(dest), map[]), desired).dest, p)
      ensures r == Done ==> result == PartCounts(State(old(dest), map[]), desired, failed)
      ensures r == Done && failed == {} ==> dest == Final(State(old(dest), map[]), desired).dest
      ensures r == Done && failed == {} ==> result == AllCounts(State(old(dest), map[]), desired)
      ensures Calm(old(script), 4 * |desired.Keys|) ==> r == Done && failed == {}
    {
      hide *;
      ghost var s, n := State(dest, map[]), 4 * |desired.Keys|;
      var recorded;
      r, failed, result, recorded := SyncDesired(desired, map[]);
      UsedCalm(old(script), script, r == Stopped, n);
      CalmIs(old(script), n);
      EphemeralReached(s, State(dest, recorded), desired, failed);
    }
  }

  /** The recorded paths that are no longer desired. */
  function Undesired(recorded: map<Path, Mark>, desired: Desired): set<Path> {
    recorded.Keys - desired.Keys
  }

  /** More operations than a sync can need. */
  function SyncOperations(s: State, desired: Desired): nat {
    4 * |desired.Keys| + |Undesired(s.manifest, desired)| + 1
  }

  /** Missing, or managed and not matching: nothing else is installed, so nothing else can fail. */
  predicate NeedsInstall(s: State, desired: Desired, p: Path) {
    p in desired && (p !in s.dest || (p in s.manifest && s.dest[p].mark != Some(desired[p].mark)))
  }

  /** The paths in `done` are where an undisturbed sync has them. */
  ghost predicate AtFinal(s: State, t: State, desired: Desired, done: set<Path>) {
    forall p :: p in done ==> Same(t.dest, Final(s, desired).dest, p) && Same(t.manifest, Final(s, desired).manifest, p)
  }

  /** What a sync counts before deletions when the installations in `failed` failed: those are conflicts. */
  function PartCounts(s: State, desired: Desired, failed: set<Path>): Counts {
    var c := CountsOf(s, desired, desired.Keys - failed);
    c.(conflicts := c.conflicts + |failed|)
  }

  /** One desired path is done: what is there, what is recorded and what is counted. A path that is there and not ours
      is adopted if it holds the desired mark, and else a conflict that stays as it is and is not recorded. */
  predicate PathSynced(s: State, t: State, p: Path, e: Entry, counted: Counts, counted': Counts) {
    var holds := p in s.dest && s.dest[p].mark == Some(e.mark);
    && p in t.dest
    && t.dest[p] == (if p in s.dest && (p !in s.manifest || holds) then s.dest[p] else e.source)
    && (p in t.manifest <==> p in s.manifest || p !in s.dest || holds)
    && (p in t.manifest ==> t.manifest[p] == if p in s.manifest && holds then s.manifest[p] else e.mark)
    && counted' == Counts(
         counted.added + (if p !in s.dest then 1 else 0),
         counted.updated + (if p in s.dest && p in s.manifest && !holds then 1 else 0),
         counted.adopted + (if p in s.dest && p !in s.manifest && holds then 1 else 0),
         counted.deleted,
         counted.conflicts + (if p in s.dest && p !in s.manifest && !holds then 1 else 0))
  }

  /** What holds wherever the loop over desired paths ends. */
  ghost predicate Reached(s: State, t: State, desired: Desired, failed: set<Path>) {
    && Between(s, t, desired)
    && (forall p: Path :: p !in desired ==> Same(t.dest, s.dest, p) && Same(t.manifest, s.manifest, p))
    && forall p :: p in failed ==> NeedsInstall(s, desired, p) && Same(t.manifest, s.manifest, p)
  }

  /** The loop has been through all desired paths but those in `todo`. */
  ghost predicate SoFar(s: State, t: State, desired: Desired, todo: set<Path>, failed: set<Path>, result: Counts) {
    var done := desired.Keys - todo;
    && failed <= done
    && Reached(s, t, desired, failed)
    && (forall p: Path :: p !in done ==> Same(t.dest, s.dest, p) && Same(t.manifest, s.manifest, p))
    && AtFinal(s, t, desired, done - failed)
    && var c := CountsOf(s, desired, done - failed); result == c.(conflicts := c.conflicts + |failed|)
  }

  lemma LoopStarts(s: State, desired: Desired)
    ensures SoFar(s, s, desired, desired.Keys, {}, Counts(0, 0, 0, 0, 0))
  {
    StartIsBetween(s, desired);
    NothingCounted(s, desired);
    hide Between;
    hide CountsOf;
    var none: set<Path> := {};
    assert desired.Keys - desired.Keys - none == none;
  }

  lemma LoopEnds(s: State, t: State, desired: Desired, failed: set<Path>, result: Counts)
    requires SoFar(s, t, desired, {}, failed, result)
    ensures Reached(s, t, desired, failed)
    ensures AtFinal(s, t, desired, desired.Keys - failed)
    ensures result == PartCounts(s, desired, failed)
  {
    hide Reached;
    hide AtFinal;
    hide CountsOf;
    assert desired.Keys - {} == desired.Keys;
  }

  lemma FreshAt(desired: Desired, p: Path)
    requires Fresh(desired) && p in desired
    ensures desired[p].source.mark == Some(desired[p].mark)
  {
  }

  lemma OthersAsBefore(s: State, t: State, t': State, p: Path, done: set<Path>, failed: set<Path>)
    requires forall q: Path :: q != p ==> Same(t'.dest, t.dest, q) && Same(t'.manifest, t.manifest, q)
    requires forall q: Path :: q !in done ==> Same(t.dest, s.dest, q) && Same(t.manifest, s.manifest, q)
    requires p !in done && failed <= done && forall q :: q in failed ==> Same(t.manifest, s.manifest, q)
    ensures forall q: Path :: q !in done + {p} ==> Same(t'.dest, s.dest, q) && Same(t'.manifest, s.manifest, q)
    ensures forall q :: q in failed ==> Same(t'.manifest, s.manifest, q)
  {
    forall q: Path | q !in done + {p}
      ensures Same(t'.dest, s.dest, q) && Same(t'.manifest, s.manifest, q)
    {
      assert Same(t'.dest, t.dest, q) && Same(t'.manifest, t.manifest, q);
      assert Same(t.dest, s.dest, q) && Same(t.manifest, s.manifest, q);
    }
    forall q | q in failed
      ensures Same(t'.manifest, s.manifest, q)
    {
      assert Same(t'.manifest, t.manifest, q) && Same(t.manifest, s.manifest, q);
    }
  }

  lemma ReachedStep(s: State, t: State, t': State, desired: Desired, done: set<Path>, failed: set<Path>, p: Path)
    requires Reached(s, t, desired, failed) && p in desired && p !in done && failed <= done
    requires forall q: Path :: q !in done ==> Same(t.dest, s.dest, q) && Same(t.manifest, s.manifest, q)
    requires forall q: Path :: q != p ==> Same(t'.dest, t.dest, q) && Same(t'.manifest, t.manifest, q)
    requires DesiredBetween(t, t', p, desired[p])
    ensures Reached(s, t', desired, failed)
    ensures forall q: Path :: q !in done + {p} ==> Same(t'.dest, s.dest, q) && Same(t'.manifest, s.manifest, q)
  {
    assert Same(t.dest, s.dest, p) && Same(t.manifest, s.manifest, p);
    hide Between;
    hide DesiredBetween;
    hide OtherBetween;
    hide NeedsInstall;
    assert Same(t'.dest, t'.dest, p) && Same(t'.manifest, t'.manifest, p);
    BetweenAt(s, t, t', t', p, desired);
    BetweenStep(s, t, t', p, desired);
    OthersAsBefore(s, t, t', p, done, failed);
    forall q: Path | q !in desired
      ensures Same(t'.dest, s.dest, q) && Same(t'.manifest, s.manifest, q)
    {
      assert Same(t'.dest, t.dest, q) && Same(t'.manifest, t.manifest, q);
    }
  }

  lemma LoopSteps(s: State, t: State, t': State, desired: Desired, todo: set<Path>, failed: set<Path>, p: Path, r: Outcome,
                  counted: Counts, counted': Counts)
    requires SoFar(s, t, desired, todo, failed, counted) && p in desired && p in todo && todo <= desired.Keys
    requires forall q: Path :: q != p ==> Same(t'.dest, t.dest, q) && Same(t'.manifest, t.manifest, q)
    requires DesiredBetween(t, t', p, desired[p])
    requires r != Done ==> t'.manifest == t.manifest
    requires r == Failed ==> p !in t.dest || (p in t.manifest && !Matches(t.dest, p, desired[p]))
    requires r == Failed ==> counted' == counted.(conflicts := counted.conflicts + 1)
    requires r == Done ==> PathSynced(t, t', p, desired[p], counted, counted')
    ensures Reached(s, t', desired, failed)
    ensures r == Done ==> SoFar(s, t', desired, todo - {p}, failed, counted')
    ensures r == Failed ==> SoFar(s, t', desired, todo - {p}, failed + {p}, counted')
  {
    hide Reached;
    hide AtFinal;
    hide CountsOf;
    hide PathSynced;
    hide DesiredBetween;
    hide Same;
    hide Matches;
    var done := desired.Keys - todo;
    assert desired.Keys - (todo - {p}) == done + {p};
    assert Same(t.dest, s.dest, p) && Same(t.manifest, s.manifest, p);
    ReachedStep(s, t, t', desired, done, failed, p);
    if r == Failed {
      FailedStep(s, t, t', desired, done, failed, p);
    } else if r == Done {
      assert done + {p} - failed == (done - failed) + {p};
      SyncedIsFinal(s, t, t', desired, p, counted, counted');
      AtFinalStep(s, t, t', desired, done - failed, p, true);
      CountOneMore(s, desired, done - failed, p);
      hide IsStale;
      hide IsAdoptable;
      hide IsForeign;
    }
  }

  lemma FailedStep(s: State, t: State, t': State, desired: Desired, done: set<Path>, failed: set<Path>, p: Path)
    requires p in desired && p !in done && failed <= done <= desired.Keys
    requires Same(t.dest, s.dest, p) && Same(t.manifest, s.manifest, p) && t'.manifest == t.manifest
    requires p !in t.dest || (p in t.manifest && !Matches(t.dest, p, desired[p]))
    requires forall q: Path :: q != p ==> Same(t'.dest, t.dest, q) && Same(t'.manifest, t.manifest, q)
    requires Reached(s, t', desired, failed) && AtFinal(s, t, desired, done - failed)
    ensures Reached(s, t', desired, failed + {p})
    ensures AtFinal(s, t', desired, done + {p} - (failed + {p}))
    ensures done + {p} - (failed + {p}) == done - failed && |failed + {p}| == |failed| + 1
  {
    FailedNeeds(s, t, desired, p);
    hide Between;
    hide NeedsInstall;
    hide Final;
    hide Matches;
    assert done + {p} - (failed + {p}) == done - failed;
    AtFinalStep(s, t, t', desired, done - failed, p, false);
    assert Same(t'.manifest, s.manifest, p);
  }

  lemma SyncedIsFinal(s: State, t: State, t': State, desired: Desired, p: Path, counted: Counts, counted': Counts)
    requires p in desired && Same(t.dest, s.dest, p) && Same(t.manifest, s.manifest, p)
    requires PathSynced(t, t', p, desired[p], counted, counted')
    ensures Same(t'.dest, Final(s, desired).dest, p) && Same(t'.manifest, Final(s, desired).manifest, p)
    ensures counted' == Counts(counted.added + (if p !in s.dest then 1 else 0),
                               counted.updated + (if IsStale(s, desired, p) then 1 else 0),
                               counted.adopted + (if IsAdoptable(s, desired, p) then 1 else 0),
                               counted.deleted,
                               counted.conflicts + (if IsForeign(s, desired, p) then 1 else 0))
  {
  }

  lemma ReachedHolds(s: State, t: State, desired: Desired, failed: set<Path>)
    requires Reached(s, t, desired, failed)
    ensures Between(s, t, desired)
    ensures forall p: Path :: p !in desired ==> Same(t.dest, s.dest, p) && Same(t.manifest, s.manifest, p)
    ensures forall p :: p in failed ==> NeedsInstall(s, desired, p) && Same(t.manifest, s.manifest, p)
  {
    hide Between;
    hide Same;
    hide NeedsInstall;
  }

  lemma DoneHoldsDesired(s: State, t: State, desired: Desired, failed: set<Path>)
    requires Fresh(desired)
    requires forall p: Path :: p !in failed ==>
               Same(t.dest, Final(s, desired).dest, p) && Same(t.manifest, Final(s, desired).manifest, p)
    ensures forall p :: p in t.manifest && p !in failed ==>
              p in desired && p in t.dest && t.dest[p].mark == Some(desired[p].mark)
  {
    RecordedHoldsDesired(s, desired);
    hide Final;
    forall p | p in t.manifest && p !in failed
      ensures p in desired && p in t.dest && t.dest[p].mark == Some(desired[p].mark)
    {
      assert Same(t.dest, Final(s, desired).dest, p) && Same(t.manifest, Final(s, desired).manifest, p);
    }
  }

  lemma AllCountsAre(s: State, desired: Desired, failed: set<Path>)
    ensures PartCounts(s, desired, failed).deleted == 0
    ensures failed == {} ==> PartCounts(s, desired, failed).(deleted := |Undesired(s.manifest, desired)|) == AllCounts(s, desired)
  {
    hide Absent;
    hide Stale;
    hide Adoptable;
    hide Foreign;
    assert failed == {} ==> desired.Keys - failed == desired.Keys;
  }

  lemma CalmSync(script: Script, s: State, desired: Desired, a: int, b: int)
    requires a == 4 * |desired.Keys| && b == |Undesired(s.manifest, desired)|
    ensures Calm(script, SyncOperations(s, desired)) ==> |script| >= a + b + 1 && Faultless(script)
  {
  }

  lemma CalmIs(script: Script, n: int)
    ensures Calm(script, n) ==> |script| >= n && Faultless(script)
  {
  }

  lemma EphemeralReached(s: State, t: State, desired: Desired, failed: set<Path>)
    requires s.manifest == map[] && Reached(s, t, desired, failed)
    ensures Between(s, State(t.dest, map[]), desired)
    ensures forall p :: p in failed ==> p in desired && p !in s.dest
    ensures AtFinal(s, t, desired, desired.Keys - failed) ==>
              forall p: Path :: p !in failed ==> Same(t.dest, Final(s, desired).dest, p)
    ensures AtFinal(s, t, desired, desired.Keys - failed) && failed == {} ==> t.dest == Final(s, desired).dest
    ensures failed == {} ==> PartCounts(s, desired, failed) == AllCounts(s, desired)
  {
    UnsavedIsBetween(s, t.dest, t.manifest, desired);
    AllCountsAre(s, desired, failed);
    hide Between;
    hide AllCounts;
    hide PartCounts;
    assert forall p :: p in failed ==> NeedsInstall(s, desired, p);
    if AtFinal(s, t, desired, desired.Keys - failed) {
      EphemeralFinal(s, t, desired, failed);
    }
  }

  lemma EphemeralFinal(s: State, t: State, desired: Desired, failed: set<Path>)
    requires s.manifest == map[] && AtFinal(s, t, desired, desired.Keys - failed)
    requires forall p: Path :: p !in desired ==> Same(t.dest, s.dest, p) && Same(t.manifest, s.manifest, p)
    ensures forall p: Path :: p !in failed ==> Same(t.dest, Final(s, desired).dest, p)
    ensures failed == {} ==> t.dest == Final(s, desired).dest
  {
    var f := Final(s, desired).dest;
    forall p: Path | p !in failed
      ensures Same(t.dest, f, p)
    {
      if p !in desired {
        assert Same(t.dest, s.dest, p);
      }
    }
    hide Final;
    hide Same;
    if failed == {} {
      SameEverywhere(t.dest, f);
    }
  }

  lemma CalmOne(script: Script)
    ensures |script| >= 1 && Faultless(script) ==> Answer(script) == Done
  {
    if |script| >= 1 && Faultless(script) {
      CalmStep(script, 1);
    }
  }

  lemma FewerLeft(todo: set<Path>, gone: set<Path>, p: Path)
    requires p in todo && todo <= gone
    ensures |todo - {p}| == |todo| - 1 && todo - {p} <= gone
  {
  }

  /** Of `gone`, all but `todo` have been removed. */
  ghost predicate RemovedBut(dest0: map<Path, Content>, recorded0: map<Path, Mark>, t: State, gone: set<Path>, todo: set<Path>) {
    Removed(dest0, recorded0, t.dest, t.manifest, gone - todo)
  }

  lemma NoneRemovedYet(dest: map<Path, Content>, recorded: map<Path, Mark>, gone: set<Path>)
    ensures RemovedBut(dest, recorded, State(dest, recorded), gone, gone)
  {
    NothingRemoved(dest, recorded);
    hide Removed;
    assert gone - gone == {};
  }

  lemma AllRemoved(dest0: map<Path, Content>, recorded0: map<Path, Mark>, t: State, gone: set<Path>)
    requires RemovedBut(dest0, recorded0, t, gone, {})
    ensures Removed(dest0, recorded0, t.dest, t.manifest, gone)
  {
    hide Removed;
    assert gone - {} == gone;
  }

  lemma RemovalHolds(s: State, t: State, t': State, dest0: map<Path, Content>, recorded0: map<Path, Mark>,
                     gone: set<Path>, todo: set<Path>, p: Path, desired: Desired, r: Outcome)
    requires forall q: Path :: q !in desired ==> Same(recorded0, s.manifest, q)
    requires gone == Undesired(recorded0, desired) && todo <= gone && p in todo
    requires Between(s, t, desired) && RemovedBut(dest0, recorded0, t, gone, todo)
    requires forall q: Path :: q != p ==> Same(t'.dest, t.dest, q) && Same(t'.manifest, t.manifest, q)
    requires if r == Done then p !in t'.dest && p !in t'.manifest else t'.manifest == t.manifest
    ensures Between(s, t', desired)
    ensures r == Done ==> RemovedBut(dest0, recorded0, t', gone, todo - {p})
  {
    assert Same(recorded0, s.manifest, p);
    SameHas(recorded0, s.manifest, p);
    hide Between;
    hide Removed;
    hide Same;
    RemovalAllowed(s, t, t', dest0, recorded0, gone - todo, p, desired);
    if r == Done {
      RemovedStep(dest0, recorded0, t, t', gone - todo, p);
      assert gone - (todo - {p}) == gone - todo + {p};
    }
  }

  lemma SameHas(a: map<Path, Mark>, b: map<Path, Mark>, p: Path)
    requires Same(a, b, p)
    ensures p in a <==> p in b
  {
  }

  lemma ChangedAt(a: map<Path, Content>, b: map<Path, Content>, p: Path)
    requires forall q: Path :: q != p ==> (q in a <==> q in b) && (q in a ==> a[q] == b[q])
    ensures forall q: Path :: q != p ==> Same(b, a, q)
    ensures a == b ==> Same(b, a, p)
  {
  }

  lemma AtFinalStep(s: State, t: State, t': State, desired: Desired, done: set<Path>, p: Path, reached: bool)
    requires AtFinal(s, t, desired, done) && p !in done
    requires forall q: Path :: q != p ==> Same(t'.dest, t.dest, q) && Same(t'.manifest, t.manifest, q)
    requires reached ==> Same(t'.dest, Final(s, desired).dest, p) && Same(t'.manifest, Final(s, desired).manifest, p)
    ensures AtFinal(s, t', desired, if reached then done + {p} else done)
  {
    var f := Final(s, desired);
    hide Final;
    forall q | q in done
      ensures Same(t'.dest, f.dest, q) && Same(t'.manifest, f.manifest, q)
    {
      assert Same(t'.dest, t.dest, q) && Same(t'.manifest, t.manifest, q);
      assert Same(t.dest, f.dest, q) && Same(t.manifest, f.manifest, q);
    }
  }

  lemma FailedNeeds(s: State, t: State, desired: Desired, p: Path)
    requires p in desired && Same(t.dest, s.dest, p) && Same(t.manifest, s.manifest, p)
    requires p !in t.dest || (p in t.manifest && !Matches(t.dest, p, desired[p]))
    ensures NeedsInstall(s, desired, p)
  {
  }

  lemma RemovedRest(dest0: map<Path, Content>, recorded0: map<Path, Mark>, dest: map<Path, Content>, recorded: map<Path, Mark>,
                    desired: Desired)
    requires Removed(dest0, recorded0, dest, recorded, Undesired(recorded0, desired))
    ensures forall p: Path :: p in desired || p !in recorded0 ==> Same(dest, dest0, p) && Same(recorded, recorded0, p)
    ensures forall p: Path :: p !in desired && p in recorded0 ==> p !in dest && p !in recorded
  {
    forall p: Path
      ensures p in desired || p !in recorded0 ==> Same(dest, dest0, p) && Same(recorded, recorded0, p)
      ensures p !in desired && p in recorded0 ==> p !in dest && p !in recorded
    {
      assert if p in recorded0.Keys - desired.Keys then p !in dest && p !in recorded
             else Same(dest, dest0, p) && Same(recorded, recorded0, p);
    }
  }

  lemma NothingCounted(s: State, desired: Desired)
    ensures CountsOf(s, desired, {}) == Counts(0, 0, 0, 0, 0)
  {
    assert Absent(s, {}) == {} && Stale(s, desired, {}) == {} && Adoptable(s, desired, {}) == {} && Foreign(s, desired, {}) == {};
  }

  lemma KeysNotDesired(a: map<Path, Mark>, b: map<Path, Mark>, desired: Desired)
    requires forall p: Path :: p !in desired ==> Same(a, b, p)
    ensures Undesired(a, desired) == Undesired(b, desired)
  {
    forall p: Path
      ensures p in a.Keys - desired.Keys <==> p in b.Keys - desired.Keys
    {
      if p !in desired {
        assert Same(a, b, p);
      }
    }
  }

  /** The two loops together have put every path but the failed ones where `Final` has it. */
  lemma FinalReached(s: State, middle: map<Path, Content>, recorded: map<Path, Mark>, t: State, desired: Desired,
                     failed: set<Path>)
    requires failed <= desired.Keys
    requires forall p: Path :: p !in desired ==> Same(middle, s.dest, p) && Same(recorded, s.manifest, p)
    requires AtFinal(s, State(middle, recorded), desired, desired.Keys - failed)
    requires forall p :: p in failed ==> Same(recorded, s.manifest, p)
    requires forall p: Path :: p in desired || p !in recorded ==> Same(t.dest, middle, p) && Same(t.manifest, recorded, p)
    requires forall p: Path :: p !in desired && p in recorded ==> p !in t.dest && p !in t.manifest
    ensures forall p: Path :: p !in failed ==> Same(t.dest, Final(s, desired).dest, p) && Same(t.manifest, Final(s, desired).manifest, p)
    ensures forall p :: p in failed ==> Same(t.manifest, s.manifest, p)
    ensures failed == {} ==> t == Final(s, desired)
    ensures failed == {} ==> desired.Keys - failed == desired.Keys
  {
    var f := Final(s, desired);
    forall p: Path | p !in failed
      ensures Same(t.dest, f.dest, p) && Same(t.manifest, f.manifest, p)
    {
      if p in desired {
        assert Same(middle, f.dest, p) && Same(recorded, f.manifest, p);
        assert Same(t.dest, middle, p) && Same(t.manifest, recorded, p);
      } else {
        assert Same(middle, s.dest, p) && Same(recorded, s.manifest, p);
        if p !in recorded {
          assert Same(t.dest, middle, p) && Same(t.manifest, recorded, p);
        }
      }
    }
    forall p | p in failed
      ensures Same(t.manifest, s.manifest, p)
    {
      assert Same(t.manifest, recorded, p);
    }
    if failed == {} {
      SameEverywhere(t.dest, f.dest);
      SameEverywhere(t.manifest, f.manifest);
    }
  }
}
