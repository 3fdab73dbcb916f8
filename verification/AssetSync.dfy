/**
 The sync of managed prompt assets into the agent's home: a manifest records
 which destinations hazmat owns, files are replaced by renames, and the
 manifest is written last.

 `Final` says what an undisturbed sync leaves. `Between` says, path by path,
 what a sync that stopped or failed anywhere may leave. Class `AssetStore` runs
 the sync in place; every exit of its `Sync` is `Between`, and the main result
 is that a rerun from such a state ends where an undisturbed sync would.
 */
module AssetSync {
  import opened Wrappers

  type Path = string

  /** What the fingerprint walk reports of a readable asset. */
  datatype Mark = Mark(kind: string, fingerprint: string)

  /** `mark` is None for what the walk refuses to read; `data` keeps contents apart that share a fingerprint. */
  datatype Content = Content(mark: Option<Mark>, data: string)

  datatype Entry = Entry(source: Content, mark: Mark)

  type Desired = map<Path, Entry>

  datatype State = State(dest: map<Path, Content>, manifest: map<Path, Mark>)

  datatype Counts = Counts(added: nat, updated: nat, adopted: nat, deleted: nat, conflicts: nat)

  /** The sources still have the fingerprints they were collected with. */
  predicate Fresh(desired: Desired) {
    forall p :: p in desired ==> desired[p].source.mark == Some(desired[p].mark)
  }

  predicate Matches(dest: map<Path, Content>, p: Path, e: Entry) {
    p in dest && dest[p].mark == Some(e.mark)
  }

  // ----- an undisturbed sync

  /** Desired paths keep what matches or is not ours and otherwise get their source; managed paths no longer desired go. */
  function Final(s: State, desired: Desired): State {
    State(
      map p | p in desired.Keys + (s.dest.Keys - s.manifest.Keys)
        :: if p !in desired then s.dest[p]
           else if p in s.dest && (p !in s.manifest || Matches(s.dest, p, desired[p])) then s.dest[p]
           else desired[p].source,
      map p | p in desired && (p in s.manifest || p !in s.dest || Matches(s.dest, p, desired[p]))
        :: if p in s.manifest && Matches(s.dest, p, desired[p]) then s.manifest[p] else desired[p].mark)
  }

  // ----- a sync stopped or failing anywhere

  /** What may be found at a desired path. */
  predicate DesiredBetween(s: State, t: State, p: Path, e: Entry) {
    var untouched := if p in s.dest then p in t.dest && t.dest[p] == s.dest[p] else p !in t.dest;
    var installed := p in t.dest && t.dest[p] == e.source;
    if p in s.manifest then
      && p in t.manifest
      && (t.manifest[p] == s.manifest[p] || (t.manifest[p] == e.mark && installed && !Matches(s.dest, p, e)))
      && (untouched || (!Matches(s.dest, p, e) && (installed || p !in t.dest)))
    else
      && (p in t.manifest ==> t.manifest[p] == e.mark && Matches(t.dest, p, e))
      && (untouched || (p !in s.dest && installed))
  }

  /** What may be found at a path that is not desired. */
  predicate OtherBetween(s: State, t: State, p: Path) {
    if p in s.manifest then
      if p in t.manifest then t.manifest[p] == s.manifest[p] else p !in t.dest
    else
      && p !in t.manifest
      && (if p in s.dest then p in t.dest && t.dest[p] == s.dest[p] else p !in t.dest)
  }

  ghost predicate Between(s: State, t: State, desired: Desired) {
    forall p: Path :: if p in desired then DesiredBetween(s, t, p, desired[p]) else OtherBetween(s, t, p)
  }

  /** Rerunning after a stop or failure gives the destinations and the set of managed paths of an undisturbed sync. */
  lemma RerunReachesSame(s: State, t: State, desired: Desired)
    requires Fresh(desired) && Between(s, t, desired)
    ensures Final(t, desired).dest == Final(s, desired).dest
    ensures Final(t, desired).manifest.Keys == Final(s, desired).manifest.Keys
  {
    hide Final;
    forall p: Path
      ensures p in Final(t, desired).dest <==> p in Final(s, desired).dest
      ensures p in Final(s, desired).dest ==> Final(t, desired).dest[p] == Final(s, desired).dest[p]
      ensures p in Final(t, desired).manifest <==> p in Final(s, desired).manifest
    {
      RerunAt(s, t, desired, p);
    }
  }

  lemma RerunAt(s: State, t: State, desired: Desired, p: Path)
    requires Fresh(desired) && Between(s, t, desired)
    ensures p in Final(t, desired).dest <==> p in Final(s, desired).dest
    ensures p in Final(s, desired).dest ==> Final(t, desired).dest[p] == Final(s, desired).dest[p]
    ensures p in Final(t, desired).manifest <==> p in Final(s, desired).manifest
  {
    assert if p in desired then DesiredBetween(s, t, p, desired[p]) else OtherBetween(s, t, p);
  }

  lemma DesiredBetweenTrans(s: State, t: State, u: State, p: Path, e: Entry)
    requires e.source.mark == Some(e.mark) && DesiredBetween(s, t, p, e) && DesiredBetween(t, u, p, e)
    ensures DesiredBetween(s, u, p, e)
  {
  }

  /** Where an attempt may leave a state that an earlier attempt left is where one attempt might have left it. */
  lemma BetweenTrans(s: State, t: State, u: State, desired: Desired)
    requires Fresh(desired) && Between(s, t, desired) && Between(t, u, desired)
    ensures Between(s, u, desired)
  {
    hide DesiredBetween;
    forall p: Path
      ensures if p in desired then DesiredBetween(s, u, p, desired[p]) else OtherBetween(s, u, p)
    {
      assert if p in desired then DesiredBetween(s, t, p, desired[p]) else OtherBetween(s, t, p);
      assert if p in desired then DesiredBetween(t, u, p, desired[p]) else OtherBetween(t, u, p);
      if p in desired {
        DesiredBetweenTrans(s, t, u, p, desired[p]);
      }
    }
  }

  lemma {:induction false} RetriesAreBetween(states: seq<State>, desired: Desired)
    requires states != [] && Fresh(desired)
    requires forall i :: 0 < i < |states| ==> Between(states[i - 1], states[i], desired)
    ensures Between(states[0], states[|states| - 1], desired)
  {
    if |states| > 1 {
      hide Between;
      var n := |states| - 1;
      RetriesAreBetween(states[..n], desired);
      BetweenTrans(states[0], states[n - 1], states[n], desired);
    }
  }

  /** The same after any number of stopped or failed attempts. */
  lemma RetriesReachSame(states: seq<State>, desired: Desired)
    requires states != [] && Fresh(desired)
    requires forall i :: 0 < i < |states| ==> Between(states[i - 1], states[i], desired)
    ensures Final(states[|states| - 1], desired).dest == Final(states[0], desired).dest
    ensures Final(states[|states| - 1], desired).manifest.Keys == Final(states[0], desired).manifest.Keys
  {
    RetriesAreBetween(states, desired);
    hide *;
    RerunReachesSame(states[0], states[|states| - 1], desired);
  }

  /** Every managed path that did not match and now does has its new fingerprint recorded. */
  predicate RecordsUpToDate(s: State, t: State, desired: Desired) {
    forall p :: p in desired && p in s.manifest && !Matches(s.dest, p, desired[p]) && Matches(t.dest, p, desired[p])
      ==> p in t.manifest && t.manifest[p] == desired[p].mark
  }

  lemma FinalMarkAt(s: State, t: State, desired: Desired, p: Path)
    requires Fresh(desired) && Between(s, t, desired) && p in Final(s, desired).manifest
    ensures p in Final(t, desired).manifest && p in desired
    ensures Final(t, desired).manifest[p] == Final(s, desired).manifest[p]
            <==> (p in s.manifest && !Matches(s.dest, p, desired[p]) && Matches(t.dest, p, desired[p])
                  ==> t.manifest[p] == desired[p].mark)
  {
    assert DesiredBetween(s, t, p, desired[p]);
  }

  /** The manifests agree too exactly if the stop left no such path with its old record. By `RetriesAreBetween` this
      also holds of any number of attempts. */
  lemma ManifestsAgreeIff(s: State, t: State, desired: Desired)
    requires Fresh(desired) && Between(s, t, desired)
    ensures Final(t, desired) == Final(s, desired) <==> RecordsUpToDate(s, t, desired)
  {
    RerunReachesSame(s, t, desired);
    var a, b := Final(s, desired).manifest, Final(t, desired).manifest;
    hide Between;
    hide Final;
    forall p | p in a
      ensures p in desired
      ensures b[p] == a[p]
              <==> (p in s.manifest && !Matches(s.dest, p, desired[p]) && Matches(t.dest, p, desired[p])
                    ==> t.manifest[p] == desired[p].mark)
    {
      FinalMarkAt(s, t, desired, p);
    }
    if RecordsUpToDate(s, t, desired) {
      assert b == a;
    } else {
      var p :| p in desired && p in s.manifest && !Matches(s.dest, p, desired[p]) && Matches(t.dest, p, desired[p])
               && !(p in t.manifest && t.manifest[p] == desired[p].mark);
      OldRecordStays(s, t, desired, p);
    }
  }

  lemma OldRecordStays(s: State, t: State, desired: Desired, p: Path)
    requires Fresh(desired) && Between(s, t, desired) && p in desired && p in s.manifest
    ensures p in t.manifest && p in Final(s, desired).manifest
  {
    assert DesiredBetween(s, t, p, desired[p]);
  }

  /** A second sync changes no file and no manifest entry. */
  lemma SecondSyncIsIdle(s: State, desired: Desired)
    requires Fresh(desired)
    ensures Final(Final(s, desired), desired) == Final(s, desired)
  {
    var t := Final(s, desired);
    var u := Final(t, desired);
    assert u.dest.Keys == t.dest.Keys;
    assert u.manifest.Keys == t.manifest.Keys;
    assert u.dest == t.dest;
    assert u.manifest == t.manifest;
  }

  /** Only paths that are managed or newly installed change: a file that is not ours and differs, or is not asked for, stays. */
  lemma ForeignFilesStay(s: State, t: State, desired: Desired, p: Path)
    requires Between(s, t, desired)
    requires p !in s.manifest && p in s.dest
    ensures p in t.dest && t.dest[p] == s.dest[p]
    ensures p in Final(s, desired).dest && Final(s, desired).dest[p] == s.dest[p]
  {
    assert if p in desired then DesiredBetween(s, t, p, desired[p]) else OtherBetween(s, t, p);
  }

  /**
   The recorded fingerprints themselves may differ after a stop: a replaced path that already matches on the rerun
   keeps its old record. Here the run stopped just before the manifest was written.
   */
  lemma StopMayKeepOldFingerprint()
    ensures exists s: State, t: State, desired: Desired ::
              && Fresh(desired) && Between(s, t, desired)
              && Final(t, desired).manifest != Final(s, desired).manifest
  {
    var before := Mark("file", "sha256:old");
    var after := Mark("file", "sha256:new");
    var desired: Desired := map["p" := Entry(Content(Some(after), "new"), after)];
    var s := State(map["p" := Content(Some(before), "old")], map["p" := before]);
    var t := State(map["p" := Content(Some(after), "new")], map["p" := before]);
    assert Between(s, t, desired) by {
      assert forall p: Path :: if p in desired then DesiredBetween(s, t, p, desired[p]) else OtherBetween(s, t, p);
    }
    hide Between;
    assert Final(t, desired).manifest["p"] == before;
    assert Final(s, desired).manifest["p"] == after;
  }

  // ----- counts

  predicate IsStale(s: State, desired: Desired, p: Path)
    requires p in desired
  {
    p in s.dest && p in s.manifest && !Matches(s.dest, p, desired[p])
  }

  predicate IsAdoptable(s: State, desired: Desired, p: Path)
    requires p in desired
  {
    p in s.dest && p !in s.manifest && Matches(s.dest, p, desired[p])
  }

  predicate IsForeign(s: State, desired: Desired, p: Path)
    requires p in desired
  {
    p in s.dest && p !in s.manifest && !Matches(s.dest, p, desired[p])
  }

  function Absent(s: State, ps: set<Path>): set<Path> {
    set p | p in ps && p !in s.dest
  }

  function Stale(s: State, desired: Desired, ps: set<Path>): set<Path>
    requires ps <= desired.Keys
  {
    set p | p in ps && IsStale(s, desired, p)
  }

  function Adoptable(s: State, desired: Desired, ps: set<Path>): set<Path>
    requires ps <= desired.Keys
  {
    set p | p in ps && IsAdoptable(s, desired, p)
  }

  function Foreign(s: State, desired: Desired, ps: set<Path>): set<Path>
    requires ps <= desired.Keys
  {
    set p | p in ps && IsForeign(s, desired, p)
  }

  /** What a sync of the paths `ps` counts, before deletions. */
  function CountsOf(s: State, desired: Desired, ps: set<Path>): (c: Counts)
    requires ps <= desired.Keys
    ensures c.deleted == 0
  {
    Counts(|Absent(s, ps)|, |Stale(s, desired, ps)|, |Adoptable(s, desired, ps)|, 0, |Foreign(s, desired, ps)|)
  }

  function AllCounts(s: State, desired: Desired): Counts {
    CountsOf(s, desired, desired.Keys).(deleted := |s.manifest.Keys - desired.Keys|)
  }

  /** After a sync only the paths that were not ours and differed are left to report. */
  lemma SecondSyncCounts(s: State, desired: Desired)
    requires Fresh(desired)
    ensures AllCounts(Final(s, desired), desired) == Counts(0, 0, 0, 0, |Foreign(s, desired, desired.Keys)|)
  {
    var t := Final(s, desired);
    assert Absent(t, desired.Keys) == {};
    assert Stale(t, desired, desired.Keys) == {};
    assert Adoptable(t, desired, desired.Keys) == {};
    assert t.manifest.Keys - desired.Keys == {};
    assert Foreign(t, desired, desired.Keys) == Foreign(s, desired, desired.Keys);
  }

  lemma OneMore(a: set<Path>, b: set<Path>, p: Path, c: bool)
    requires p !in a && b == a + (if c then {p} else {})
    ensures |b| == |a| + (if c then 1 else 0)
  {
  }

  lemma AbsentOneMore(s: State, ps: set<Path>, p: Path)
    requires p !in ps
    ensures |Absent(s, ps + {p})| == |Absent(s, ps)| + (if p !in s.dest then 1 else 0)
  {
    OneMore(Absent(s, ps), Absent(s, ps + {p}), p, p !in s.dest);
  }

  lemma StaleOneMore(s: State, desired: Desired, ps: set<Path>, p: Path)
    requires p in desired && ps <= desired.Keys && p !in ps
    ensures |Stale(s, desired, ps + {p})| == |Stale(s, desired, ps)| + (if IsStale(s, desired, p) then 1 else 0)
  {
    hide IsStale;
    OneMore(Stale(s, desired, ps), Stale(s, desired, ps + {p}), p, IsStale(s, desired, p));
  }

  lemma AdoptableOneMore(s: State, desired: Desired, ps: set<Path>, p: Path)
    requires p in desired && ps <= desired.Keys && p !in ps
    ensures |Adoptable(s, desired, ps + {p})| == |Adoptable(s, desired, ps)| + (if IsAdoptable(s, desired, p) then 1 else 0)
  {
    hide IsAdoptable;
    OneMore(Adoptable(s, desired, ps), Adoptable(s, desired, ps + {p}), p, IsAdoptable(s, desired, p));
  }

  lemma ForeignOneMore(s: State, desired: Desired, ps: set<Path>, p: Path)
    requires p in desired && ps <= desired.Keys && p !in ps
    ensures |Foreign(s, desired, ps + {p})| == |Foreign(s, desired, ps)| + (if IsForeign(s, desired, p) then 1 else 0)
  {
    hide IsForeign;
    OneMore(Foreign(s, desired, ps), Foreign(s, desired, ps + {p}), p, IsForeign(s, desired, p));
  }

  lemma CountOneMore(s: State, desired: Desired, ps: set<Path>, p: Path)
    requires p in desired && ps <= desired.Keys && p !in ps
    ensures var c := CountsOf(s, desired, ps);
            CountsOf(s, desired, ps + {p}) ==
            Counts(c.added + (if p !in s.dest then 1 else 0),
                   c.updated + (if IsStale(s, desired, p) then 1 else 0),
                   c.adopted + (if IsAdoptable(s, desired, p) then 1 else 0),
                   0,
                   c.conflicts + (if IsForeign(s, desired, p) then 1 else 0))
  {
    hide IsStale;
    hide IsAdoptable;
    hide IsForeign;
    hide Absent;
    hide Stale;
    hide Adoptable;
    hide Foreign;
    AbsentOneMore(s, ps, p);
    StaleOneMore(s, desired, ps, p);
    AdoptableOneMore(s, desired, ps, p);
    ForeignOneMore(s, desired, ps, p);
  }

  // ----- what is recorded, adopted and counted, with the marks written out

  /** Whatever an undisturbed sync leaves recorded is a desired path that holds the desired asset. */
  lemma RecordedHoldsDesired(s: State, desired: Desired)
    requires forall p :: p in desired ==> desired[p].source.mark == Some(desired[p].mark)
    ensures var t := Final(s, desired);
            forall p :: p in t.manifest ==> p in desired && p in t.dest && t.dest[p].mark == Some(desired[p].mark)
  {
  }

  /** A desired path: ours is kept if it holds the desired mark and else replaced; an existing one that is not ours is
      kept, and recorded exactly if it holds the desired mark; a missing one is installed and recorded. */
  lemma FinalAt(s: State, desired: Desired, p: Path)
    requires p in desired
    ensures var t, e := Final(s, desired), desired[p];
            if p !in s.dest then p in t.dest && t.dest[p] == e.source && p in t.manifest && t.manifest[p] == e.mark
            else if p in s.manifest then
              && p in t.dest && p in t.manifest
              && (if s.dest[p].mark == Some(e.mark) then t.dest[p] == s.dest[p] && t.manifest[p] == s.manifest[p]
                  else t.dest[p] == e.source && t.manifest[p] == e.mark)
            else
              && p in t.dest && t.dest[p] == s.dest[p]
              && (p in t.manifest <==> s.dest[p].mark == Some(e.mark))
              && (p in t.manifest ==> t.manifest[p] == e.mark)
  {
  }

  /** A path that is not desired: ours goes, and any other stays. */
  lemma FinalOther(s: State, desired: Desired, p: Path)
    requires p !in desired
    ensures var t := Final(s, desired);
            && p !in t.manifest
            && (p in t.dest <==> p in s.dest && p !in s.manifest)
            && (p in t.dest ==> t.dest[p] == s.dest[p])
  {
  }

  /** However a sync ends, a path it newly recorded holds the desired asset, and one that was ours and held it is
      untouched. */
  lemma BetweenKeepsMarks(s: State, t: State, desired: Desired, p: Path)
    requires Between(s, t, desired)
    ensures p in t.manifest && p !in s.manifest ==>
              p in desired && p in t.dest && t.dest[p].mark == Some(desired[p].mark) && t.manifest[p] == desired[p].mark
    ensures p in desired && p in s.dest && s.dest[p].mark == Some(desired[p].mark) ==> p in t.dest && t.dest[p] == s.dest[p]
  {
    assert if p in desired then DesiredBetween(s, t, p, desired[p]) else OtherBetween(s, t, p);
  }

  /** What is counted: missing paths, ours that do not hold the desired mark, others that do, ours no longer desired,
      and others that do not. */
  lemma CountedByMarks(s: State, desired: Desired)
    ensures AllCounts(s, desired) == Counts(
              |set p | p in desired && p !in s.dest|,
              |set p | p in desired && p in s.dest && p in s.manifest && s.dest[p].mark != Some(desired[p].mark)|,
              |set p | p in desired && p in s.dest && p !in s.manifest && s.dest[p].mark == Some(desired[p].mark)|,
              |set p | p in s.manifest && p !in desired|,
              |set p | p in desired && p in s.dest && p !in s.manifest && s.dest[p].mark != Some(desired[p].mark)|)
  {
    assert Absent(s, desired.Keys) == set p | p in desired && p !in s.dest;
    assert Stale(s, desired, desired.Keys)
        == set p | p in desired && p in s.dest && p in s.manifest && s.dest[p].mark != Some(desired[p].mark);
    assert Adoptable(s, desired, desired.Keys)
        == set p | p in desired && p in s.dest && p !in s.manifest && s.dest[p].mark == Some(desired[p].mark);
    assert s.manifest.Keys - desired.Keys == set p | p in s.manifest && p !in desired;
    assert Foreign(s, desired, desired.Keys)
        == set p | p in desired && p in s.dest && p !in s.manifest && s.dest[p].mark != Some(desired[p].mark);
  }
}
