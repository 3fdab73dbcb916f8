/** Hook approvals: the records, the snapshots they point to, and every state an operation may be stopped in. */
module HookApproval {
  import opened Wrappers
  import opened HookBundle

  /** Snapshot directories sit under a directory named for their project, next to temporary ones. */
  datatype Dir = Snapshot(projectKey: string, bundleKey: string) | Temp(projectKey: string, n: nat)

  datatype Record = Record(project: string, hash: string, dir: Option<Dir>, approvedAt: string, chain: Option<string>)

  datatype State = State(records: seq<Record>, disk: map<Dir, Tree>)

  datatype Op =
    | Approve(project: string, bundle: Bundle, now: string)
    | SetChain(project: string, chain: Option<string>)
    | Remove(project: string)

  const PREFIX := "sha256:"

  function TrimPrefix(s: string): string {
    if PREFIX <= s then s[|PREFIX|..] else s
  }

  /** Both hashes are injective and carry the prefix that the directory names drop. */
  ghost predicate Sound(lib: Library) {
    && lib.Sound()
    && (forall p :: PREFIX <= lib.hashProject(p))
    && (forall c :: PREFIX <= lib.hashBundle(c))
  }

  function SnapDir(lib: Library, project: string, hash: string): Dir {
    Snapshot(TrimPrefix(lib.hashProject(project)), TrimPrefix(hash))
  }

  lemma TrimInjective(a: string, b: string)
    requires PREFIX <= a && PREFIX <= b && TrimPrefix(a) == TrimPrefix(b)
    ensures a == b
  {
    assert a == PREFIX + a[|PREFIX|..];
    assert b == PREFIX + b[|PREFIX|..];
  }

  lemma ProjectsApart(lib: Library, p: string, q: string, h: string, k: string)
    requires Sound(lib) && SnapDir(lib, p, h).projectKey == SnapDir(lib, q, k).projectKey
    ensures p == q
  {
    TrimInjective(lib.hashProject(p), lib.hashProject(q));
  }

  // ---- the approvals file -------------------------------------------------------------------------------------

  predicate Before(a: string, b: string) {
    b != [] && (a == [] || a[0] < b[0] || (a[0] == b[0] && Before(a[1..], b[1..])))
  }

  function Insert(r: Record, list: seq<Record>): seq<Record> {
    if list == [] then [r]
    else if Before(r.project, list[0].project) then [r] + list
    else [list[0]] + Insert(r, list[1..])
  }

  /** The order approvals are saved in. */
  function Sorted(list: seq<Record>): seq<Record> {
    if list == [] then [] else Insert(list[|list| - 1], Sorted(list[..|list| - 1]))
  }

  function Without(list: seq<Record>, project: string): seq<Record> {
    if list == [] then []
    else
      var last := list[|list| - 1];
      Without(list[..|list| - 1], project) + if last.project == project then [] else [last]
  }

  /** The snapshots the records of `project` point to, except `keep`. */
  function Stale(list: seq<Record>, project: string, keep: Option<Dir>): seq<Dir> {
    if list == [] then []
    else
      var last := list[|list| - 1];
      Stale(list[..|list| - 1], project, keep)
      + if last.project == project && last.dir.Some? && last.dir != keep then [last.dir.value] else []
  }

  predicate NamedOnce(list: seq<Record>) {
    forall i, j :: 0 <= i < j < |list| ==> list[i].project != list[j].project
  }

  lemma {:induction false} InsertHolds(r: Record, list: seq<Record>)
    ensures forall x :: x in Insert(r, list) <==> x == r || x in list
  {
    if list != [] && !Before(r.project, list[0].project) {
      InsertHolds(r, list[1..]);
      assert list == [list[0]] + list[1..];
    }
  }

  lemma {:induction false} InsertNamedOnce(r: Record, list: seq<Record>)
    requires NamedOnce(list) && forall x :: x in list ==> x.project != r.project
    ensures NamedOnce(Insert(r, list))
  {
    if list != [] && !Before(r.project, list[0].project) {
      InsertNamedOnce(r, list[1..]);
      InsertHolds(r, list[1..]);
      forall x | x in Insert(r, list[1..])
        ensures x.project != list[0].project
      {
        if x != r {
          assert x in list[1..];
        }
      }
    }
  }

  lemma {:induction false} SortedHolds(list: seq<Record>)
    ensures forall x :: x in Sorted(list) <==> x in list
  {
    if list != [] {
      var rest := list[..|list| - 1];
      SortedHolds(rest);
      InsertHolds(list[|list| - 1], Sorted(rest));
      assert list == rest + [list[|list| - 1]];
    }
  }

  lemma {:induction false} SortedNamedOnce(list: seq<Record>)
    requires NamedOnce(list)
    ensures NamedOnce(Sorted(list))
  {
    if list != [] {
      var rest := list[..|list| - 1];
      SortedNamedOnce(rest);
      SortedHolds(rest);
      InsertNamedOnce(list[|list| - 1], Sorted(rest));
    }
  }

  lemma {:induction false} WithoutHolds(list: seq<Record>, project: string)
    ensures forall x :: x in Without(list, project) <==> x in list && x.project != project
  {
    if list != [] {
      var rest := list[..|list| - 1];
      WithoutHolds(rest, project);
      assert list == rest + [list[|list| - 1]];
    }
  }

  lemma {:induction false} WithoutNamedOnce(list: seq<Record>, project: string)
    requires NamedOnce(list)
    ensures NamedOnce(Without(list, project))
  {
    if list != [] {
      var rest := list[..|list| - 1];
      WithoutNamedOnce(rest, project);
      WithoutHolds(rest, project);
    }
  }

  lemma {:induction false} StaleHolds(list: seq<Record>, project: string, keep: Option<Dir>)
    ensures forall d :: d in Stale(list, project, keep)
                        <==> exists r :: r in list && r.project == project && r.dir == Some(d) && r.dir != keep
  {
    if list != [] {
      var rest, last := list[..|list| - 1], list[|list| - 1];
      StaleHolds(rest, project, keep);
      assert list == rest + [last];
      forall d
        ensures d in Stale(list, project, keep)
                <==> exists r :: r in list && r.project == project && r.dir == Some(d) && r.dir != keep
      {
        if r :| r in list && r.project == project && r.dir == Some(d) && r.dir != keep {
          assert r in rest || r == last;
        }
      }
    }
  }

  /** The first record of `project` gets the chain; None when there is none. */
  function Rechained(list: seq<Record>, project: string, chain: Option<string>): Option<seq<Record>> {
    if list == [] then None
    else if list[0].project == project then Some([list[0].(chain := chain)] + list[1..])
    else
      match Rechained(list[1..], project, chain)
      case None => None
      case Some(rest) => Some([list[0]] + rest)
  }

  lemma {:induction false} RechainedSome(list: seq<Record>, project: string, chain: Option<string>)
    ensures Rechained(list, project, chain).Some? <==> exists r :: r in list && r.project == project
  {
    if list != [] {
      RechainedSome(list[1..], project, chain);
      assert list == [list[0]] + list[1..];
    }
  }

  lemma {:induction false} RechainedHolds(list: seq<Record>, project: string, chain: Option<string>)
    requires Rechained(list, project, chain).Some?
    ensures |Rechained(list, project, chain).value| == |list|
    ensures forall i :: 0 <= i < |list| ==>
              var r := Rechained(list, project, chain).value[i];
              r == list[i] || (r == list[i].(chain := chain) && r.project == project)
  {
    if list[0].project != project {
      RechainedHolds(list[1..], project, chain);
    }
  }

  // ---- the states between the steps of an operation ----------------------------------------------------------

  /** Records read back: the saved ones, or none when the file could not be read. */
  function Read(s: State, readable: bool): seq<Record> {
    if readable then s.records else []
  }

  predicate Same(a: map<Dir, Tree>, b: map<Dir, Tree>, d: Dir) {
    (d in a <==> d in b) && (d in a ==> a[d] == b[d])
  }

  /** Snapshots are as in `a`, except that some in `gone` have been removed. Temporary directories may be anything. */
  ghost predicate OnlyGone(a: map<Dir, Tree>, b: map<Dir, Tree>, gone: seq<Dir>) {
    forall d: Dir :: d.Snapshot? ==> Same(a, b, d) || (d in gone && d !in b)
  }

  function Installed(lib: Library, disk: map<Dir, Tree>, project: string, b: Bundle): map<Dir, Tree> {
    var d := SnapDir(lib, project, lib.hashBundle(b.core));
    if d in disk then disk else disk[d := SnapshotTree(b)]
  }

  function Fresh(lib: Library, op: Op): Record
    requires op.Approve?
  {
    var hash := lib.hashBundle(op.bundle.core);
    Record(op.project, hash, Some(SnapDir(lib, op.project, hash)), op.now, None)
  }

  /** What is saved; None when the operation has nothing to save. */
  function Saved(lib: Library, list: seq<Record>, op: Op): Option<seq<Record>> {
    match op
    case Approve(p, _, _) => Some(Sorted(Without(list, p) + [Fresh(lib, op)]))
    case SetChain(p, chain) =>
      (match Rechained(list, p, chain)
       case None => None
       case Some(changed) => Some(Sorted(changed)))
    case Remove(p) => Some(Sorted(Without(list, p)))
  }

  function Dropped(lib: Library, list: seq<Record>, op: Op): seq<Dir> {
    match op
    case Approve(p, _, _) => Stale(list, p, Fresh(lib, op).dir)
    case SetChain(_, _) => []
    case Remove(p) => Stale(list, p, None)
  }

  function Prepared(lib: Library, disk: map<Dir, Tree>, op: Op): map<Dir, Tree> {
    match op
    case Approve(p, b, _) => Installed(lib, disk, p, b)
    case _ => disk
  }

  ghost predicate Unsaved(lib: Library, s: State, t: State, op: Op) {
    && t.records == s.records
    && (OnlyGone(s.disk, t.disk, []) || OnlyGone(Prepared(lib, s.disk, op), t.disk, []))
  }

  ghost predicate SavedFrom(lib: Library, s: State, t: State, op: Op, readable: bool) {
    var list := Read(s, readable);
    && Saved(lib, list, op) == Some(t.records)
    && OnlyGone(Prepared(lib, s.disk, op), t.disk, Dropped(lib, list, op))
  }

  /** `t` can be reached from `s` by `op`, finished, failed or stopped anywhere. */
  ghost predicate Between(lib: Library, s: State, t: State, op: Op) {
    Unsaved(lib, s, t, op) || exists readable :: SavedFrom(lib, s, t, op, readable)
  }

  /** Finished, with the approvals file read or not. */
  ghost predicate FinishedFrom(lib: Library, s: State, t: State, op: Op, readable: bool) {
    SavedFrom(lib, s, t, op, readable) && forall d :: d in Dropped(lib, Read(s, readable), op) ==> d !in t.disk
  }

  ghost predicate Finished(lib: Library, s: State, t: State, op: Op) {
    exists readable :: FinishedFrom(lib, s, t, op, readable)
  }

  // ---- the invariant ------------------------------------------------------------------------------------------

  ghost predicate SnapshotSound(lib: Library, d: Dir, tree: Tree) {
    d.Snapshot? ==>
      Load(lib, tree).Found? && TrimPrefix(lib.hashBundle(Load(lib, tree).bundle.core)) == d.bundleKey
  }

  ghost predicate RecordSound(lib: Library, r: Record, disk: map<Dir, Tree>) {
    && r.dir == Some(SnapDir(lib, r.project, r.hash)) && r.dir.value in disk
    && Load(lib, disk[r.dir.value]).Found?
    && lib.hashBundle(Load(lib, disk[r.dir.value]).bundle.core) == r.hash
  }

  ghost predicate Inv(lib: Library, s: State) {
    && NamedOnce(s.records)
    && (forall d :: d in s.disk ==> SnapshotSound(lib, d, s.disk[d]))
    && (forall r :: r in s.records ==> RecordSound(lib, r, s.disk))
  }

  ghost predicate GoodOp(lib: Library, op: Op) {
    op.Approve? ==> IsBundle(lib, op.bundle)
  }

  lemma PreparedSound(lib: Library, s: State, op: Op)
    requires Sound(lib) && Inv(lib, s) && GoodOp(lib, op)
    ensures Inv(lib, State(s.records, Prepared(lib, s.disk, op)))
    ensures op.Approve? ==> RecordSound(lib, Fresh(lib, op), Prepared(lib, s.disk, op))
    ensures op.Approve? ==> Load(lib, Prepared(lib, s.disk, op)[Fresh(lib, op).dir.value]).bundle.core == op.bundle.core
  {
    if op.Approve? {
      SnapshotReadsBack(lib, op.bundle);
      var hash := lib.hashBundle(op.bundle.core);
      var d := SnapDir(lib, op.project, hash);
      hide SnapshotTree;
      hide Load;
      if d in s.disk {
        assert SnapshotSound(lib, d, s.disk[d]);
        TrimInjective(lib.hashBundle(Load(lib, s.disk[d]).bundle.core), hash);
      } else {
        assert SnapshotSound(lib, d, SnapshotTree(op.bundle));
        forall r | r in s.records
          ensures RecordSound(lib, r, Prepared(lib, s.disk, op))
        {
          assert RecordSound(lib, r, s.disk);
        }
      }
    }
  }

  /** Removing snapshots no record points to keeps the invariant. */
  lemma RemovalSound(lib: Library, records: seq<Record>, disk: map<Dir, Tree>, disk': map<Dir, Tree>, gone: seq<Dir>)
    requires NamedOnce(records) && OnlyGone(disk, disk', gone)
    requires forall d :: d in disk ==> SnapshotSound(lib, d, disk[d])
    requires forall r :: r in records ==> RecordSound(lib, r, disk) && r.dir.value !in gone
    ensures Inv(lib, State(records, disk'))
  {
    hide Load;
    hide NamedOnce;
    forall d | d in disk'
      ensures SnapshotSound(lib, d, disk'[d])
    {
      if d.Snapshot? {
        assert Same(disk, disk', d);
      }
    }
    forall r | r in records
      ensures RecordSound(lib, r, disk')
    {
      assert RecordSound(lib, r, disk);
      assert Same(disk, disk', r.dir.value);
    }
  }

  /** Where a saved record comes from. */
  ghost predicate Origin(lib: Library, list: seq<Record>, op: Op, r: Record) {
    || (op.Approve? && r == Fresh(lib, op))
    || (r in list && r.project != op.project)
    || (op.SetChain? && r.project == op.project && r.chain == op.chain && exists r0 :: r0 in list && r == r0.(chain := op.chain))
    || (op.SetChain? && r in list)
  }

  lemma SavedOrigins(lib: Library, list: seq<Record>, op: Op)
    requires NamedOnce(list) && Saved(lib, list, op).Some?
    ensures NamedOnce(Saved(lib, list, op).value)
    ensures forall r :: r in Saved(lib, list, op).value ==> Origin(lib, list, op, r)
    ensures forall r :: r in list && r.project != op.project ==> r in Saved(lib, list, op).value
    ensures op.Approve? ==> Fresh(lib, op) in Saved(lib, list, op).value
  {
    match op
    case Approve(p, _, _) =>
      WithoutHolds(list, p);
      WithoutNamedOnce(list, p);
      var next := Without(list, p) + [Fresh(lib, op)];
      assert Fresh(lib, op) == next[|next| - 1];
      SortedHolds(next);
      SortedNamedOnce(next);
    case SetChain(p, chain) =>
      RechainedHolds(list, p, chain);
      var next := Rechained(list, p, chain).value;
      SortedNamedOnce(next);
      SortedHolds(next);
      ChainOrigins(lib, list, op, next);
    case Remove(p) =>
      WithoutHolds(list, p);
      WithoutNamedOnce(list, p);
      SortedHolds(Without(list, p));
      SortedNamedOnce(Without(list, p));
  }

  lemma ChainOrigins(lib: Library, list: seq<Record>, op: Op, next: seq<Record>)
    requires op.SetChain? && |next| == |list|
    requires forall i :: 0 <= i < |list| ==>
               next[i] == list[i] || (next[i] == list[i].(chain := op.chain) && next[i].project == op.project)
    ensures forall r :: r in next ==> Origin(lib, list, op, r)
    ensures forall r :: r in list && r.project != op.project ==> r in next
  {
    forall r | r in next
      ensures Origin(lib, list, op, r)
    {
      var i :| 0 <= i < |next| && next[i] == r;
      assert list[i] in list;
    }
    forall r | r in list && r.project != op.project
      ensures r in next
    {
      var i :| 0 <= i < |list| && list[i] == r;
      assert next[i] == r;
    }
  }

  lemma DroppedAreOfProject(lib: Library, list: seq<Record>, op: Op, disk: map<Dir, Tree>)
    requires forall r :: r in list ==> RecordSound(lib, r, disk)
    ensures forall d :: d in Dropped(lib, list, op) ==>
              d.projectKey == SnapDir(lib, op.project, "").projectKey
              && (op.Approve? ==> Some(d) != Fresh(lib, op).dir) && !op.SetChain?
  {
    forall d | d in Dropped(lib, list, op)
      ensures d.projectKey == SnapDir(lib, op.project, "").projectKey
              && (op.Approve? ==> Some(d) != Fresh(lib, op).dir) && !op.SetChain?
    {
      var keep := if op.Approve? then Fresh(lib, op).dir else None;
      StaleHolds(list, op.project, keep);
      var r :| r in list && r.project == op.project && r.dir == Some(d) && r.dir != keep;
      assert RecordSound(lib, r, disk);
    }
  }

  lemma OriginSound(lib: Library, s: State, list: seq<Record>, op: Op, r: Record)
    requires Sound(lib) && Inv(lib, s) && GoodOp(lib, op) && Origin(lib, list, op, r)
    requires forall x :: x in list ==> x in s.records
    ensures RecordSound(lib, r, Prepared(lib, s.disk, op)) && r.dir.value !in Dropped(lib, list, op)
  {
    PreparedSound(lib, s, op);
    forall x | x in list
      ensures RecordSound(lib, x, Prepared(lib, s.disk, op)) && RecordSound(lib, x, s.disk)
    {
    }
    DroppedAreOfProject(lib, list, op, s.disk);
    hide Load;
    hide Prepared;
    hide Dropped;
    assert RecordSound(lib, r, Prepared(lib, s.disk, op));
    if r.dir.value in Dropped(lib, list, op) {
      ProjectsApart(lib, r.project, op.project, r.hash, "");
    }
  }

  lemma SavedKeepsInv(lib: Library, s: State, t: State, op: Op, readable: bool)
    requires Sound(lib) && Inv(lib, s) && GoodOp(lib, op) && SavedFrom(lib, s, t, op, readable)
    ensures Inv(lib, t)
  {
    var list := Read(s, readable);
    SavedOrigins(lib, list, op);
    PreparedSound(lib, s, op);
    hide Load;
    hide Saved;
    hide Dropped;
    hide Prepared;
    forall r | r in t.records
      ensures RecordSound(lib, r, Prepared(lib, s.disk, op)) && r.dir.value !in Dropped(lib, list, op)
    {
      OriginSound(lib, s, list, op, r);
    }
    RemovalSound(lib, t.records, Prepared(lib, s.disk, op), t.disk, Dropped(lib, list, op));
  }

  /** Every state an operation may be stopped in keeps the invariant: each record points to a complete snapshot that
      hashes to what was approved. */
  lemma BetweenKeepsInv(lib: Library, s: State, t: State, op: Op)
    requires Sound(lib) && Inv(lib, s) && GoodOp(lib, op) && Between(lib, s, t, op)
    ensures Inv(lib, t)
  {
    if Unsaved(lib, s, t, op) {
      PreparedSound(lib, s, op);
      hide Load;
      hide Prepared;
      if OnlyGone(s.disk, t.disk, []) {
        RemovalSound(lib, s.records, s.disk, t.disk, []);
      } else {
        RemovalSound(lib, s.records, Prepared(lib, s.disk, op), t.disk, []);
      }
    } else {
      var readable :| SavedFrom(lib, s, t, op, readable);
      SavedKeepsInv(lib, s, t, op, readable);
    }
  }

  /** A finished approval leaves one record for its project, for the hash approved, and its snapshot holds exactly
      the approved hooks and files. */
  lemma FinishedApproval(lib: Library, s: State, t: State, op: Op)
    requires Sound(lib) && Inv(lib, s) && GoodOp(lib, op) && op.Approve? && Finished(lib, s, t, op)
    ensures Fresh(lib, op) in t.records
    ensures forall r :: r in t.records && r.project == op.project ==> r == Fresh(lib, op)
    ensures |Without(t.records, op.project)| + 1 == |t.records|
    ensures Fresh(lib, op).dir.value in t.disk
    ensures Load(lib, t.disk[Fresh(lib, op).dir.value]).Found?
    ensures Load(lib, t.disk[Fresh(lib, op).dir.value]).bundle.core == op.bundle.core
  {
    var readable :| SavedFrom(lib, s, t, op, readable);
    SavedKeepsInv(lib, s, t, op, readable);
    SavedOrigins(lib, Read(s, readable), op);
    var added := Fresh(lib, op);
    assert RecordSound(lib, added, t.disk);
    assert lib.hashBundle(Load(lib, t.disk[added.dir.value]).bundle.core) == lib.hashBundle(op.bundle.core);
    hide Load;
    hide Saved;
    forall r | r in t.records && r.project == op.project
      ensures r == added
    {
      assert Origin(lib, Read(s, readable), op, r);
    }
    WithoutOne(t.records, added);
  }

  lemma {:induction false} WithoutOne(list: seq<Record>, r: Record)
    requires NamedOnce(list) && r in list
    ensures |Without(list, r.project)| + 1 == |list|
  {
    var rest, last := list[..|list| - 1], list[|list| - 1];
    assert list == rest + [last];
    if last.project == r.project {
      WithoutNone(rest, r.project);
    } else {
      WithoutOne(rest, r);
    }
  }

  lemma {:induction false} WithoutNone(list: seq<Record>, project: string)
    requires forall i :: 0 <= i < |list| ==> list[i].project != project
    ensures Without(list, project) == list
  {
    if list != [] {
      var n := |list| - 1;
      WithoutNone(list[..n], project);
      WithoutLast(list, project);
      hide Without;
      assert list == list[..n] + [list[n]];
    }
  }

  lemma WithoutLast(list: seq<Record>, project: string)
    requires list != [] && list[|list| - 1].project != project
    ensures Without(list, project) == Without(list[..|list| - 1], project) + [list[|list| - 1]]
  {
  }

  /** An operation on one project, wherever it stops, leaves the snapshots of every other project as they are. */
  lemma OthersSnapshotsStay(lib: Library, s: State, t: State, op: Op, q: string, hash: string)
    requires Sound(lib) && Inv(lib, s) && Between(lib, s, t, op) && q != op.project
    ensures Same(s.disk, t.disk, SnapDir(lib, q, hash))
  {
    var d := SnapDir(lib, q, hash);
    if d.projectKey == SnapDir(lib, op.project, "").projectKey {
      ProjectsApart(lib, q, op.project, hash, "");
    }
    assert Same(s.disk, Prepared(lib, s.disk, op), d);
    if Unsaved(lib, s, t, op) {
      if OnlyGone(s.disk, t.disk, []) {
        assert Same(s.disk, t.disk, d) || d in [];
      } else {
        assert Same(Prepared(lib, s.disk, op), t.disk, d);
      }
    } else {
      var readable :| SavedFrom(lib, s, t, op, readable);
      DroppedAreOfProject(lib, Read(s, readable), op, s.disk);
      hide Dropped;
      assert Same(Prepared(lib, s.disk, op), t.disk, d);
    }
  }

  /** The records of other projects are all kept, or, when the approvals file could not be read, all forgotten. */
  lemma OthersRecordsStay(lib: Library, s: State, t: State, op: Op, q: string)
    requires Inv(lib, s) && Between(lib, s, t, op) && q != op.project
    ensures (forall r: Record :: r.project == q ==> (r in t.records <==> r in s.records))
            || (forall r :: r in t.records ==> r.project != q)
  {
    hide Saved;
    hide Dropped;
    hide Prepared;
    hide OnlyGone;
    hide Fresh;
    if !Unsaved(lib, s, t, op) {
      var readable :| SavedFrom(lib, s, t, op, readable);
      SavedOrigins(lib, Read(s, readable), op);
      hide Inv;
      SavedFrozen(lib, Read(s, readable), op, t.records, q);
    }
  }

  /** Once saved, the records of the other projects are as they were exactly if the file was read or there were none. */
  lemma OthersRecordsStayIff(lib: Library, s: State, t: State, op: Op, readable: bool)
    requires Inv(lib, s) && SavedFrom(lib, s, t, op, readable)
    ensures (forall r: Record :: r.project != op.project ==> (r in t.records <==> r in s.records))
            <==> readable || forall r :: r in s.records ==> r.project == op.project
  {
    hide Saved;
    hide Dropped;
    hide Prepared;
    hide OnlyGone;
    hide Fresh;
    SavedOrigins(lib, Read(s, readable), op);
    hide Inv;
    forall r: Record | r.project != op.project
      ensures r in t.records <==> r in Read(s, readable)
    {
      SavedFrozen(lib, Read(s, readable), op, t.records, r.project);
    }
  }

  lemma SavedFrozen(lib: Library, list: seq<Record>, op: Op, saved: seq<Record>, q: string)
    requires q != op.project
    requires forall r :: r in saved ==> Origin(lib, list, op, r)
    requires forall r :: r in list && r.project != op.project ==> r in saved
    ensures forall r: Record :: r.project == q ==> (r in saved <==> r in list)
  {
    hide SnapDir;
  }

  // ---- whole runs ---------------------------------------------------------------------------------------------

  ghost predicate IsRun(lib: Library, states: seq<State>, ops: seq<Op>) {
    && |states| == |ops| + 1
    && (forall i :: 0 <= i < |ops| ==> GoodOp(lib, ops[i]))
    && forall i :: 0 <= i < |ops| ==> Between(lib, states[i], states[i + 1], ops[i])
  }

  lemma {:induction false} RunKeepsInv(lib: Library, states: seq<State>, ops: seq<Op>, k: nat)
    requires Sound(lib) && IsRun(lib, states, ops) && Inv(lib, states[0]) && k <= |ops|
    ensures Inv(lib, states[k])
  {
    if k > 0 {
      RunKeepsInv(lib, states, ops, k - 1);
      hide Between;
      hide Inv;
      BetweenKeepsInv(lib, states[k - 1], states[k], ops[k - 1]);
    }
  }

  /** Over a whole run, the snapshots of a project nobody worked on do not change. */
  lemma {:induction false} RunLeavesOthers(lib: Library, states: seq<State>, ops: seq<Op>, k: nat, q: string, hash: string)
    requires Sound(lib) && IsRun(lib, states, ops) && Inv(lib, states[0]) && k <= |ops|
    requires forall i :: 0 <= i < k ==> ops[i].project != q
    ensures Same(states[0].disk, states[k].disk, SnapDir(lib, q, hash))
  {
    if k > 0 {
      RunLeavesOthers(lib, states, ops, k - 1, q, hash);
      RunKeepsInv(lib, states, ops, k - 1);
      hide Between;
      hide Inv;
      hide SnapDir;
      OthersSnapshotsStay(lib, states[k - 1], states[k], ops[k - 1], q, hash);
    }
  }

  /** Some approval of the run, in steps `lo` to `hi`, was for this project and hash. */
  ghost predicate ApprovedInRun(lib: Library, ops: seq<Op>, lo: nat, hi: nat, r: Record)
    requires lo <= hi <= |ops|
  {
    exists i :: lo <= i < hi && ops[i].Approve? && ops[i].project == r.project
                && lib.hashBundle(ops[i].bundle.core) == r.hash
  }

  ghost predicate Known(s: State, r: Record) {
    exists r0 :: r0 in s.records && r0.project == r.project && r0.hash == r.hash
  }

  lemma RecordOrigin(lib: Library, s: State, t: State, op: Op, r: Record)
    requires Inv(lib, s) && Between(lib, s, t, op) && r in t.records
    ensures Known(s, r) || (op.Approve? && op.project == r.project && lib.hashBundle(op.bundle.core) == r.hash)
  {
    if Unsaved(lib, s, t, op) {
      assert r in s.records;
    } else {
      var readable :| SavedFrom(lib, s, t, op, readable);
      SavedOrigins(lib, Read(s, readable), op);
      hide Saved;
      hide Dropped;
      hide Prepared;
      hide OnlyGone;
      hide Inv;
      OriginKnown(lib, s, Read(s, readable), op, r);
    }
  }

  lemma OriginKnown(lib: Library, s: State, list: seq<Record>, op: Op, r: Record)
    requires Origin(lib, list, op, r) && forall x :: x in list ==> x in s.records
    ensures Known(s, r) || (op.Approve? && op.project == r.project && lib.hashBundle(op.bundle.core) == r.hash)
  {
    hide SnapDir;
  }

  lemma KnownAs(s: State, r: Record) returns (r0: Record)
    requires Known(s, r)
    ensures r0 in s.records && r0.project == r.project && r0.hash == r.hash
  {
    r0 :| r0 in s.records && r0.project == r.project && r0.hash == r.hash;
  }

  lemma KnownAlike(s: State, a: Record, b: Record)
    requires a.project == b.project && a.hash == b.hash
    ensures Known(s, a) <==> Known(s, b)
  {
  }

  /** No record appears on its own: over any run, each was there at the start or was approved since. */
  lemma {:induction false} RecordsWereApproved(lib: Library, states: seq<State>, ops: seq<Op>, lo: nat, hi: nat, r: Record)
    requires Sound(lib) && IsRun(lib, states, ops) && Inv(lib, states[0]) && lo <= hi <= |ops|
    requires r in states[hi].records
    ensures Known(states[lo], r) || ApprovedInRun(lib, ops, lo, hi, r)
    decreases hi
  {
    hide *;
    RunLength(lib, states, ops);
    if lo < hi {
      RunKeepsInv(lib, states, ops, hi - 1);
      RunStep(lib, states, ops, hi - 1);
      RecordOrigin(lib, states[hi - 1], states[hi], ops[hi - 1], r);
      if Known(states[hi - 1], r) {
        var r0 := KnownAs(states[hi - 1], r);
        RecordsWereApproved(lib, states, ops, lo, hi - 1, r0);
        KnownAlike(states[lo], r0, r);
        ApprovedAlike(lib, ops, lo, hi, r0, r);
      } else {
        ApprovedLast(lib, ops, lo, hi, r);
      }
    } else {
      IsKnown(states[lo], r);
    }
  }

  lemma RunLength(lib: Library, states: seq<State>, ops: seq<Op>)
    requires IsRun(lib, states, ops)
    ensures |states| == |ops| + 1
  {
    hide Between;
    hide GoodOp;
  }

  lemma RunStep(lib: Library, states: seq<State>, ops: seq<Op>, i: nat)
    requires IsRun(lib, states, ops) && i < |ops|
    ensures |states| == |ops| + 1 && Between(lib, states[i], states[i + 1], ops[i])
  {
    hide Between;
    hide GoodOp;
  }

  lemma IsKnown(s: State, r: Record)
    requires r in s.records
    ensures Known(s, r)
  {
  }

  lemma ApprovedLast(lib: Library, ops: seq<Op>, lo: nat, hi: nat, r: Record)
    requires lo < hi <= |ops| && ops[hi - 1].Approve? && ops[hi - 1].project == r.project
    requires lib.hashBundle(ops[hi - 1].bundle.core) == r.hash
    ensures ApprovedInRun(lib, ops, lo, hi, r)
  {
  }

  lemma ApprovedAlike(lib: Library, ops: seq<Op>, lo: nat, hi: nat, a: Record, b: Record)
    requires lo < hi <= |ops| && a.project == b.project && a.hash == b.hash
    ensures ApprovedInRun(lib, ops, lo, hi - 1, a) ==> ApprovedInRun(lib, ops, lo, hi, b)
  {
  }

  /** After a finished removal a project has no record until it is approved again. */
  lemma RemovedStaysRemoved(lib: Library, states: seq<State>, ops: seq<Op>, i: nat, k: nat, r: Record)
    requires Sound(lib) && IsRun(lib, states, ops) && Inv(lib, states[0]) && i < k <= |ops|
    requires ops[i].Remove? && Finished(lib, states[i], states[i + 1], ops[i])
    requires forall j :: i < j < k ==> !(ops[j].Approve? && ops[j].project == ops[i].project)
    requires r in states[k].records
    ensures r.project != ops[i].project
  {
    hide Between;
    hide Inv;
    hide Finished;
    hide GoodOp;
    hide Sound;
    RunKeepsInv(lib, states, ops, i);
    AfterRemoval(lib, states[i], states[i + 1], ops[i]);
    RecordsWereApproved(lib, states, ops, i + 1, k, r);
    if Known(states[i + 1], r) {
      var r0 := KnownAs(states[i + 1], r);
    }
  }

  lemma AfterRemoval(lib: Library, s: State, t: State, op: Op)
    requires Inv(lib, s) && op.Remove? && Finished(lib, s, t, op)
    ensures forall r :: r in t.records ==> r.project != op.project
  {
    var readable :| FinishedFrom(lib, s, t, op, readable);
    SavedOrigins(lib, Read(s, readable), op);
    hide Saved;
    hide Prepared;
    hide Dropped;
  }

  /** Approving a project while the approvals file cannot be read can finish and leave its record as the only one. */
  lemma UnreadableFileForgetsOthers(lib: Library, s: State, op: Op)
    requires op.Approve?
    ensures Finished(lib, s, State([Fresh(lib, op)], Prepared(lib, s.disk, op)), op)
  {
    var t := State([Fresh(lib, op)], Prepared(lib, s.disk, op));
    assert Read(s, false) == [];
    assert Without([], op.project) + [Fresh(lib, op)] == [Fresh(lib, op)];
    assert [Fresh(lib, op)][..0] == [];
    assert Sorted([]) == [];
    assert Insert(Fresh(lib, op), []) == [Fresh(lib, op)];
    assert Sorted([Fresh(lib, op)]) == [Fresh(lib, op)];
    assert FinishedFrom(lib, s, t, op, false);
  }
}
