/** What finished operations leave and what bundles hold, field by field. */
module HookMeaning {
  import opened Wrappers
  import opened HookBundle
  import opened HookApproval

  // ----- bundles

  /** A directory reads as a bundle exactly if its manifest is there and accepted and everything named in it is there;
      the bundle holds the manifest's text and, in the manifest's order, the named files and scripts as they are. */
  lemma LoadIff(lib: Library, tree: Tree, b: Bundle)
    ensures Load(lib, tree) == Found(b) <==>
            && "hooks.yaml" in tree && lib.parse(tree["hooks.yaml"]).Accepted?
            && var m := lib.parse(tree["hooks.yaml"]).manifest;
               && b.manifestData == tree["hooks.yaml"] && b.core.version == m.version
               && |b.core.files| == |m.files| && |b.core.hooks| == |m.hooks|
               && (forall i :: 0 <= i < |m.files| ==> m.files[i] in tree && b.core.files[i] == Write(m.files[i], tree[m.files[i]]))
               && (forall i :: 0 <= i < |m.hooks| ==>
                     var e := m.hooks[i]; e.script in tree && b.core.hooks[i] == Hook(e.kind, e.script, e.about, tree[e.script]))
  {
    if "hooks.yaml" in tree && lib.parse(tree["hooks.yaml"]).Accepted? {
      var m := lib.parse(tree["hooks.yaml"]).manifest;
      CompleteIff(tree, m);
      if Complete(tree, m) {
        SameParts(tree, m, b);
      }
    }
  }

  lemma CompleteIff(tree: Tree, m: Manifest)
    ensures Complete(tree, m) <==>
            (forall i :: 0 <= i < |m.files| ==> m.files[i] in tree) && (forall i :: 0 <= i < |m.hooks| ==> m.hooks[i].script in tree)
  {
  }

  lemma SameParts(tree: Tree, m: Manifest, b: Bundle)
    requires Complete(tree, m)
    ensures b.core.files == FilesOf(tree, m.files) <==>
            |b.core.files| == |m.files|
            && forall i :: 0 <= i < |m.files| ==> m.files[i] in tree && b.core.files[i] == Write(m.files[i], tree[m.files[i]])
    ensures b.core.hooks == HooksOf(tree, m.hooks) <==>
            |b.core.hooks| == |m.hooks|
            && forall i :: 0 <= i < |m.hooks| ==>
                 var e := m.hooks[i]; e.script in tree && b.core.hooks[i] == Hook(e.kind, e.script, e.about, tree[e.script])
  {
  }

  /** A snapshot holds the manifest, the bundle's files and its scripts, and nothing else. */
  lemma SnapshotHolds(lib: Library, b: Bundle, p: string)
    requires IsBundle(lib, b)
    ensures p in SnapshotTree(b) <==>
            p == "hooks.yaml" || (exists w :: w in b.core.files && w.path == p) || (exists h :: h in b.core.hooks && h.script == p)
    ensures "hooks.yaml" in SnapshotTree(b) && SnapshotTree(b)["hooks.yaml"] == b.manifestData
    ensures forall w :: w in b.core.files ==> w.path in SnapshotTree(b) && SnapshotTree(b)[w.path] == w.data
    ensures forall h :: h in b.core.hooks ==> h.script in SnapshotTree(b) && SnapshotTree(b)[h.script] == h.data
  {
    var tree: Tree :| Load(lib, tree) == Found(b);
    WritesComeFrom(lib, tree, b);
    ApplyKeeps(tree, Writes(b));
    ApplyHolds(Writes(b), p);
    hide Load;
    forall w | w in b.core.files
      ensures w.path in SnapshotTree(b) && SnapshotTree(b)[w.path] == w.data
    {
      WritesCover(b, w);
    }
    forall h | h in b.core.hooks
      ensures h.script in SnapshotTree(b) && SnapshotTree(b)[h.script] == h.data
    {
      WritesCover(b, Write(h.script, h.data));
      assert Write(h.script, h.data).path == h.script;
    }
    WritesCover(b, Write("hooks.yaml", b.manifestData));
    assert Write("hooks.yaml", b.manifestData).path == "hooks.yaml";
    WritesAre(b, p);
  }

  lemma {:induction false} ApplyHolds(writes: seq<Write>, p: string)
    ensures p in Apply(map[], writes) <==> exists w :: w in writes && w.path == p
  {
    if writes != [] {
      var rest, last := writes[..|writes| - 1], writes[|writes| - 1];
      ApplyHolds(rest, p);
      assert writes == rest + [last];
    }
  }

  lemma WritesAre(b: Bundle, p: string)
    ensures (exists w :: w in Writes(b) && w.path == p) <==>
            p == "hooks.yaml" || (exists w :: w in b.core.files && w.path == p) || (exists h :: h in b.core.hooks && h.script == p)
  {
    if w :| w in Writes(b) && w.path == p {
      if w in Scripts(b.core.hooks) {
        var i :| 0 <= i < |b.core.hooks| && Scripts(b.core.hooks)[i] == w;
        assert b.core.hooks[i] in b.core.hooks;
      } else {
        assert w == Write(MANIFEST, b.manifestData) || w in b.core.files;
      }
    }
    if w :| w in b.core.files && w.path == p {
      WritesCover(b, w);
    }
    if h :| h in b.core.hooks && h.script == p {
      WritesCover(b, Write(h.script, h.data));
      assert Write(h.script, h.data).path == p;
    }
    if p == "hooks.yaml" {
      WritesCover(b, Write(MANIFEST, b.manifestData));
      assert Write(MANIFEST, b.manifestData).path == p;
    }
  }

  // ----- the order of the approvals file

  /** Byte order: a proper beginning comes first, otherwise the first difference decides. */
  lemma {:induction false} BeforeIff(a: string, b: string)
    ensures Before(a, b) <==>
            a < b || exists k :: 0 <= k < |a| && k < |b| && a[..k] == b[..k] && a[k] < b[k]
  {
    if a != [] && b != [] {
      BeforeIff(a[1..], b[1..]);
      forall k | 0 < k < |a| && k < |b| && a[..k] == b[..k]
        ensures a[0] == b[0]
      {
        assert a[..k][0] == b[..k][0];
      }
      if a[0] == b[0] {
        FirstSame(a, b);
      }
      assert a[..0] == b[..0];
    }
  }

  lemma FirstSame(a: string, b: string)
    requires a != [] && b != [] && a[0] == b[0]
    ensures a < b <==> a[1..] < b[1..]
    ensures (exists k :: 0 <= k < |a| && k < |b| && a[..k] == b[..k] && a[k] < b[k])
            <==> exists k :: 0 <= k < |a[1..]| && k < |b[1..]| && a[1..][..k] == b[1..][..k] && a[1..][k] < b[1..][k]
  {
    var c, d := a[1..], b[1..];
    assert a == [a[0]] + c && b == [b[0]] + d;
    if k :| 0 <= k < |a| && k < |b| && a[..k] == b[..k] && a[k] < b[k] {
      assert k > 0;
      assert c[..k - 1] == a[..k][1..] && d[..k - 1] == b[..k][1..];
      assert c[k - 1] < d[k - 1];
    }
    if k :| 0 <= k < |c| && k < |d| && c[..k] == d[..k] && c[k] < d[k] {
      assert a[..k + 1] == [a[0]] + c[..k] && b[..k + 1] == [b[0]] + d[..k];
      assert a[k + 1] < b[k + 1];
    }
  }

  lemma {:induction false} BeforeTransitive(a: string, b: string, c: string)
    requires Before(a, b) && !Before(c, b)
    ensures Before(a, c)
  {
    if a != [] && b != [] && c != [] && a[0] == b[0] == c[0] {
      BeforeTransitive(a[1..], b[1..], c[1..]);
    }
  }

  predicate InOrder(list: seq<Record>) {
    forall i, j :: 0 <= i < j < |list| ==> !Before(list[j].project, list[i].project)
  }

  lemma {:induction false} BeforeIsStrict(a: string, b: string)
    requires Before(a, b)
    ensures !Before(b, a)
  {
    if a != [] && a[0] == b[0] {
      BeforeIsStrict(a[1..], b[1..]);
    }
  }

  lemma {:induction false} InsertInOrder(r: Record, list: seq<Record>)
    requires InOrder(list)
    ensures InOrder(Insert(r, list)) && multiset(Insert(r, list)) == multiset(list) + multiset{r}
  {
    hide Before;
    if list != [] {
      if Before(r.project, list[0].project) {
        BeforeIsStrict(r.project, list[0].project);
        forall j | 0 <= j < |list|
          ensures !Before(list[j].project, r.project)
        {
          if Before(list[j].project, r.project) {
            BeforeTransitive(list[j].project, r.project, list[0].project);
          }
        }
      } else {
        InsertInOrder(r, list[1..]);
        InsertHolds(r, list[1..]);
        assert list == [list[0]] + list[1..];
        var rest := Insert(r, list[1..]);
        forall j | 0 <= j < |rest|
          ensures !Before(rest[j].project, list[0].project)
        {
          assert rest[j] in rest;
          if rest[j] != r {
            var i :| 0 <= i < |list[1..]| && list[1..][i] == rest[j];
            assert list[i + 1] == rest[j];
          }
        }
      }
    }
  }

  /** The file is written in the order of the project directories, with the records it is given. */
  lemma {:induction false} SortedInOrder(list: seq<Record>)
    ensures InOrder(Sorted(list)) && multiset(Sorted(list)) == multiset(list)
  {
    if list != [] {
      var rest, last := list[..|list| - 1], list[|list| - 1];
      SortedInOrder(rest);
      InsertInOrder(last, Sorted(rest));
      assert list == rest + [last];
    }
  }

  // ----- finished operations

  /** A finished approval: the project's one record names the bundle's hash, the time, no chain, and a directory named
      for the project and the hash, which reads as the approved bundle. */
  lemma ApprovalLeaves(lib: Library, s: State, t: State, project: string, b: Bundle, now: string)
    requires Sound(lib) && Inv(lib, s) && IsBundle(lib, b) && Finished(lib, s, t, Approve(project, b, now))
    ensures exists key, bundleKey ::
              && "sha256:" + key == lib.hashProject(project) && "sha256:" + bundleKey == lib.hashBundle(b.core)
              && (forall r :: r in t.records && r.project == project <==>
                    r == Record(project, lib.hashBundle(b.core), Some(Snapshot(key, bundleKey)), now, None))
              && Snapshot(key, bundleKey) in t.disk
              && Load(lib, t.disk[Snapshot(key, bundleKey)]).Found?
              && Load(lib, t.disk[Snapshot(key, bundleKey)]).bundle.core == b.core
  {
    var op := Approve(project, b, now);
    FinishedApproval(lib, s, t, op);
    hide Load;
    hide Finished;
    hide Inv;
    var key, bundleKey := TrimPrefix(lib.hashProject(project)), TrimPrefix(lib.hashBundle(b.core));
    Prefixes(lib.hashProject(project));
    Prefixes(lib.hashBundle(b.core));
    assert Fresh(lib, op) == Record(project, lib.hashBundle(b.core), Some(Snapshot(key, bundleKey)), now, None);
  }

  lemma Prefixes(hash: string)
    requires PREFIX <= hash
    ensures "sha256:" + TrimPrefix(hash) == hash
  {
  }

  /** Wherever an operation ends, a snapshot that was there is as it was or gone, and a new one is the approved bundle's,
      in its directory. */
  lemma SnapshotsStayOrGo(lib: Library, s: State, t: State, op: Op, d: Dir)
    requires Between(lib, s, t, op) && d.Snapshot?
    ensures d in s.disk && d in t.disk ==> t.disk[d] == s.disk[d]
    ensures d !in s.disk && d in t.disk ==>
              && op.Approve? && t.disk[d] == SnapshotTree(op.bundle)
              && d == Snapshot(TrimPrefix(lib.hashProject(op.project)), TrimPrefix(lib.hashBundle(op.bundle.core)))
  {
    hide Saved;
    hide Dropped;
    hide SnapshotTree;
    hide TrimPrefix;
    if !Unsaved(lib, s, t, op) {
      var readable :| SavedFrom(lib, s, t, op, readable);
      assert OnlyGone(Prepared(lib, s.disk, op), t.disk, Dropped(lib, Read(s, readable), op));
    }
    assert Same(s.disk, t.disk, d) || Same(Prepared(lib, s.disk, op), t.disk, d) || d !in t.disk;
  }

  /** When the records could be read, the snapshots the project's old records named are gone, but for the new one. */
  lemma ApprovalClears(lib: Library, s: State, t: State, project: string, b: Bundle, now: string, r: Record)
    requires FinishedFrom(lib, s, t, Approve(project, b, now), true)
    requires r in s.records && r.project == project && r.dir.Some?
    requires forall n :: n in t.records && n.project == project ==> n.dir != r.dir
    ensures r.dir.value !in t.disk
  {
    var op := Approve(project, b, now);
    StaleHolds(s.records, project, Fresh(lib, op).dir);
    SortedHolds(Without(s.records, project) + [Fresh(lib, op)]);
    assert Fresh(lib, op) in t.records;
  }

  /** A finished removal: the project has no record, other projects keep theirs, and its snapshots are gone. */
  lemma RemovalLeaves(lib: Library, s: State, t: State, project: string)
    requires FinishedFrom(lib, s, t, Remove(project), true)
    ensures forall r :: r in t.records <==> r in s.records && r.project != project
    ensures forall r :: r in s.records && r.project == project && r.dir.Some? ==> r.dir.value !in t.disk
  {
    SortedHolds(Without(s.records, project));
    WithoutHolds(s.records, project);
    StaleHolds(s.records, project, None);
  }

  /** A finished change of a chain: the project's record has the new chain and is otherwise as it was, and so is every
      other record and every snapshot. */
  lemma ChainLeaves(lib: Library, s: State, t: State, project: string, chain: Option<string>)
    requires NamedOnce(s.records) && Finished(lib, s, t, SetChain(project, chain))
    ensures exists r :: r in s.records && r.project == project
    ensures forall r :: r in t.records <==> exists r0 :: r0 in s.records && r == if r0.project == project then r0.(chain := chain) else r0
    ensures forall d: Dir :: d.Snapshot? ==> Same(s.disk, t.disk, d)
  {
    var readable :| FinishedFrom(lib, s, t, SetChain(project, chain), readable);
    var list := Read(s, readable);
    RechainedSome(list, project, chain);
    RechainedAt(list, project, chain);
    SortedHolds(Rechained(list, project, chain).value);
    hide Rechained;
    hide Sorted;
    var next := Rechained(list, project, chain).value;
    assert readable && list == s.records;
    forall r
      ensures r in t.records <==> exists r0 :: r0 in s.records && r == if r0.project == project then r0.(chain := chain) else r0
    {
      if r in next {
        var i :| 0 <= i < |next| && next[i] == r;
        assert list[i] in s.records;
      }
      if r0 :| r0 in s.records && r == if r0.project == project then r0.(chain := chain) else r0 {
        var i :| 0 <= i < |list| && list[i] == r0;
        assert next[i] == r;
      }
    }
  }

  lemma {:induction false} RechainedAt(list: seq<Record>, project: string, chain: Option<string>)
    requires NamedOnce(list) && Rechained(list, project, chain).Some?
    ensures |Rechained(list, project, chain).value| == |list|
    ensures forall i :: 0 <= i < |list| ==>
              Rechained(list, project, chain).value[i] == if list[i].project == project then list[i].(chain := chain) else list[i]
  {
    if list[0].project != project {
      assert NamedOnce(list[1..]);
      RechainedAt(list[1..], project, chain);
    }
  }

  // ----- runs

  /** A run is a state, or a run and one more operation on its last state that ended anywhere. */
  lemma RunsAre(lib: Library, s: State, states: seq<State>, ops: seq<Op>, t: State, op: Op)
    requires states != []
    ensures IsRun(lib, [s], [])
    ensures IsRun(lib, states + [t], ops + [op]) <==>
            IsRun(lib, states, ops) && GoodOp(lib, op) && Between(lib, states[|states| - 1], t, op)
  {
    hide Between;
    hide GoodOp;
    var n, more, all := |ops|, states + [t], ops + [op];
    if IsRun(lib, more, all) {
      assert all[n] == op && more[n] == states[|states| - 1] && more[n + 1] == t;
      forall i | 0 <= i < n
        ensures GoodOp(lib, ops[i]) && Between(lib, states[i], states[i + 1], ops[i])
      {
        assert all[i] == ops[i] && more[i] == states[i] && more[i + 1] == states[i + 1];
      }
    }
  }
}
