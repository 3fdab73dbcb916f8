/** The hook approval operations in place. Every file operation takes its answer from the script. */
module HookStore {
  import opened Wrappers
  import opened Faults
  import opened HookBundle
  import opened HookApproval

  class ApprovalStore {
    const lib: Library
    var records: seq<Record>
    var disk: map<Dir, Tree>
    var script: Script

    constructor (lib: Library, s: State, script: Script)
      ensures this.lib == lib && Now() == s && this.script == script
    {
      this.lib, this.script := lib, script;
      records, disk := s.records, s.disk;
    }

    ghost function Now(): State
      reads this
    {
      State(records, disk)
    }

    /** A file operation. */
    method Attempt() returns (r: Outcome)
      modifies this`script
      ensures r == Answer(old(script)) && script == After(old(script))
    {
      if script == [] {
        return Stopped;
      }
      r := if script[0] then Done else Failed;
      script := script[1..];
    }

    /** An unreadable file reads as no approvals. */
    method LoadProjectHookApprovals() returns (r: Outcome, list: seq<Record>)
      modifies this`script
      ensures r == Answer(old(script)) && script == After(old(script))
      ensures list == Read(Now(), r == Done)
    {
      r := Attempt();
      list := if r == Done then records else [];
    }

    method SaveProjectHookApprovals(list: seq<Record>) returns (r: Outcome)
      modifies this`records, this`script
      ensures r == Answer(old(script)) && script == After(old(script))
      ensures records == if r == Done then Sorted(list) else old(records)
    {
      r := Attempt();
      if r == Done {
        records := Sorted(list);
      }
    }

    method WriteFile(dir: Dir, w: Write) returns (r: Outcome)
      requires dir in disk
      modifies this`disk, this`script
      ensures r == Answer(old(script)) && script == After(old(script))
      ensures disk == if r == Done then old(disk)[dir := old(disk)[dir][w.path := w.data]] else old(disk)
    {
      r := Attempt();
      if r == Done {
        var tree := disk[dir][w.path := w.data];
        disk := disk[dir := tree];
      }
    }

    method WriteBundleFiles(dir: Dir, files: seq<Write>, ghost before: seq<Write>) returns (r: Outcome)
      requires dir in disk && disk[dir] == Apply(map[], before)
      modifies this`disk, this`script
      ensures dir in disk && disk == old(disk)[dir := disk[dir]]
      ensures r == Done ==> disk[dir] == Apply(map[], before + files)
      ensures Used(old(script), script, r == Stopped, |files|) && (Faultless(old(script)) ==> r != Failed)
    {
      r := Done;
      UsedSelf(script);
      hide Used;
      hide Answer;
      hide After;
      assert before + files[..0] == before;
      for i := 0 to |files|
        invariant dir in disk && disk == old(disk)[dir := disk[dir]]
        invariant disk[dir] == Apply(map[], before + files[..i])
        invariant r == Done && Used(old(script), script, false, i)
      {
        UsedNext(old(script), script, i, |files|);
        r := WriteFile(dir, files[i]);
        if r != Done {
          return;
        }
        assert before + files[..i + 1] == (before + files[..i]) + [files[i]];
        ApplyOne(before + files[..i], files[i]);
      }
      assert files[..|files|] == files;
    }

    method WriteHookScripts(dir: Dir, hooks: seq<Hook>, ghost before: seq<Write>) returns (r: Outcome)
      requires dir in disk && disk[dir] == Apply(map[], before)
      modifies this`disk, this`script
      ensures dir in disk && disk == old(disk)[dir := disk[dir]]
      ensures r == Done ==> disk[dir] == Apply(map[], before + Scripts(hooks))
      ensures Used(old(script), script, r == Stopped, |hooks|) && (Faultless(old(script)) ==> r != Failed)
    {
      r := Done;
      UsedSelf(script);
      hide Used;
      hide Answer;
      hide After;
      assert before + Scripts(hooks)[..0] == before;
      for i := 0 to |hooks|
        invariant dir in disk && disk == old(disk)[dir := disk[dir]]
        invariant disk[dir] == Apply(map[], before + Scripts(hooks)[..i])
        invariant r == Done && Used(old(script), script, false, i)
      {
        UsedNext(old(script), script, i, |hooks|);
        r := WriteFile(dir, Write(hooks[i].script, hooks[i].data));
        if r != Done {
          return;
        }
        assert before + Scripts(hooks)[..i + 1] == (before + Scripts(hooks)[..i]) + [Scripts(hooks)[i]];
        ApplyOne(before + Scripts(hooks)[..i], Scripts(hooks)[i]);
      }
      assert Scripts(hooks)[..|hooks|] == Scripts(hooks);
    }

    method WriteProjectHookSnapshot(dir: Dir, b: Bundle) returns (r: Outcome)
      requires dir in disk && disk[dir] == map[]
      modifies this`disk, this`script
      ensures dir in disk && disk == old(disk)[dir := disk[dir]]
      ensures r == Done ==> disk[dir] == SnapshotTree(b)
      ensures Used(old(script), script, r == Stopped, SnapshotWrites(b)) && (Faultless(old(script)) ==> r != Failed)
    {
      hide *;
      ghost var most, a, c, start := SnapshotWrites(b), |b.core.files|, |b.core.hooks|, script;
      ghost var first := [Write(MANIFEST, b.manifestData)];
      SnapshotParts(b);
      UsedSelf(script);
      UsedNext(script, script, 0, most);
      r := WriteFile(dir, Write(MANIFEST, b.manifestData));
      if r != Done {
        return;
      }
      ghost var second := script;
      UsedCalm(start, second, false, 1);
      r := WriteBundleFiles(dir, b.core.files, first);
      UsedThen(start, second, script, r == Stopped, 1, a, most);
      if r != Done {
        return;
      }
      ghost var third := script;
      UsedCalm(start, third, false, 1 + a);
      r := WriteHookScripts(dir, b.core.hooks, first + b.core.files);
      UsedThen(start, third, script, r == Stopped, 1 + a, c, most);
    }

    method RemoveAll(dir: Dir) returns (r: Outcome)
      modifies this`disk, this`script
      ensures r == Answer(old(script)) && script == After(old(script))
      ensures disk == if r == Done then old(disk) - {dir} else old(disk)
    {
      r := Attempt();
      if r == Done {
        disk := disk - {dir};
      }
    }

    method Rename(source: Dir, target: Dir) returns (r: Outcome)
      requires source in disk && target !in disk
      modifies this`disk, this`script
      ensures r == Answer(old(script)) && script == After(old(script))
      ensures disk == if r == Done then (old(disk) - {source})[target := old(disk)[source]] else old(disk)
    {
      r := Attempt();
      if r == Done {
        var moved := disk[source];
        disk := (disk - {source})[target := moved];
      }
    }

    /** A missing snapshot is written aside, in a directory with a fresh name, and moved into place. */
    method WriteAside(dir: Dir, b: Bundle) returns (r: Outcome)
      requires dir.Snapshot? && dir !in disk
      modifies this`disk, this`script
      ensures r == Done ==> dir in disk && disk[dir] == SnapshotTree(b)
      ensures r != Done ==> dir !in disk
      ensures forall d: Dir :: d.Snapshot? && d != dir ==> Same(old(disk), disk, d)
      ensures Used(old(script), script, r == Stopped, SnapshotWrites(b) + 3) && (Faultless(old(script)) ==> r != Failed)
    {
      hide *;
      ghost var start, w := script, SnapshotWrites(b);
      SomeTempFree(disk.Keys, dir.projectKey, 0);
      var n: nat :| Temp(dir.projectKey, n) !in disk.Keys;
      var temp := Temp(dir.projectKey, n);
      UsedSelf(start);
      UsedNext(start, script, 0, w + 3);
      r := Attempt();
      if r == Done {
        disk := disk[temp := map[]];
        ghost var second := script;
        UsedCalm(start, second, false, 1);
        r := WriteProjectHookSnapshot(temp, b);
        UsedThen(start, second, script, r == Stopped, 1, w, w + 3);
        UsedLess(start, script, r == Stopped, 1 + w, w + 2);
        if r == Done {
          UsedNext(start, script, 1 + w, w + 3);
          r := Rename(temp, dir);
        }
        if r == Failed {
          r := CleanUp(temp, start, w + 2);
        }
      }
      OnlyTemp(old(disk), disk, dir);
    }

    /** After a failure the temporary directory is removed if it can be. */
    method CleanUp(temp: Dir, ghost start: Script, ghost n: int) returns (r: Outcome)
      requires temp.Temp? && Used(start, script, false, n)
      modifies this`disk, this`script
      ensures r != Done && (disk == old(disk) || disk == old(disk) - {temp})
      ensures Used(start, script, r == Stopped, n + 1)
    {
      hide *;
      UsedNext(start, script, n, n + 1);
      r := RemoveAll(temp);
      if r == Done {
        r := Failed;
      }
    }

    /** The first part of `recordProjectHookApproval`: a snapshot that exists is kept. */
    method InstallProjectHookSnapshot(project: string, b: Bundle) returns (r: Outcome)
      modifies this`disk, this`script
      ensures OnlyGone(Installed(lib, old(disk), project, b), disk, []) || (r != Done && OnlyGone(old(disk), disk, []))
      ensures Used(old(script), script, r == Stopped, SnapshotWrites(b) + 5) && (Faultless(old(script)) ==> r != Failed)
    {
      ghost var start, most := script, SnapshotWrites(b) + 5;
      UsedSelf(start);
      UsedNext(start, script, 0, most);
      hide SnapshotTree;
      hide Used;
      hide Answer;
      hide After;
      hide SnapshotWrites;
      var dir := SnapDir(lib, project, lib.hashBundle(b.core));
      r := Attempt();
      if r != Done {
        return;
      }
      UsedNext(start, script, 1, most);
      r := Attempt();
      if r != Done || dir in disk {
        return;
      }
      ghost var second := script;
      UsedCalm(start, second, false, 2);
      r := WriteAside(dir, b);
      UsedThen(start, second, script, r == Stopped, 2, most - 2, most);
    }

    method RemoveSnapshots(dirs: seq<Dir>) returns (r: Outcome)
      modifies this`disk, this`script
      ensures forall d :: Same(old(disk), disk, d) || (d in dirs && d !in disk)
      ensures r == Done ==> forall d :: d in dirs ==> d !in disk
      ensures Used(old(script), script, r == Stopped, |dirs|) && (Faultless(old(script)) ==> r != Failed)
    {
      r := Done;
      UsedSelf(script);
      hide Used;
      hide Answer;
      hide After;
      for i := 0 to |dirs|
        invariant r == Done && Used(old(script), script, false, i)
        invariant forall d :: Same(old(disk), disk, d) || (d in dirs && d !in disk)
        invariant forall j :: 0 <= j < i ==> dirs[j] !in disk
      {
        UsedNext(old(script), script, i, |dirs|);
        r := RemoveAll(dirs[i]);
        if r != Done {
          return;
        }
      }
    }

    /** The filter loop shared by approval and removal. */
    method Filter(list: seq<Record>, project: string, keep: Option<Dir>) returns (kept: seq<Record>, stale: seq<Dir>)
      ensures kept == Without(list, project)
      ensures stale == Stale(list, project, keep)
    {
      kept, stale := [], [];
      for i := 0 to |list|
        invariant kept == Without(list[..i], project)
        invariant stale == Stale(list[..i], project, keep)
      {
        assert list[..i + 1][..i] == list[..i];
        if list[i].project == project {
          if list[i].dir.Some? && list[i].dir != keep {
            stale := stale + [list[i].dir.value];
          }
          continue;
        }
        kept := kept + [list[i]];
      }
      assert list[..|list|] == list;
    }

    /** `unread`: the approvals file could not be read, so the records of other projects are forgotten. */
    method RecordProjectHookApproval(project: string, b: Bundle, now: string) returns (r: Outcome, unread: bool)
      modifies this
      ensures Between(lib, old(Now()), Now(), Approve(project, b, now))
      ensures r == Done ==> FinishedFrom(lib, old(Now()), Now(), Approve(project, b, now), !unread)
      ensures Calm(old(script), SnapshotWrites(b) + 7 + |old(records)|) ==> r == Done && !unread
    {
      hide Between;
      hide FinishedFrom;
      hide OnlyGone;
      hide Installed;
      hide Same;
      hide Used;
      hide Answer;
      hide After;
      hide Sorted;
      hide Without;
      hide Stale;
      hide SnapshotWrites;
      ghost var s, w := Now(), SnapshotWrites(b);
      unread := false;
      r := InstallProjectHookSnapshot(project, b);
      UsedCalm(old(script), script, r == Stopped, w + 5);
      ApprovalUnsaved(lib, s, disk, project, b, now);
      if r != Done {
        return;
      }
      ghost var installed, second := disk, script;
      var hash := lib.hashBundle(b.core);
      var record := Record(project, hash, Some(SnapDir(lib, project, hash)), now, None);
      var list;
      r, list := LoadProjectHookApprovals();
      if Calm(second, 2 + |records|) {
        TwoOperations(second, |records|);
      }
      if r == Stopped {
        return;
      }
      unread := r == Failed;
      var kept, stale := Filter(list, project, record.dir);
      StaleIsShort(list, project, record.dir);
      r := SaveProjectHookApprovals(kept + [record]);
      if r != Done {
        return;
      }
      ghost var third := script;
      r := RemoveSnapshots(stale);
      UsedCalm(third, script, r == Stopped, |stale|);
      RemovalsBetween(Installed(lib, s.disk, project, b), installed, disk, stale);
      ApprovalSaved(lib, s, Now(), project, b, now, !unread);
    }

    /** The search loop of `updateProjectHookApprovalChain`. */
    method Rechain(list: seq<Record>, project: string, chain: Option<string>) returns (r: Option<seq<Record>>)
      ensures r == Rechained(list, project, chain)
    {
      RechainStart(list, project, chain);
      hide *;
      for i := 0 to |list|
        invariant Rechained(list, project, chain) == RechainFrom(list, i, project, chain)
      {
        RechainAt(list, i, project, chain);
        if list[i].project == project {
          return Some(list[i := list[i].(chain := chain)]);
        }
      }
      return None;
    }

    method UpdateProjectHookApprovalChain(project: string, chain: Option<string>) returns (r: Outcome, unread: bool)
      modifies this
      ensures Between(lib, old(Now()), Now(), SetChain(project, chain))
      ensures r == Done ==> FinishedFrom(lib, old(Now()), Now(), SetChain(project, chain), !unread)
      ensures Calm(old(script), 2) ==> !unread && (r == Done <==> exists rec :: rec in old(records) && rec.project == project)
    {
      ghost var s, op := Now(), SetChain(project, chain);
      var list;
      if Calm(script, 2) {
        TwoOperations(script, 0);
      }
      r, list := LoadProjectHookApprovals();
      unread := r == Failed;
      if r == Stopped {
        assert Unsaved(lib, s, Now(), op);
        return;
      }
      RechainedSome(list, project, chain);
      hide Rechained;
      var changed := Rechain(list, project, chain);
      if changed == None {
        r := Failed;
      } else {
        r := SaveProjectHookApprovals(changed.value);
      }
      if r == Done {
        assert SavedFrom(lib, s, Now(), op, !unread);
      } else {
        assert Unsaved(lib, s, Now(), op);
      }
    }

    method RemoveProjectHookApproval(project: string) returns (r: Outcome, unread: bool)
      modifies this
      ensures Between(lib, old(Now()), Now(), Remove(project))
      ensures r == Done ==> FinishedFrom(lib, old(Now()), Now(), Remove(project), !unread)
      ensures Calm(old(script), 2 + |old(records)|) ==> r == Done && !unread
    {
      ghost var s, op := Now(), Remove(project);
      var list;
      if Calm(script, 2 + |records|) {
        TwoOperations(script, |records|);
      }
      r, list := LoadProjectHookApprovals();
      unread := r == Failed;
      if r == Stopped {
        assert Unsaved(lib, s, Now(), op);
        return;
      }
      var kept, stale := Filter(list, project, None);
      StaleIsShort(list, project, None);
      r := SaveProjectHookApprovals(kept);
      if r != Done {
        assert Unsaved(lib, s, Now(), op);
        return;
      }
      ghost var third := script;
      r := RemoveSnapshots(stale);
      UsedCalm(third, script, r == Stopped, |stale|);
      RemovalsBetween(s.disk, s.disk, disk, stale);
      assert SavedFrom(lib, s, Now(), op, !unread);
    }

    /** None when the project has no record or the file cannot be read. */
    method LoadProjectHookApproval(project: string) returns (r: Outcome, found: Option<Record>)
      modifies this`script
      ensures r == Answer(old(script)) && script == After(old(script))
      ensures found.Some? ==> found.value in records && found.value.project == project
      ensures r == Done && found == None ==> forall rec :: rec in records ==> rec.project != project
    {
      var list;
      r, list := LoadProjectHookApprovals();
      hide Answer;
      hide After;
      for i := 0 to |list|
        invariant forall j :: 0 <= j < i ==> list[j].project != project
        invariant script == After(old(script))
      {
        if list[i].project == project {
          return r, Some(list[i]);
        }
      }
      return r, None;
    }

    /** The approval and snapshot checks of `validateProjectHookRuntime`. From a sound state the last two never fail:
        what runs is what was approved. */
    method ValidateProjectHookRuntime(project: string, bundle: Bundle) returns (r: RuntimeCheck)
      requires Sound(lib) && Inv(lib, Now())
      modifies this`script
      ensures !r.SnapshotMissing? && !r.SnapshotDrifted?
      ensures r.Valid? ==> r.bundle.core == bundle.core
      ensures r.Valid? ==> exists rec :: rec in records && rec.project == project && rec.hash == lib.hashBundle(bundle.core)
      ensures r.BundleDrifted? ==> exists rec :: rec in records && rec.project == project && rec.hash != lib.hashBundle(bundle.core)
      ensures r.NotApproved? && Answer(old(script)) == Done ==> forall rec :: rec in records ==> rec.project != project
      ensures Answer(old(script)) == Done && (exists rec :: rec in records && rec.project == project)
              ==> (r.Valid? <==> forall rec :: rec in records && rec.project == project ==> rec.hash == lib.hashBundle(bundle.core))
    {
      var loading, found := LoadProjectHookApproval(project);
      if found == None {
        return NotApproved;
      }
      var record := found.value;
      assert forall rec :: rec in records && rec.project == project ==> rec == record;
      if record.hash != lib.hashBundle(bundle.core) {
        return BundleDrifted;
      }
      assert RecordSound(lib, record, disk);
      hide Load;
      var loaded := if record.dir.Some? && record.dir.value in disk then Load(lib, disk[record.dir.value]) else Missing;
      if !loaded.Found? {
        return SnapshotMissing;
      }
      if lib.hashBundle(loaded.bundle.core) != record.hash {
        return SnapshotDrifted;
      }
      return Valid(loaded.bundle);
    }
  }

  datatype RuntimeCheck = NotApproved | BundleDrifted | SnapshotMissing | SnapshotDrifted | Valid(bundle: Bundle)

  function Prefixed(prefix: seq<Record>, rest: Option<seq<Record>>): Option<seq<Record>> {
    match rest
    case None => None
    case Some(list) => Some(prefix + list)
  }

  /** What is left of the search at position `i`. */
  function RechainFrom(list: seq<Record>, i: nat, project: string, chain: Option<string>): Option<seq<Record>>
    requires i <= |list|
  {
    Prefixed(list[..i], Rechained(list[i..], project, chain))
  }

  lemma RechainStart(list: seq<Record>, project: string, chain: Option<string>)
    ensures RechainFrom(list, 0, project, chain) == Rechained(list, project, chain)
    ensures RechainFrom(list, |list|, project, chain) == None
  {
    assert list[..0] == [] && list[0..] == list && list[|list|..] == [];
    assert Rechained([], project, chain) == None;
    hide Rechained;
    var all := Rechained(list, project, chain);
    if all.Some? {
      assert [] + all.value == all.value;
    }
  }

  lemma RechainAt(list: seq<Record>, i: nat, project: string, chain: Option<string>)
    requires i < |list|
    ensures RechainFrom(list, i, project, chain) ==
            if list[i].project == project then Some(list[i := list[i].(chain := chain)])
            else RechainFrom(list, i + 1, project, chain)
  {
    var tail := list[i..];
    assert tail[0] == list[i] && tail[1..] == list[i + 1..];
    var rest := Rechained(list[i + 1..], project, chain);
    if list[i].project == project {
      assert list[i := list[i].(chain := chain)] == list[..i] + ([list[i].(chain := chain)] + list[i + 1..]);
    } else if rest.Some? {
      assert list[..i] + ([list[i]] + rest.value) == list[..i + 1] + rest.value;
    }
  }

  lemma ApplyOne(writes: seq<Write>, w: Write)
    ensures Apply(map[], writes + [w]) == Apply(map[], writes)[w.path := w.data]
  {
    assert (writes + [w])[..|writes|] == writes;
  }

  lemma OnlyTemp(a: map<Dir, Tree>, b: map<Dir, Tree>, dir: Dir)
    requires forall d: Dir :: d.Snapshot? && d != dir ==> (d in a <==> d in b) && (d in a ==> a[d] == b[d])
    ensures forall d: Dir :: d.Snapshot? && d != dir ==> Same(a, b, d)
  {
  }

  lemma RemovalsBetween(a: map<Dir, Tree>, b: map<Dir, Tree>, c: map<Dir, Tree>, gone: seq<Dir>)
    requires OnlyGone(a, b, [])
    requires forall d :: Same(b, c, d) || (d in gone && d !in c)
    ensures OnlyGone(a, c, gone)
  {
    forall d: Dir | d.Snapshot?
      ensures Same(a, c, d) || (d in gone && d !in c)
    {
      assert Same(a, b, d) || (d in [] && d !in b);
      assert Same(b, c, d) || (d in gone && d !in c);
    }
  }

  /** The manifest, the files and the hook scripts. */
  function SnapshotWrites(b: Bundle): nat {
    1 + |b.core.files| + |b.core.hooks|
  }

  lemma SnapshotParts(b: Bundle)
    ensures SnapshotWrites(b) == 1 + |b.core.files| + |b.core.hooks|
    ensures var first := [Write(MANIFEST, b.manifestData)];
            && Apply(map[], first) == map[][MANIFEST := b.manifestData]
            && Apply(map[], first + b.core.files + Scripts(b.core.hooks)) == SnapshotTree(b)
  {
    var first := [Write(MANIFEST, b.manifestData)];
    ApplyOne([], first[0]);
    assert [] + first == first;
    assert (first + b.core.files) + Scripts(b.core.hooks) == Writes(b);
    hide Apply;
    hide Scripts;
    hide Writes;
  }

  lemma {:induction false} SomeTempFree(taken: set<Dir>, projectKey: string, n: nat)
    ensures exists k: nat :: n <= k && Temp(projectKey, k) !in taken
    decreases |taken|
  {
    if Temp(projectKey, n) in taken {
      SomeTempFree(taken - {Temp(projectKey, n)}, projectKey, n + 1);
      var k: nat :| n + 1 <= k && Temp(projectKey, k) !in taken - {Temp(projectKey, n)};
      assert Temp(projectKey, k) !in taken;
    }
  }

  lemma ApprovalUnsaved(lib: Library, s: State, disk: map<Dir, Tree>, project: string, b: Bundle, now: string)
    requires OnlyGone(Installed(lib, s.disk, project, b), disk, []) || OnlyGone(s.disk, disk, [])
    ensures Between(lib, s, State(s.records, disk), Approve(project, b, now))
  {
    hide OnlyGone;
    hide Installed;
    assert Unsaved(lib, s, State(s.records, disk), Approve(project, b, now));
  }

  lemma ApprovalSaved(lib: Library, s: State, t: State, project: string, b: Bundle, now: string, readable: bool)
    requires var op := Approve(project, b, now);
             var record := Fresh(lib, op);
             var list := Read(s, readable);
             && t.records == Sorted(Without(list, project) + [record])
             && OnlyGone(Installed(lib, s.disk, project, b), t.disk, Stale(list, project, record.dir))
    ensures var op := Approve(project, b, now);
            && Between(lib, s, t, op)
            && ((forall d :: d in Stale(Read(s, readable), project, Fresh(lib, op).dir) ==> d !in t.disk) ==>
                  FinishedFrom(lib, s, t, op, readable))
  {
    hide OnlyGone;
    hide Installed;
    hide Sorted;
    hide Stale;
    hide Fresh;
    assert SavedFrom(lib, s, t, Approve(project, b, now), readable);
  }

  lemma {:induction false} StaleIsShort(list: seq<Record>, project: string, keep: Option<Dir>)
    ensures |Stale(list, project, keep)| <= |list|
  {
    if list != [] {
      StaleIsShort(list[..|list| - 1], project, keep);
    }
  }

  lemma TwoOperations(script: Script, n: nat)
    requires Calm(script, n + 2)
    ensures Answer(script) == Done && Answer(After(script)) == Done && Calm(After(After(script)), n)
  {
    CalmStep(script, n + 2);
    CalmStep(After(script), n + 1);
  }
}
