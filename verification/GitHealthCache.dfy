/** The Git metadata cache: a repository found without problems is not checked again while its paths are unchanged. */
module GitHealthCache {
  import opened Wrappers
  import AclHealthCache

  type PathState = AclHealthCache.PathState

  datatype Requirement = Requirement(path: string, optional: bool, requireInherit: bool)

  datatype PathRecord = PathRecord(path: string, optional: bool, present: bool, state: Option<PathState>)

  /** What the two ways of looking at a path give: `Odd` is a path that is there but whose state cannot be taken, such
      as a symbolic link. */
  datatype Look = Absent | Failing | Odd | Taken(state: PathState)

  type Entries = map<string, seq<PathRecord>>

  /** The host at one moment. `oddProblems` stands for what checking an odd path finds then. */
  datatype Host = Host(look: string -> Look, oddProblems: Requirement -> seq<string>)

  /** What the three probes say of a path in a given state. */
  datatype Probes = Probes(hostReads: (string, PathState) -> bool, hostWrites: (string, PathState) -> bool,
                           agentWrites: (string, bool, PathState) -> bool)

  function GitPathRequirements(gitDir: string): seq<Requirement> {
    [Requirement(gitDir, false, true),
     Requirement(gitDir + "/HEAD", false, false),
     Requirement(gitDir + "/index", true, false),
     Requirement(gitDir + "/objects", false, true),
     Requirement(gitDir + "/refs", false, true),
     Requirement(gitDir + "/logs", true, true)]
  }

  // ---- the fresh check ----------------------------------------------------------------------------------------

  function ProblemsAt(probes: Probes, host: Host, req: Requirement): seq<string> {
    match host.look(req.path)
    case Absent => if req.optional then [] else ["missing " + req.path]
    case Failing => ["missing " + req.path]
    case Odd => host.oddProblems(req)
    case Taken(state) =>
      (if probes.hostReads(req.path, state) then [] else ["host user cannot read " + req.path])
      + (if probes.hostWrites(req.path, state) then [] else ["host user cannot write " + req.path])
      + (if probes.agentWrites(req.path, req.requireInherit, state) then []
         else ["agent user cannot " + (if req.requireInherit then "write with inheritable dev ACL" else "write") + " " + req.path])
  }

  function Problems(probes: Probes, host: Host, reqs: seq<Requirement>): seq<string> {
    if reqs == [] then []
    else Problems(probes, host, reqs[..|reqs| - 1]) + ProblemsAt(probes, host, reqs[|reqs| - 1])
  }

  method CollectGitPermissionProblems(probes: Probes, host: Host, gitDir: string) returns (problems: seq<string>)
    ensures problems == Problems(probes, host, GitPathRequirements(gitDir))
  {
    var reqs := GitPathRequirements(gitDir);
    hide GitPathRequirements;
    problems := [];
    for i := 0 to |reqs|
      invariant problems == Problems(probes, host, reqs[..i])
    {
      assert reqs[..i + 1][..i] == reqs[..i];
      problems := problems + ProblemsAt(probes, host, reqs[i]);
    }
    assert reqs[..|reqs|] == reqs;
  }

  // ---- path states --------------------------------------------------------------------------------------------

  function RecordOf(host: Host, req: Requirement): Option<PathRecord> {
    match host.look(req.path)
    case Absent => if req.optional then Some(PathRecord(req.path, true, false, None)) else None
    case Failing => None
    case Odd => None
    case Taken(state) => Some(PathRecord(req.path, req.optional, true, Some(state)))
  }

  /** None when some required path is missing or some state cannot be taken. */
  function Records(host: Host, reqs: seq<Requirement>): Option<seq<PathRecord>> {
    if reqs == [] then Some([])
    else
      match Records(host, reqs[..|reqs| - 1])
      case None => None
      case Some(records) =>
        match RecordOf(host, reqs[|reqs| - 1])
        case None => None
        case Some(record) => Some(records + [record])
  }

  lemma {:induction false} RecordsNeed(host: Host, reqs: seq<Requirement>, k: nat)
    requires k <= |reqs| && Records(host, reqs[..k]) == None
    ensures Records(host, reqs) == None
    decreases |reqs|
  {
    if k == |reqs| {
      assert reqs[..k] == reqs;
    } else {
      assert reqs[..|reqs| - 1][..k] == reqs[..k];
      RecordsNeed(host, reqs[..|reqs| - 1], k);
    }
  }

  method CurrentGitMetadataPathStates(host: Host, gitDir: string) returns (records: Option<seq<PathRecord>>)
    ensures records == Records(host, GitPathRequirements(gitDir))
  {
    var reqs := GitPathRequirements(gitDir);
    hide GitPathRequirements;
    var taken: seq<PathRecord> := [];
    for i := 0 to |reqs|
      invariant Records(host, reqs[..i]) == Some(taken)
    {
      assert reqs[..i + 1][..i] == reqs[..i];
      var record := RecordOf(host, reqs[i]);
      if record == None {
        RecordsNeed(host, reqs, i + 1);
        return None;
      }
      taken := taken + [record.value];
    }
    assert reqs[..|reqs|] == reqs;
    return Some(taken);
  }

  /** Equal records mean equal problems, path by path. */
  lemma {:induction false} SameRecordsSameProblems(probes: Probes, a: Host, b: Host, reqs: seq<Requirement>)
    requires Records(a, reqs).Some? && Records(a, reqs) == Records(b, reqs)
    ensures Problems(probes, a, reqs) == Problems(probes, b, reqs)
  {
    if reqs != [] {
      var rest, last := reqs[..|reqs| - 1], reqs[|reqs| - 1];
      var ra, rb := Records(a, rest).value, Records(b, rest).value;
      var la, lb := RecordOf(a, last).value, RecordOf(b, last).value;
      assert ra == (ra + [la])[..|ra + [la]| - 1] && rb == (rb + [lb])[..|rb + [lb]| - 1];
      assert la == (ra + [la])[|ra|] && lb == (rb + [lb])[|rb|];
      SameRecordsSameProblems(probes, a, b, rest);
    }
  }

  // ---- the cache ----------------------------------------------------------------------------------------------

  predicate Hit(entries: Entries, host: Host, gitDir: string) {
    gitDir in entries && Records(host, GitPathRequirements(gitDir)) == Some(entries[gitDir])
  }

  /** An entry is only kept for records under which a check finds nothing. */
  ghost predicate Sound(probes: Probes, entries: Entries) {
    forall d, host: Host :: Hit(entries, host, d) ==> Problems(probes, host, GitPathRequirements(d)) == []
  }

  function Remembered(probes: Probes, entries: Entries, host: Host, gitDir: string): Entries {
    var reqs := GitPathRequirements(gitDir);
    if Problems(probes, host, reqs) == [] && Records(host, reqs).Some? then entries[gitDir := Records(host, reqs).value]
    else entries - {gitDir}
  }

  lemma RememberedSound(probes: Probes, entries: Entries, host: Host, gitDir: string)
    requires Sound(probes, entries)
    ensures Sound(probes, Remembered(probes, entries, host, gitDir))
  {
    hide GitPathRequirements;
    hide Problems;
    hide Records;
    var after := Remembered(probes, entries, host, gitDir);
    forall d, h: Host | Hit(after, h, d)
      ensures Problems(probes, h, GitPathRequirements(d)) == []
    {
      if d == gitDir {
        SameRecordsSameProblems(probes, host, h, GitPathRequirements(d));
      } else {
        assert Hit(entries, h, d);
      }
    }
  }

  lemma EmptySound(probes: Probes)
    ensures Sound(probes, map[])
  {
  }

  class GitMetadataHealth {
    const off: bool
    var file: Entries

    constructor (off: bool, file: Entries)
      ensures this.off == off && this.file == file
    {
      this.off, this.file := off, file;
    }

    /** A file that cannot be read or decoded reads as empty. */
    method LoadGitMetadataHealthCache() returns (entries: Entries)
      ensures entries in {map[], file}
    {
      var fine: bool := *;
      return if fine then file else map[];
    }

    method SaveGitMetadataHealthCache(entries: Entries)
      modifies this
      ensures file in {old(file), entries}
    {
      var fine: bool := *;
      if fine {
        file := entries;
      }
    }

    method GitMetadataHealthCacheHealthy(host: Host, gitDir: string) returns (healthy: bool)
      ensures healthy ==> Hit(file, host, gitDir)
    {
      hide Records;
      hide GitPathRequirements;
      if off {
        return false;
      }
      var entries := LoadGitMetadataHealthCache();
      if gitDir !in entries {
        return false;
      }
      var records := CurrentGitMetadataPathStates(host, gitDir);
      return records == Some(entries[gitDir]);
    }

    method RememberGitMetadataHealth(probes: Probes, host: Host, gitDir: string, healthy: bool)
      requires healthy == (Problems(probes, host, GitPathRequirements(gitDir)) == [])
      requires Sound(probes, file)
      modifies this
      ensures Sound(probes, file)
      ensures file in {old(file), Remembered(probes, old(file), host, gitDir), Remembered(probes, map[], host, gitDir)}
    {
      hide Records;
      hide GitPathRequirements;
      hide Problems;
      if off {
        return;
      }
      var entries := LoadGitMetadataHealthCache();
      EmptySound(probes);
      RememberedSound(probes, entries, host, gitDir);
      hide Sound;
      var records := None;
      if healthy {
        records := CurrentGitMetadataPathStates(host, gitDir);
      }
      if records == None {
        if gitDir in entries {
          SaveGitMetadataHealthCache(entries - {gitDir});
        }
        return;
      }
      if gitDir in entries && entries[gitDir] == records.value {
        return;
      }
      SaveGitMetadataHealthCache(entries[gitDir := records.value]);
    }

    /** The cached check gives exactly what a fresh one would. */
    method CollectGitPermissionProblemsCached(probes: Probes, host: Host, gitDir: string) returns (problems: seq<string>)
      requires Sound(probes, file)
      modifies this
      ensures problems == Problems(probes, host, GitPathRequirements(gitDir))
      ensures Sound(probes, file)
      ensures forall d :: d != gitDir && d in file ==> d in old(file) && file[d] == old(file)[d]
    {
      hide Records;
      hide GitPathRequirements;
      hide Problems;
      var healthy := GitMetadataHealthCacheHealthy(host, gitDir);
      if healthy {
        return [];
      }
      problems := CollectGitPermissionProblems(probes, host, gitDir);
      RememberGitMetadataHealth(probes, host, gitDir, problems == []);
    }
  }

  // ---- whole runs ---------------------------------------------------------------------------------------------

  datatype Call = Call(host: Host, gitDir: string)

  ghost predicate IsRun(probes: Probes, files: seq<Entries>, calls: seq<Call>) {
    && |files| == |calls| + 1
    && forall i :: 0 <= i < |calls| ==>
         files[i + 1] in {map[], files[i], Remembered(probes, files[i], calls[i].host, calls[i].gitDir),
                          Remembered(probes, map[], calls[i].host, calls[i].gitDir)}
  }

  lemma {:induction false} RunStaysSound(probes: Probes, files: seq<Entries>, calls: seq<Call>, k: nat)
    requires IsRun(probes, files, calls) && Sound(probes, files[0]) && k <= |calls|
    ensures Sound(probes, files[k])
  {
    hide Sound;
    hide Remembered;
    if k > 0 {
      RunStaysSound(probes, files, calls, k - 1);
      EmptySound(probes);
      RememberedSound(probes, files[k - 1], calls[k - 1].host, calls[k - 1].gitDir);
      RememberedSound(probes, map[], calls[k - 1].host, calls[k - 1].gitDir);
    }
  }

  /** Over any run, with any changes to the host between the calls, a repository the cache calls healthy has no
      problem that a fresh check would find. */
  lemma RunHitsAreHealthy(probes: Probes, files: seq<Entries>, calls: seq<Call>, k: nat)
    requires IsRun(probes, files, calls) && Sound(probes, files[0]) && k < |calls|
    requires Hit(files[k], calls[k].host, calls[k].gitDir)
    ensures Problems(probes, calls[k].host, GitPathRequirements(calls[k].gitDir)) == []
  {
    RunStaysSound(probes, files, calls, k);
    hide Hit;
    hide GitPathRequirements;
    hide Problems;
  }

  // ---- what is checked and what is recorded -------------------------------------------------------------------

  /** A path is fine when it may be missing and is, or when the host can read and write it and the agent can write it,
      with an inheritable entry where new files are made. */
  predicate Fine(probes: Probes, host: Host, path: string, optional: bool, inherit: bool) {
    match host.look(path)
    case Absent => optional
    case Failing => false
    case Odd => host.oddProblems(Requirement(path, optional, inherit)) == []
    case Taken(state) => probes.hostReads(path, state) && probes.hostWrites(path, state) && probes.agentWrites(path, inherit, state)
  }

  lemma FineIff(probes: Probes, host: Host, req: Requirement)
    ensures ProblemsAt(probes, host, req) == [] <==> Fine(probes, host, req.path, req.optional, req.requireInherit)
  {
  }

  /** What is said of a path, problem by problem. */
  lemma ProblemsSay(probes: Probes, host: Host, req: Requirement)
    ensures var said, look := ProblemsAt(probes, host, req), host.look(req.path);
            && (look.Failing? || (look.Absent? && !req.optional) ==> said == ["missing " + req.path])
            && (look.Taken? ==>
                  && ("host user cannot read " + req.path in said <==> !probes.hostReads(req.path, look.state))
                  && ("host user cannot write " + req.path in said <==> !probes.hostWrites(req.path, look.state))
                  && ("agent user cannot write " + req.path in said
                      <==> !req.requireInherit && !probes.agentWrites(req.path, false, look.state))
                  && ("agent user cannot write with inheritable dev ACL " + req.path in said
                      <==> req.requireInherit && !probes.agentWrites(req.path, true, look.state)))
  {
    TextsDiffer(req.path);
  }

  lemma TextsDiffer(p: string)
    ensures var a, b, c, d := "host user cannot read " + p, "host user cannot write " + p, "agent user cannot write " + p,
                              "agent user cannot write with inheritable dev ACL " + p;
            a != b && a != c && a != d && b != c && b != d && c != d
    ensures "agent user cannot " + "write" + " " + p == "agent user cannot write " + p
    ensures "agent user cannot " + "write with inheritable dev ACL" + " " + p == "agent user cannot write with inheritable dev ACL " + p
  {
    StartsDiffer("host user cannot read ", "host user cannot write ", 17, p);
    StartsDiffer("host user cannot read ", "agent user cannot write ", 0, p);
    StartsDiffer("host user cannot read ", "agent user cannot write with inheritable dev ACL ", 0, p);
    StartsDiffer("host user cannot write ", "agent user cannot write ", 0, p);
    StartsDiffer("host user cannot write ", "agent user cannot write with inheritable dev ACL ", 0, p);
    LengthsDiffer("agent user cannot write ", "agent user cannot write with inheritable dev ACL ", p);
    PlainText();
    InheritText();
  }

  lemma StartsDiffer(s: string, t: string, k: nat, p: string)
    requires k < |s| && k < |t| && s[k] != t[k]
    ensures s + p != t + p
  {
    assert (s + p)[k] == s[k] && (t + p)[k] == t[k];
  }

  lemma LengthsDiffer(s: string, t: string, p: string)
    requires |s| != |t|
    ensures s + p != t + p
  {
    assert |s + p| == |s| + |p| && |t + p| == |t| + |p|;
  }

  lemma PlainText()
    ensures "agent user cannot " + "write" + " " == "agent user cannot write "
  {
  }

  lemma InheritText()
    ensures "agent user cannot " + "write with inheritable dev ACL" + " " == "agent user cannot write with inheritable dev ACL "
  {
  }

  /** The paths of a repository: its directory, HEAD, objects and refs must be there, index and logs may be, and new files
      are made in all but HEAD and index. */
  lemma HealthyIff(probes: Probes, host: Host, gitDir: string)
    ensures Problems(probes, host, GitPathRequirements(gitDir)) == [] <==>
            && Fine(probes, host, gitDir, false, true)
            && Fine(probes, host, gitDir + "/HEAD", false, false)
            && Fine(probes, host, gitDir + "/index", true, false)
            && Fine(probes, host, gitDir + "/objects", false, true)
            && Fine(probes, host, gitDir + "/refs", false, true)
            && Fine(probes, host, gitDir + "/logs", true, true)
  {
    var reqs := GitPathRequirements(gitDir);
    NoProblems(probes, host, reqs);
    hide ProblemsAt;
    hide Problems;
    forall i | 0 <= i < |reqs|
      ensures ProblemsAt(probes, host, reqs[i]) == [] <==> Fine(probes, host, reqs[i].path, reqs[i].optional, reqs[i].requireInherit)
    {
      FineIff(probes, host, reqs[i]);
    }
    hide Fine;
    assert |reqs| == 6;
    assert reqs[0] == Requirement(gitDir, false, true) && reqs[1] == Requirement(gitDir + "/HEAD", false, false);
    assert reqs[2] == Requirement(gitDir + "/index", true, false) && reqs[3] == Requirement(gitDir + "/objects", false, true);
    assert reqs[4] == Requirement(gitDir + "/refs", false, true) && reqs[5] == Requirement(gitDir + "/logs", true, true);
  }

  lemma {:induction false} NoProblems(probes: Probes, host: Host, reqs: seq<Requirement>)
    ensures Problems(probes, host, reqs) == [] <==> forall i :: 0 <= i < |reqs| ==> ProblemsAt(probes, host, reqs[i]) == []
  {
    hide ProblemsAt;
    if reqs != [] {
      NoProblems(probes, host, reqs[..|reqs| - 1]);
    }
  }

  /** Records are taken exactly when every path is there with a state, or may be missing and is; they hold just that. */
  lemma {:induction false} RecordsIff(host: Host, reqs: seq<Requirement>)
    ensures Records(host, reqs).Some? <==>
            forall i :: 0 <= i < |reqs| ==> host.look(reqs[i].path).Taken? || (host.look(reqs[i].path).Absent? && reqs[i].optional)
    ensures Records(host, reqs).Some? ==>
              && |Records(host, reqs).value| == |reqs|
              && forall i :: 0 <= i < |reqs| ==>
                   var record, look := Records(host, reqs).value[i], host.look(reqs[i].path);
                   && record.path == reqs[i].path && record.optional == reqs[i].optional
                   && record.present == look.Taken? && record.state == if look.Taken? then Some(look.state) else None
  {
    if reqs != [] {
      var rest, last := reqs[..|reqs| - 1], reqs[|reqs| - 1];
      RecordsIff(host, rest);
      assert forall i :: 0 <= i < |rest| ==> rest[i] == reqs[i];
    }
  }

  /** A check that finds nothing is remembered when its records can be taken, so an unchanged repository is a hit. */
  lemma HealthyIsRemembered(probes: Probes, entries: Entries, host: Host, gitDir: string)
    ensures Hit(Remembered(probes, entries, host, gitDir), host, gitDir) <==>
            Problems(probes, host, GitPathRequirements(gitDir)) == [] && Records(host, GitPathRequirements(gitDir)).Some?
    ensures forall d :: d != gitDir ==> (Hit(Remembered(probes, entries, host, gitDir), host, d) <==> Hit(entries, host, d))
  {
    hide GitPathRequirements;
    hide Problems;
    hide Records;
  }

  /** A run is a file, or a run and one more check on its last file, which was read or not and written or not. */
  lemma RunsAre(probes: Probes, file: Entries, files: seq<Entries>, calls: seq<Call>, next: Entries, call: Call)
    requires files != []
    ensures IsRun(probes, [file], [])
    ensures IsRun(probes, files + [next], calls + [call]) <==>
            var last := files[|files| - 1];
            && IsRun(probes, files, calls)
            && next in {map[], last, Remembered(probes, last, call.host, call.gitDir),
                        Remembered(probes, map[], call.host, call.gitDir)}
  {
    hide Remembered;
    var n, more, all := |calls|, files + [next], calls + [call];
    if IsRun(probes, more, all) {
      assert all[n] == call && more[n] == files[|files| - 1] && more[n + 1] == next;
      forall i | 0 <= i < n
        ensures files[i + 1] in {map[], files[i], Remembered(probes, files[i], calls[i].host, calls[i].gitDir),
                                 Remembered(probes, map[], calls[i].host, calls[i].gitDir)}
      {
        assert all[i] == calls[i] && more[i] == files[i] && more[i + 1] == files[i + 1];
      }
    }
  }
}
