/** `hazmat migrate credentials` in place. Every file operation takes its answer from the script: it works, it fails, or
    the process is stopped before it. */
module Migrator {
  import opened Wrappers
  import opened Text
  import opened Faults
  import opened CredentialLines
  import opened Migration
  import opened MigrationRuns

  /** What a second migration would find nothing to do on. */
  predicate Quiet(s: State, names: seq<string>) {
    && (forall n :: n in names ==> !Exported(s, n))
    && s.cloudFile == None && s.httpsFile == None && s.legacyRoot == None
  }

  /** More operations than a migration can need. */
  function Operations(s: State, names: seq<string>): nat {
    6 * |names| + 4 + 4 + DirOperations(s)
  }

  function DirOperations(s: State): nat {
    5 + EntryOperations(s)
  }

  /** The stored lines keep their places; others may come after them. */
  predicate LinesKept(s: State, t: State) {
    Items(Stored(s, GitHTTPS)) <= Items(Stored(t, GitHTTPS))
  }

  predicate LinesStored(text: string, s: State) {
    forall l :: l in Items(text) ==> l in Items(Stored(s, GitHTTPS))
  }

  predicate NoEntries(s: State) {
    s.legacyRoot == Some(map[])
  }

  function EntryOperations(s: State): nat {
    3 * |Root(s.legacyRoot)|
  }

  class Migrator {
    const unquote: Unquote
    const names: seq<string>
    var files: State
    var script: Script
    var actions: nat
    /** Errors and warnings. */
    var problems: nat
    /** Failed reads of the exports file, which are not reported. */
    var unread: nat

    constructor (unquote: Unquote, names: seq<string>, files: State, script: Script)
      ensures this.unquote == unquote && this.names == names && this.files == files && this.script == script
      ensures actions == 0 && problems == 0 && unread == 0
    {
      this.unquote, this.names, this.files, this.script := unquote, names, files, script;
      actions, problems, unread := 0, 0, 0;
    }

    /** A file operation. */
    method Attempt() returns (r: Outcome)
      modifies this`script
      ensures r == Answer(old(script)) && script == After(old(script))
    {
      if script == [] {
        return Stopped;
      }
      r := if script[0] then Done else Failed;
      script := script[1..];
    }

    /** A failed step is reported as a problem; the migration goes on with the next credential. */
    method Try() returns (r: Outcome)
      modifies this`script, this`problems
      ensures r == Answer(old(script)) && script == After(old(script))
      ensures problems == old(problems) + if r == Failed then 1 else 0
    {
      r := Attempt();
      if r == Failed {
        problems := problems + 1;
      }
    }

    method ReadZshrcEnvLine(name: string) returns (r: Outcome, line: Option<string>)
      modifies this`script, this`unread
      ensures r == Answer(old(script)) && script == After(old(script))
      ensures unread == old(unread) + if r == Failed then 1 else 0
      ensures line == if r == Done then FirstExport(LinesOf(files.zshrc), name) else None
    {
      r := Attempt();
      if r == Failed {
        unread := unread + 1;
      }
      if r != Done {
        return r, None;
      }
      var lines := LinesOf(files.zshrc);
      assert lines[0..] == lines;
      hide *;
      for i := 0 to |lines|
        invariant FirstExport(lines, name) == FirstExport(lines[i..], name)
        invariant script == After(old(script)) && unread == old(unread)
      {
        FirstExportAt(lines, i, name);
        if Exports(lines[i], name) {
          return Done, Some(lines[i]);
        }
      }
      assert lines[|lines|..] == [];
      NoLines(name);
      return Done, None;
    }

    /** The value goes to the store, or to a fresh conflict path when the store has another one. */
    method KeepValue(key: Key, value: string, stamp: string) returns (r: Outcome)
      modifies this`files, this`script, this`problems
      ensures problems >= old(problems)
      ensures Run(files, script, r, 0, problems - old(problems), 0) == KeepRun(old(files), key, value, stamp, old(script))
    {
      var free := if key == CloudSecret then key !in files.store else TrimSpace(Stored(files, key)) == "";
      hide TrimSpace;
      hide FreeSlot;
      if free {
        r := Try();
        if r == Done {
          files := files.(store := files.store[key := value + "\n"]);
        }
      } else if TrimSpace(Stored(files, key)) == value {
        r := Done;
      } else {
        var slot := NextConflictPath(files.archive.Keys, key, stamp);
        FreeSlotIsFirst(files.archive.Keys, key, stamp, 0, slot.n);
        r := Try();
        if r == Done {
          files := files.(archive := files.archive[slot := value + "\n"]);
        }
      }
    }

    /** `updateAgentFile` with the rewrite that removes a variable: the file is read, emptied on opening, and written. */
    method RemoveLegacyAPIKeyExports(name: string) returns (r: Outcome)
      modifies this`files, this`script, this`problems
      ensures problems >= old(problems)
      ensures Run(files, script, r, 0, problems - old(problems), 0) == RewriteRun(old(files), name, old(script))
    {
      var readable := Attempt();
      if readable == Stopped {
        return Stopped;
      }
      var updated := Rewrite(if readable == Done then files.zshrc else "", name);
      hide Rewrite;
      r := Try();
      if r != Done {
        return;
      }
      files := files.(zshrc := "");
      r := Try();
      if r == Done {
        files := files.(zshrc := updated);
      }
    }

    /** A value found in the exports is kept, then its exports are removed. */
    method MoveValue(name: string, value: string, stamp: string) returns (r: Outcome)
      modifies this`files, this`script, this`problems, this`actions
      ensures problems >= old(problems) && actions >= old(actions)
      ensures Run(files, script, r, actions - old(actions), problems - old(problems), 0)
              == MoveRun(old(files), name, value, stamp, old(script))
    {
      KeepCases(files, Provider(name), value, stamp, script);
      hide KeepRun;
      hide RewriteRun;
      r := KeepValue(Provider(name), value, stamp);
      if r != Done {
        return;
      }
      r := RemoveLegacyAPIKeyExports(name);
      if r == Done {
        actions := actions + 1;
      }
    }

    method MigrateProviderAPIKey(name: string, dryRun: bool, stamp: string) returns (r: Outcome)
      modifies this
      ensures problems >= old(problems) && actions >= old(actions) && unread >= old(unread)
      ensures Run(files, script, r, actions - old(actions), problems - old(problems), unread - old(unread))
              == VariableRun(unquote, old(files), name, dryRun, stamp, old(script))
    {
      VariableRunIs(unquote, files, name, dryRun, stamp, script);
      StoppedIsEmpty(script);
      StoppedIsEmpty(After(script));
      hide *;
      var line;
      r, line := ReadZshrcEnvLine(name);
      if r != Done || line == None {
        return if r == Stopped then Stopped else Done;
      }
      FirstIs(unquote, files, name, line.value);
      var value := LineValue(unquote, line.value, name);
      r := Try();
      if r != Done {
        return;
      }
      if value == "" {
        problems := problems + 1;
        return Failed;
      }
      if dryRun {
        actions := actions + 1;
        return;
      }
      r := MoveValue(name, value, stamp);
    }

    method MigrateProviderAPIKeys(dryRun: bool, stamp: string) returns (r: Outcome)
      modifies this
      ensures problems >= old(problems) && actions >= old(actions) && unread >= old(unread)
      ensures Run(files, script, r, actions - old(actions), problems - old(problems), unread - old(unread))
              == VariablesRun(unquote, old(files), names, dryRun, stamp, old(script))
    {
      r := Done;
      hide VariableRun;
      assert names[0..] == names;
      for i := 0 to |names|
        invariant r == Done && problems >= old(problems) && actions >= old(actions) && unread >= old(unread)
        invariant VariablesRun(unquote, old(files), names, dryRun, stamp, old(script))
                  == Ahead(VariablesRun(unquote, files, names[i..], dryRun, stamp, script),
                           actions - old(actions), problems - old(problems), unread - old(unread))
      {
        assert names[i..][0] == names[i] && names[i..][1..] == names[i + 1..];
        r := MigrateProviderAPIKey(names[i], dryRun, stamp);
        if r == Stopped {
          return;
        }
        r := Done;
      }
    }

    method RemoveCloudFile() returns (r: Outcome)
      requires files.cloudFile.Some?
      requires TrimSpace(files.cloudFile.value) != "" ==> Elsewhere(files, CloudSecret, TrimSpace(files.cloudFile.value))
      modifies this`files, this`script, this`problems
      ensures r == Answer(old(script)) && script == After(old(script))
      ensures problems == old(problems) + if r == Failed then 1 else 0
      ensures Conserves(unquote, old(files), files)
      ensures files == if r == Done then old(files).(cloudFile := None) else old(files)
    {
      hide *;
      ConservesSelf(unquote, files);
      r := Try();
      if r == Done {
        RemoveCloudConserves(unquote, files);
        files := files.(cloudFile := None);
      }
    }

    /** A secret found in the cloud file is kept, then the file is removed. */
    method MoveCloudSecret(secret: string, stamp: string) returns (r: Outcome)
      requires files.cloudFile.Some? && secret == TrimSpace(files.cloudFile.value) && secret != "" && Trimmed(secret)
      modifies this
      ensures Conserves(unquote, old(files), files)
      ensures files == old(files).(cloudFile := files.cloudFile, store := files.store, archive := files.archive)
      ensures OthersAlike(old(files), files, CloudSecret)
      ensures files.cloudFile == if r == Done then None else old(files).cloudFile
      ensures var kept := Kept(old(files), CloudSecret, secret, stamp);
              if r == Done then files == kept.(cloudFile := None) else files == old(files) || files == kept
      ensures problems == old(problems) + (if r == Failed then 1 else 0) && unread == old(unread)
      ensures Used(old(script), script, r == Stopped, 3) && (Faultless(old(script)) ==> r != Failed)
    {
      hide *;
      ghost var s := files;
      ConservesSelf(unquote, s);
      OthersAlikeSelf(s, s, CloudSecret);
      UsedSelf(script);
      UsedNext(script, script, 0, 3);
      r := Try();
      if r != Done {
        return;
      }
      KeepHolds(unquote, files, CloudSecret, secret, stamp, old(script), script, 1, 3);
      KeepFiles(files, CloudSecret, secret, stamp, script);
      ghost var kept := KeepRun(files, CloudSecret, secret, stamp, script);
      ghost var before := problems;
      r := KeepValue(CloudSecret, secret, stamp);
      RunOf(files, script, r, 0, problems - before, 0);
      if r != Done {
        return;
      }
      actions := actions + 1;
      UsedNext(old(script), script, 2, 3);
      r := RemoveCloudFile();
      ConservesTrans(unquote, s, kept.files, files);
      OthersAlikeSelf(kept.files, files, CloudSecret);
      OthersAlikeTrans(s, kept.files, files, CloudSecret);
    }

    method MigrateLegacyCloudSecretFile(dryRun: bool, stamp: string) returns (r: Outcome)
      modifies this
      ensures Conserves(unquote, old(files), files)
      ensures files == old(files).(cloudFile := files.cloudFile, store := files.store, archive := files.archive)
      ensures OthersAlike(old(files), files, CloudSecret)
      ensures dryRun ==> files == old(files)
      ensures old(files).cloudFile == None ==> files == old(files) && actions == old(actions)
      ensures r == Done && !dryRun ==> files.cloudFile == None
      ensures old(files).cloudFile.Some? ==>
                var kept := CloudKept(old(files), stamp);
                if r == Done && !dryRun then files == kept.(cloudFile := None) else files == old(files) || files == kept
      ensures files.cloudFile == old(files).cloudFile || files.cloudFile == None
      ensures problems == old(problems) + (if r == Failed then 1 else 0) && unread == old(unread)
      ensures Used(old(script), script, r == Stopped, 4) && (Faultless(old(script)) ==> r != Failed)
    {
      hide *;
      ghost var s := files;
      ConservesSelf(unquote, s);
      OthersAlikeSelf(s, s, CloudSecret);
      UsedSelf(script);
      UsedNext(script, script, 0, 4);
      r := Try();
      if r != Done || files.cloudFile == None {
        return;
      }
      if dryRun {
        actions := actions + 1;
        return;
      }
      ghost var read := script;
      UsedCalm(old(script), script, false, 1);
      var secret := TrimSpace(files.cloudFile.value);
      TrimIsTrimmed(files.cloudFile.value);
      CloudKeptIs(files, stamp);
      if secret == "" {
        UsedNext(old(script), script, 1, 4);
        r := RemoveCloudFile();
        OthersAlikeSelf(s, files, CloudSecret);
        if r == Done {
          actions := actions + 1;
        }
      } else {
        r := MoveCloudSecret(secret, stamp);
        UsedThen(old(script), read, script, r == Stopped, 1, 3, 4);
      }
    }

    method RemoveHTTPSFile() returns (r: Outcome)
      requires LinesStored(OptText(files.httpsFile), files)
      modifies this`files, this`script, this`problems
      ensures r == Answer(old(script)) && script == After(old(script))
      ensures problems == old(problems) + if r == Failed then 1 else 0
      ensures Conserves(unquote, old(files), files)
      ensures files == if r == Done then old(files).(httpsFile := None) else old(files)
    {
      hide *;
      ConservesSelf(unquote, files);
      r := Try();
      if r == Done {
        StoredLinesRemove(unquote, files);
        files := files.(httpsFile := None);
      }
    }

    /** The store gets the lines of the legacy file that it does not have yet, in order, after its own. */
    method MergeLines(legacy: string) returns (r: Outcome)
      modifies this`files, this`script, this`problems
      ensures Conserves(unquote, old(files), files) && OthersAlike(old(files), files, GitHTTPS)
      ensures files == old(files).(store := files.store)
      ensures LinesKept(old(files), files)
      ensures r == Done ==> LinesStored(legacy, files)
      ensures files == if r == Done then LinesMerged(old(files), legacy) else old(files)
      ensures problems == old(problems) + if r == Failed then 1 else 0
      ensures Used(old(script), script, r == Stopped, 2) && (Faultless(old(script)) ==> r != Failed)
    {
      hide *;
      ghost var s := files;
      ConservesSelf(unquote, s);
      OthersAlikeSelf(s, s, GitHTTPS);
      LinesKeptAlike(s, s);
      UsedSelf(script);
      UsedNext(script, script, 0, 2);
      r := Try();
      if r != Done {
        return;
      }
      var hostRaw, hostExists := Stored(files, GitHTTPS), GitHTTPS in files.store;
      var merged := MergeGitCredentialStoreLines(hostRaw, legacy);
      UsedNext(old(script), script, 1, 2);
      UsedLess(old(script), script, false, 1, 2);
      MergedHolds(unquote, s, legacy);
      LinesMergedIs(s, legacy);
      if merged != "" && (!hostExists || TrimSpace(hostRaw) != TrimSpace(merged)) {
        r := Try();
        if r == Done {
          files := files.(store := files.store[GitHTTPS := merged + "\n"]);
        }
      }
    }

    /** The lines of the legacy file are stored, then the file is removed. */
    method MoveLines() returns (r: Outcome)
      requires files.httpsFile.Some?
      modifies this`files, this`script, this`problems
      ensures Conserves(unquote, old(files), files) && OthersAlike(old(files), files, GitHTTPS)
      ensures files == old(files).(httpsFile := files.httpsFile, store := files.store)
      ensures files.httpsFile == if r == Done then None else old(files).httpsFile
      ensures var kept := HTTPSKept(old(files));
              if r == Done then files == kept.(httpsFile := None) else files == old(files) || files == kept
      ensures LinesKept(old(files), files)
      ensures problems == old(problems) + if r == Failed then 1 else 0
      ensures Used(old(script), script, r == Stopped, 3) && (Faultless(old(script)) ==> r != Failed)
    {
      hide *;
      ghost var s, first := files, script;
      TextOfSome(files.httpsFile);
      LinesKeptAlike(s, s);
      TrimmedLinesStored(files.httpsFile.value, files);
      var legacy := TrimSpace(files.httpsFile.value);
      HTTPSKeptIs(files);
      if legacy == "" {
        UsedSelf(script);
        UsedNext(script, script, 0, 3);
        r := RemoveHTTPSFile();
        OthersAlikeSelf(s, files, GitHTTPS);
        LinesKeptAlike(s, files);
        return;
      }
      r := MergeLines(legacy);
      UsedLess(first, script, r == Stopped, 2, 3);
      if r != Done {
        return;
      }
      ghost var mid := files;
      UsedNext(first, script, 2, 3);
      TrimmedLinesStored(mid.httpsFile.value, mid);
      r := RemoveHTTPSFile();
      LinesKeptAlike(mid, files);
      LinesKeptTrans(s, mid, files);
      ConservesTrans(unquote, s, mid, files);
      OthersAlikeSelf(mid, files, GitHTTPS);
      OthersAlikeTrans(s, mid, files, GitHTTPS);
    }

    method MigrateLegacyGitHTTPSCredentials(dryRun: bool) returns (r: Outcome)
      modifies this
      ensures Conserves(unquote, old(files), files) && OthersAlike(old(files), files, GitHTTPS)
      ensures files == old(files).(httpsFile := files.httpsFile, store := files.store)
      ensures dryRun ==> files == old(files)
      ensures old(files).httpsFile == None ==> files == old(files) && actions == old(actions)
      ensures r == Done && !dryRun ==> files.httpsFile == None
      ensures old(files).httpsFile.Some? ==>
                var kept := HTTPSKept(old(files));
                if r == Done && !dryRun then files == kept.(httpsFile := None) else files == old(files) || files == kept
      ensures LinesKept(old(files), files)
      ensures problems == old(problems) + (if r == Failed then 1 else 0) && unread == old(unread)
      ensures Used(old(script), script, r == Stopped, 4) && (Faultless(old(script)) ==> r != Failed)
    {
      hide *;
      ghost var s := files;
      ConservesSelf(unquote, s);
      OthersAlikeSelf(s, s, GitHTTPS);
      LinesKeptAlike(s, s);
      UsedSelf(script);
      UsedNext(script, script, 0, 4);
      r := Try();
      if r != Done || files.httpsFile == None {
        return;
      }
      if dryRun {
        actions := actions + 1;
        return;
      }
      ghost var read := script;
      UsedCalm(old(script), script, false, 1);
      r := MoveLines();
      UsedThen(old(script), read, script, r == Stopped, 1, 3, 4);
      if r == Done {
        actions := actions + 1;
      }
    }

    method MoveEntry(name: string, stamp: string) returns (r: Outcome)
      requires files.legacyRoot.Some? && files.newRoot.Some? && name in files.legacyRoot.value
      modifies this
      ensures Conserves(unquote, old(files), files) && OnlyDirs(old(files), files)
      ensures files.legacyRoot.Some? && files.newRoot.Some?
      ensures if r == Done then EntryMoved(old(files), files, name, stamp) else files == old(files)
      ensures problems == old(problems) + (if r == Failed then 1 else 0) && unread == old(unread)
      ensures Used(old(script), script, r == Stopped, 3) && (Faultless(old(script)) ==> r != Failed)
    {
      ghost var s := files;
      ConservesSelf(unquote, s);
      OnlyDirsSelf(s);
      UsedSelf(script);
      UsedNext(script, script, 0, 3);
      hide Conserves;
      hide DirsKept;
      hide Used;
      hide Answer;
      hide After;
      r := Try();
      if r != Done {
        return;
      }
      UsedNext(old(script), script, 1, 3);
      var legacy, kept := files.legacyRoot.value, files.newRoot.value;
      if name !in kept && legacy[name].Directory? {
        r := Try();
        if r == Done {
          MoveEntryKeeps(s, name);
          files := files.(legacyRoot := Some(legacy - {name}), newRoot := Some(kept[name := legacy[name]]));
          DirsConserve(unquote, s, files);
          actions := actions + 1;
        }
        return;
      }
      var slot := NextConflictPath(files.dirArchive.Keys, name, stamp);
      r := Try();
      if r != Done {
        return;
      }
      UsedNext(old(script), script, 2, 3);
      r := Try();
      if r == Done {
        ArchiveEntryKeeps(s, name, slot);
        files := files.(legacyRoot := Some(legacy - {name}), dirArchive := files.dirArchive[slot := legacy[name]]);
        DirsConserve(unquote, s, files);
        actions := actions + 1;
      }
    }

    method MoveEntries(stamp: string) returns (r: Outcome)
      requires files.legacyRoot.Some? && files.newRoot.Some?
      modifies this
      ensures r != Failed
      ensures Conserves(unquote, old(files), files) && OnlyDirs(old(files), files)
      ensures files.legacyRoot.Some? && files.newRoot.Some?
      ensures r == Done && problems == old(problems) ==> NoEntries(files)
      ensures EntriesMoved(old(files), files, stamp)
      ensures problems >= old(problems) && unread == old(unread)
      ensures Used(old(script), script, r == Stopped, EntryOperations(old(files)))
      ensures Faultless(old(script)) ==> problems == old(problems)
    {
      ghost var s := files;
      ConservesSelf(unquote, s);
      OnlyDirsSelf(s);
      NoneMoved(s, stamp);
      UsedSelf(script);
      hide Conserves;
      hide Used;
      hide EntryMoved;
      hide EntriesMoved;
      r := Done;
      var rest := files.legacyRoot.value.Keys;
      ghost var n := 0;
      while rest != {}
        invariant r == Done
        invariant files.legacyRoot.Some? && files.newRoot.Some? && rest <= files.legacyRoot.value.Keys
        invariant Conserves(unquote, s, files) && OnlyDirs(s, files) && EntriesMoved(s, files, stamp)
        invariant problems == old(problems) ==> files.legacyRoot.value.Keys == rest
        invariant problems >= old(problems) && unread == old(unread)
        invariant Used(old(script), script, false, n) && n + 3 * |rest| == 3 * |s.legacyRoot.value|
        invariant Faultless(old(script)) ==> problems == old(problems)
      {
        ghost var before, mid := files, script;
        var name :| name in rest;
        UsedCalm(old(script), script, false, n);
        r := MoveEntry(name, stamp);
        if r == Done {
          OneMoreMoved(s, before, files, name, stamp);
        }
        UsedThen(old(script), mid, script, r == Stopped, n, 3, 3 * |s.legacyRoot.value|);
        ConservesTrans(unquote, s, before, files);
        rest := rest - {name};
        n := n + 3;
        if r == Stopped {
          return;
        }
        r := Done;
      }
      assert files.legacyRoot.value.Keys == {} ==> files.legacyRoot.value == map[];
    }

    /** The legacy root becomes the new one. */
    method MoveRoot() returns (r: Outcome)
      requires files.legacyRoot.Some? && files.newRoot == None
      modifies this
      ensures Conserves(unquote, old(files), files) && OnlyDirs(old(files), files)
      ensures files == if r == Done then old(files).(legacyRoot := None, newRoot := old(files).legacyRoot) else old(files)
      ensures problems == old(problems) + (if r == Failed then 1 else 0) && unread == old(unread)
      ensures Used(old(script), script, r == Stopped, 2) && (Faultless(old(script)) ==> r != Failed)
    {
      ghost var s := files;
      ConservesSelf(unquote, s);
      OnlyDirsSelf(s);
      UsedSelf(script);
      UsedNext(script, script, 0, 2);
      hide Conserves;
      hide DirsKept;
      hide Used;
      hide Answer;
      hide After;
      r := Try();
      if r != Done {
        return;
      }
      UsedNext(old(script), script, 1, 2);
      r := Try();
      if r == Done {
        MoveRootKeeps(s);
        files := files.(legacyRoot := None, newRoot := files.legacyRoot);
        DirsConserve(unquote, s, files);
        actions := actions + 1;
      }
    }

    method RemoveRoot() returns (r: Outcome)
      requires files.legacyRoot.Some?
      modifies this`files, this`script, this`problems
      ensures Conserves(unquote, old(files), files) && OnlyDirs(old(files), files)
      ensures files == if r == Done then old(files).(legacyRoot := None) else old(files)
      ensures r == Done ==> NoEntries(old(files))
      ensures Faultless(old(script)) && NoEntries(old(files)) ==> r != Failed
      ensures problems == old(problems) + if r == Failed then 1 else 0
      ensures Used(old(script), script, r == Stopped, 1)
    {
      ghost var s := files;
      ConservesSelf(unquote, s);
      OnlyDirsSelf(s);
      UsedSelf(script);
      UsedNext(script, script, 0, 1);
      UsedLess(script, script, false, 0, 1);
      hide Conserves;
      hide DirsKept;
      hide Used;
      hide Answer;
      hide After;
      if files.legacyRoot.value != map[] {
        problems := problems + 1;
        return Failed;
      }
      r := Try();
      if r == Done {
        RemoveRootKeeps(s);
        files := files.(legacyRoot := None);
        DirsConserve(unquote, s, files);
      }
    }

    /** The new root exists: the entries go there or, where it has one of that name, to the archive. */
    method MergeRoot(stamp: string) returns (r: Outcome)
      requires files.legacyRoot.Some? && files.newRoot.Some?
      modifies this
      ensures Conserves(unquote, old(files), files) && OnlyDirs(old(files), files)
      ensures r != Stopped && problems == old(problems) ==> files.legacyRoot == None
      ensures EntriesMoved(old(files), files, stamp)
      ensures problems >= old(problems) && unread == old(unread) && (r == Failed ==> problems > old(problems))
      ensures Used(old(script), script, r == Stopped, 3 + EntryOperations(old(files)))
      ensures Faultless(old(script)) ==> problems == old(problems)
    {
      hide *;
      ghost var s, first, most := files, script, 3 + EntryOperations(files);
      ConservesSelf(unquote, s);
      OnlyDirsSelf(s);
      NoneMoved(s, stamp);
      UsedSelf(script);
      UsedNext(script, script, 0, most);
      r := Try();
      if r != Done {
        return;
      }
      UsedNext(first, script, 1, most);
      r := Try();
      if r != Done {
        return;
      }
      ghost var read := script;
      UsedCalm(first, script, false, 2);
      r := MoveEntries(stamp);
      UsedThen(first, read, script, r == Stopped, 2, most - 3, most);
      UsedThen(first, read, script, r == Stopped, 2, most - 3, most - 1);
      if r == Stopped {
        return;
      }
      ghost var mid := files;
      ghost var before := script;
      UsedCalm(first, before, false, most - 1);
      r := RemoveRoot();
      UsedThen(first, before, script, r == Stopped, most - 1, 1, most);
      ConservesTrans(unquote, s, mid, files);
      OnlyDirsTrans(s, mid, files);
      if r == Done {
        RootGone(s, mid, stamp);
      }
    }

    method MigrateCredentialProvisionedGitSSH(dryRun: bool, stamp: string) returns (r: Outcome)
      modifies this
      ensures Conserves(unquote, old(files), files) && OnlyDirs(old(files), files)
      ensures dryRun ==> files == old(files)
      ensures old(files).legacyRoot == None ==> files == old(files) && actions == old(actions)
      ensures r != Stopped && !dryRun && problems == old(problems) ==> files.legacyRoot == None
      ensures RootMoved(old(files), files, stamp)
      ensures problems >= old(problems) && unread == old(unread)
      ensures Used(old(script), script, r == Stopped, DirOperations(old(files))) && (Faultless(old(script)) ==> problems == old(problems))
    {
      hide *;
      ghost var s, most := files, DirOperations(files);
      RootMovedIs(s, s, stamp);
      DirOperationsAre(files);
      ConservesSelf(unquote, s);
      OnlyDirsSelf(s);
      UsedSelf(script);
      UsedNext(script, script, 0, most);
      r := Try();
      if r != Done || files.legacyRoot == None {
        return;
      }
      if dryRun {
        actions := actions + 1;
        return;
      }
      UsedNext(old(script), script, 1, most);
      r := Try();
      if r != Done {
        return;
      }
      ghost var read := script;
      UsedCalm(old(script), read, false, 2);
      if files.newRoot == None {
        r := MoveRoot();
        UsedThen(old(script), read, script, r == Stopped, 2, 2, most);
      } else {
        r := MergeRoot(stamp);
        UsedThen(old(script), read, script, r == Stopped, 2, most - 2, most);
      }
      RootMovedIs(s, files, stamp);
    }

    /** The steps after the exported variables: none of them loses a value. */
    method MigrateFiles(dryRun: bool, stamp: string) returns (r: Outcome)
      modifies this
      ensures Conserves(unquote, old(files), files)
      ensures files.zshrc == old(files).zshrc
      ensures forall n, v :: Elsewhere(files, Provider(n), v) <==> Elsewhere(old(files), Provider(n), v)
      ensures dryRun ==> files == old(files)
      ensures old(files).httpsFile == None && old(files).cloudFile == None && old(files).legacyRoot == None
              ==> files == old(files) && actions == old(actions)
      ensures r != Stopped && !dryRun && problems == old(problems)
              ==> files.httpsFile == None && files.cloudFile == None && files.legacyRoot == None
      ensures r != Stopped && !dryRun ==> problems >= old(problems) + LeftOver(files)
      ensures problems >= old(problems) && unread == old(unread)
      ensures Used(old(script), script, r == Stopped, 8 + DirOperations(old(files)))
      ensures Faultless(old(script)) ==> problems == old(problems)
    {
      hide *;
      ghost var s, first, most := files, script, 8 + DirOperations(files);
      r := MigrateLegacyGitHTTPSCredentials(dryRun);
      UsedLess(first, script, r == Stopped, 4, most);
      OthersOf(s, files, GitHTTPS);
      if r == Stopped {
        return;
      }
      ghost var b, second := files, script;
      UsedCalm(first, second, false, 4);
      r := MigrateLegacyCloudSecretFile(dryRun, stamp);
      ConservesTrans(unquote, s, b, files);
      OthersOf(b, files, CloudSecret);
      UsedThen(first, second, script, r == Stopped, 4, 4, most);
      if r == Stopped {
        return;
      }
      ghost var c, third := files, script;
      UsedCalm(first, third, false, 8);
      SameDirs(s, c);
      r := MigrateCredentialProvisionedGitSSH(dryRun, stamp);
      LeftOverIs(files);
      ConservesTrans(unquote, s, c, files);
      DirsOf(c, files);
      UsedThen(first, third, script, r == Stopped, 8, DirOperations(s), most);
    }

    /** All of it, harness authentication aside. Nothing outside the exports file is ever lost, wherever it stops or fails;
        what the exports file may lose is what running its variables may lose, and the theorems on that say when. */
    method RunMigrateCredentials(dryRun: bool, stamp: string) returns (r: Outcome)
      requires forall n :: n in names ==> IsName(n)
      modifies this
      ensures r != Failed
      ensures Conserves(unquote, old(files).(zshrc := ""), files)
      ensures var p := VariablesRun(unquote, old(files), names, dryRun, stamp, old(script));
              && Conserves(unquote, p.files, files) && files.zshrc == p.files.zshrc
              && (r == Done ==> p.outcome != Stopped)
      ensures Safe(unquote, old(files), names) ==> Conserves(unquote, old(files), files)
      ensures OneEach(unquote, old(files), names)
              ==> Conserves(unquote, old(files), files) || (files.zshrc == "" && old(files).zshrc != "")
      ensures r == Done && !dryRun && Faultless(old(script))
              ==> (Conserves(unquote, old(files), files) <==> OneEach(unquote, old(files), names))
      ensures dryRun ==> files == old(files)
      ensures Quiet(old(files), names) ==> files == old(files) && actions == old(actions)
      ensures r == Done && !dryRun && problems == old(problems) && unread == old(unread) ==> Quiet(files, names)
      ensures r == Done && !dryRun ==> problems >= old(problems) + LeftOver(files)
      ensures Calm(old(script), Operations(old(files), names)) ==> r == Done && unread == old(unread)
      ensures (&& Calm(old(script), Operations(old(files), names))
               && forall n :: n in names && Exported(old(files), n) ==> FirstValue(unquote, old(files), n) != "")
              ==> problems == old(problems)
    {
      ghost var s, first, p := files, script, VariablesRun(unquote, files, names, dryRun, stamp, script);
      hide *;
      NothingToMove(unquote, s, names, dryRun, stamp, script);
      ConservesSelf(unquote, p.files);
      WhatIsLost(unquote, s, names, dryRun, stamp, first, p.files);
      CalmMigration(unquote, s, names, dryRun, stamp, first);
      QuietIs(s, names);
      r := MigrateProviderAPIKeys(dryRun, stamp);
      RunOf(files, script, r, actions - old(actions), problems - old(problems), unread - old(unread));
      if r == Stopped {
        return;
      }
      ghost var mid := script;
      r := MigrateFiles(dryRun, stamp);
      UsedCalm(mid, script, r == Stopped, 8 + DirOperations(p.files));
      WhatIsLost(unquote, s, names, dryRun, stamp, first, files);
      ExportedAlike(p.files, files, names);
      QuietIs(files, names);
      if r == Failed {
        r := Done;
      }
    }
  }

  // ---- what the steps leave, exactly ----------------------------------------------------------------------------

  /** A blank cloud file has nothing to keep. */
  ghost function CloudKept(s: State, stamp: string): State
    requires s.cloudFile.Some?
  {
    if TrimSpace(s.cloudFile.value) == "" then s else Kept(s, CloudSecret, TrimSpace(s.cloudFile.value), stamp)
  }

  /** The store with the merged lines, rewritten only if they are not its own. */
  function LinesMerged(s: State, legacy: string): State {
    var merged := Merge(Stored(s, GitHTTPS), legacy);
    if merged != "" && (GitHTTPS !in s.store || TrimSpace(Stored(s, GitHTTPS)) != TrimSpace(merged)) then
      s.(store := s.store[GitHTTPS := merged + "\n"])
    else s
  }

  function HTTPSKept(s: State): State
    requires s.httpsFile.Some?
  {
    if TrimSpace(s.httpsFile.value) == "" then s else LinesMerged(s, TrimSpace(s.httpsFile.value))
  }

  /** An entry left the legacy root: into the new root if that had none of the name and it is a directory, and else into
      the archive, at the first free path of the stamp. */
  ghost predicate EntryMoved(s: State, t: State, name: string, stamp: string) {
    var legacy, kept := Root(s.legacyRoot), Root(s.newRoot);
    name in legacy
    && if name !in kept && legacy[name].Directory? then
         t == s.(legacyRoot := Some(legacy - {name}), newRoot := Some(kept[name := legacy[name]]))
       else
         exists n: nat :: Slot(name, stamp, n) !in s.dirArchive
           && (forall m: nat :: m < n ==> Slot(name, stamp, m) in s.dirArchive)
           && t == s.(legacyRoot := Some(legacy - {name}), dirArchive := s.dirArchive[Slot(name, stamp, n) := legacy[name]])
  }

  /** Where an entry of the legacy root is: still there, or where it belongs. */
  ghost predicate EntryPlaced(s: State, t: State, name: string, stamp: string) {
    var legacy, kept := Root(s.legacyRoot), Root(s.newRoot);
    name in legacy
    && if name in Root(t.legacyRoot) then Root(t.legacyRoot)[name] == legacy[name] && NotMoved(s, t, name)
       else if name !in kept && legacy[name].Directory? then
         name in Root(t.newRoot) && Root(t.newRoot)[name] == legacy[name]
       else
         exists n: nat :: Slot(name, stamp, n) !in s.dirArchive
           && (forall m: nat :: m < n ==> Slot(name, stamp, m) in s.dirArchive)
           && Slot(name, stamp, n) in t.dirArchive && t.dirArchive[Slot(name, stamp, n)] == legacy[name]
  }

  ghost predicate NotMoved(s: State, t: State, name: string) {
    && (name in Root(t.newRoot) <==> name in Root(s.newRoot))
    && (forall slot: Slot<string> :: slot.base == name ==> (slot in t.dirArchive <==> slot in s.dirArchive))
  }

  /** What the new root and the archive had stays, and what they got came from the legacy root. */
  ghost predicate OnlyFromLegacy(s: State, t: State) {
    && (forall n :: n in Root(s.newRoot) ==> n in Root(t.newRoot) && Root(t.newRoot)[n] == Root(s.newRoot)[n])
    && (forall slot :: slot in s.dirArchive ==> slot in t.dirArchive && t.dirArchive[slot] == s.dirArchive[slot])
    && (forall n ::
          n in Root(t.newRoot) && n !in Root(s.newRoot)
          ==> n in Root(s.legacyRoot) && n !in Root(t.legacyRoot) && Root(t.newRoot)[n] == Root(s.legacyRoot)[n])
    && (forall slot ::
          slot in t.dirArchive && slot !in s.dirArchive
          ==> slot.base in Root(s.legacyRoot) && slot.base !in Root(t.legacyRoot)
              && t.dirArchive[slot] == Root(s.legacyRoot)[slot.base])
  }

  ghost predicate EntriesMoved(s: State, t: State, stamp: string) {
    && (forall n :: n in Root(t.legacyRoot) ==> n in Root(s.legacyRoot))
    && (forall n :: n in Root(s.legacyRoot) ==> EntryPlaced(s, t, n, stamp))
    && OnlyFromLegacy(s, t)
  }

  /** The whole root is moved when there is no new one, and else entry by entry. */
  ghost predicate RootMoved(s: State, t: State, stamp: string) {
    if s.legacyRoot == None then t == s
    else if s.newRoot == None then t == s || t == s.(legacyRoot := None, newRoot := s.legacyRoot)
    else EntriesMoved(s, t, stamp)
  }

  /** How many of the legacy files are still there. */
  function LeftOver(s: State): nat {
    (if s.httpsFile.Some? then 1 else 0) + (if s.cloudFile.Some? then 1 else 0) + (if s.legacyRoot.Some? then 1 else 0)
  }

  lemma LeftOverIs(s: State)
    ensures LeftOver(s) ==
            (if s.httpsFile.Some? then 1 else 0) + (if s.cloudFile.Some? then 1 else 0) + (if s.legacyRoot.Some? then 1 else 0)
  {
  }

  lemma CloudKeptIs(s: State, stamp: string)
    requires s.cloudFile.Some?
    ensures var v := TrimSpace(s.cloudFile.value);
            CloudKept(s, stamp) == if v == "" then s else Kept(s, CloudSecret, v, stamp)
  {
    hide TrimSpace;
    hide Kept;
  }

  lemma LinesMergedIs(s: State, legacy: string)
    ensures var merged := Merge(Stored(s, GitHTTPS), legacy);
            LinesMerged(s, legacy) ==
            if merged != "" && (GitHTTPS !in s.store || TrimSpace(Stored(s, GitHTTPS)) != TrimSpace(merged)) then
              s.(store := s.store[GitHTTPS := merged + "\n"])
            else s
  {
    hide TrimSpace;
    hide Merge;
    hide Stored;
  }

  lemma HTTPSKeptIs(s: State)
    requires s.httpsFile.Some?
    ensures var legacy := TrimSpace(s.httpsFile.value); HTTPSKept(s) == if legacy == "" then s else LinesMerged(s, legacy)
  {
    hide TrimSpace;
    hide LinesMerged;
  }

  lemma KeepFiles(s: State, key: Key, v: string, stamp: string, script: Script)
    requires v != ""
    ensures var r, kept := KeepRun(s, key, v, stamp, script), Kept(s, key, v, stamp);
            if r.outcome == Done then r.files == kept else r.files == s
  {
    hide TrimSpace;
    hide FreeSlot;
  }

  lemma NoneMoved(s: State, stamp: string)
    ensures EntriesMoved(s, s, stamp)
  {
  }

  lemma OneMoreMoved(s: State, t: State, u: State, name: string, stamp: string)
    requires EntriesMoved(s, t, stamp) && EntryMoved(t, u, name, stamp)
    ensures EntriesMoved(s, u, stamp)
    ensures u.legacyRoot == Some(Root(t.legacyRoot) - {name})
  {
    forall n | n in Root(s.legacyRoot)
      ensures EntryPlaced(s, u, n, stamp)
    {
      assert EntryPlaced(s, t, n, stamp);
      if n == name {
        NowPlaced(s, t, u, name, stamp);
      } else {
        StillPlaced(s, t, u, n, name, stamp);
      }
    }
    OneMoreFromLegacy(s, t, u, name, stamp);
  }

  lemma OneMoreFromLegacy(s: State, t: State, u: State, name: string, stamp: string)
    requires OnlyFromLegacy(s, t) && EntryPlaced(s, t, name, stamp) && EntryMoved(t, u, name, stamp)
    requires forall n :: n in Root(t.legacyRoot) ==> n in Root(s.legacyRoot)
    ensures OnlyFromLegacy(s, u)
  {
    var entry := Root(t.legacyRoot)[name];
    var left := Some(Root(t.legacyRoot) - {name});
    assert entry == Root(s.legacyRoot)[name];
    hide OnlyFromLegacy;
    if name !in Root(t.newRoot) && entry.Directory? {
      hide EntryPlaced;
      MovedFromLegacy(s, t, u, name);
    } else {
      var n: nat :| Slot(name, stamp, n) !in t.dirArchive
           && u == t.(legacyRoot := left, dirArchive := t.dirArchive[Slot(name, stamp, n) := entry]);
      hide EntryMoved;
      hide EntryPlaced;
      ArchivedFromLegacy(s, t, u, name, Slot(name, stamp, n));
    }
  }

  lemma MovedFromLegacy(s: State, t: State, u: State, name: string)
    requires OnlyFromLegacy(s, t) && name !in Root(t.newRoot)
    requires name in Root(t.legacyRoot) && name in Root(s.legacyRoot) && Root(t.legacyRoot)[name] == Root(s.legacyRoot)[name]
    requires u == t.(legacyRoot := Some(Root(t.legacyRoot) - {name}),
                     newRoot := Some(Root(t.newRoot)[name := Root(t.legacyRoot)[name]]))
    ensures OnlyFromLegacy(s, u)
  {
  }

  lemma ArchivedFromLegacy(s: State, t: State, u: State, name: string, slot: Slot<string>)
    requires OnlyFromLegacy(s, t) && slot !in t.dirArchive && slot.base == name
    requires name in Root(t.legacyRoot) && name in Root(s.legacyRoot) && Root(t.legacyRoot)[name] == Root(s.legacyRoot)[name]
    requires u == t.(legacyRoot := Some(Root(t.legacyRoot) - {name}),
                     dirArchive := t.dirArchive[slot := Root(t.legacyRoot)[name]])
    ensures OnlyFromLegacy(s, u)
  {
  }

  lemma NowPlaced(s: State, t: State, u: State, name: string, stamp: string)
    requires EntryPlaced(s, t, name, stamp) && EntryMoved(t, u, name, stamp)
    ensures EntryPlaced(s, u, name, stamp)
  {
    assert NotMoved(s, t, name);
    var entry := Root(t.legacyRoot)[name];
    if !(name !in Root(t.newRoot) && entry.Directory?) {
      var n: nat :| Slot(name, stamp, n) !in t.dirArchive
           && (forall m: nat :: m < n ==> Slot(name, stamp, m) in t.dirArchive)
           && u == t.(legacyRoot := Some(Root(t.legacyRoot) - {name}), dirArchive := t.dirArchive[Slot(name, stamp, n) := entry]);
      hide EntryMoved;
      NowArchived(s, t, u, name, stamp, n);
    }
  }

  lemma NowArchived(s: State, t: State, u: State, name: string, stamp: string, n: nat)
    requires NotMoved(s, t, name) && name in Root(s.legacyRoot) && !(name !in Root(s.newRoot) && Root(s.legacyRoot)[name].Directory?)
    requires Slot(name, stamp, n) !in t.dirArchive && (forall m: nat :: m < n ==> Slot(name, stamp, m) in t.dirArchive)
    requires name !in Root(u.legacyRoot) && u.dirArchive == t.dirArchive[Slot(name, stamp, n) := Root(s.legacyRoot)[name]]
    ensures EntryPlaced(s, u, name, stamp)
  {
    assert Slot(name, stamp, n) !in s.dirArchive && forall m: nat :: m < n ==> Slot(name, stamp, m) in s.dirArchive;
  }

  lemma StillPlaced(s: State, t: State, u: State, n: string, name: string, stamp: string)
    requires n != name && EntryPlaced(s, t, n, stamp) && EntryMoved(t, u, name, stamp)
    ensures EntryPlaced(s, u, n, stamp)
  {
    assert n in Root(t.legacyRoot) ==> NotMoved(s, t, n);
  }

  lemma RootGone(s: State, t: State, stamp: string)
    requires EntriesMoved(s, t, stamp) && NoEntries(t)
    ensures EntriesMoved(s, t.(legacyRoot := None), stamp)
  {
    var u := t.(legacyRoot := None);
    forall n | n in Root(s.legacyRoot)
      ensures EntryPlaced(s, u, n, stamp)
    {
      assert EntryPlaced(s, t, n, stamp);
    }
  }

  lemma RootMovedIs(s: State, t: State, stamp: string)
    ensures s.legacyRoot == None && t == s ==> RootMoved(s, t, stamp)
    ensures t == s ==> RootMoved(s, t, stamp)
    ensures s.legacyRoot.Some? && s.newRoot == None && t == s.(legacyRoot := None, newRoot := s.legacyRoot) ==> RootMoved(s, t, stamp)
    ensures s.legacyRoot.Some? && s.newRoot.Some? && EntriesMoved(s, t, stamp) ==> RootMoved(s, t, stamp)
  {
    NoneMoved(s, stamp);
    hide EntriesMoved;
  }

  // ---- lemmas -------------------------------------------------------------------------------------------------

  lemma StoppedIsEmpty(script: Script)
    ensures Answer(script) == Stopped ==> After(script) == []
  {
  }

  lemma RunOf(files: State, script: Script, r: Outcome, actions: int, problems: int, unread: int)
    requires actions >= 0 && problems >= 0 && unread >= 0
    ensures var run := Run(files, script, r, actions, problems, unread);
            && run.files == files && run.script == script && run.outcome == r
            && run.actions == actions && run.problems == problems && run.unread == unread
  {
  }

  lemma QuietIs(s: State, names: seq<string>)
    ensures Quiet(s, names)
            <==> (forall n :: n in names ==> !Exported(s, n)) && s.cloudFile == None && s.httpsFile == None && s.legacyRoot == None
  {
    hide Exported;
  }

  lemma GrowsShape(s: State, t: State)
    requires Grows(s, t)
    ensures t == s.(zshrc := t.zshrc, store := t.store, archive := t.archive)
  {
    hide Elsewhere;
  }

  /** What the exported variables lose is all that a migration loses. */
  lemma WhatIsLost(unquote: Unquote, s: State, names: seq<string>, dryRun: bool, stamp: string, script: Script, t: State)
    requires forall n :: n in names ==> IsName(n)
    requires var a := VariablesRun(unquote, s, names, dryRun, stamp, script).files;
             && Conserves(unquote, a, t) && t.zshrc == a.zshrc
             && forall n, v :: Elsewhere(t, Provider(n), v) <==> Elsewhere(a, Provider(n), v)
    ensures Conserves(unquote, s.(zshrc := ""), t)
    ensures Safe(unquote, s, names) ==> Conserves(unquote, s, t)
    ensures OneEach(unquote, s, names) ==> Conserves(unquote, s, t) || (t.zshrc == "" && s.zshrc != "")
    ensures VariablesRun(unquote, s, names, dryRun, stamp, script).outcome != Stopped && !dryRun && Faultless(script)
            ==> (Conserves(unquote, s, t) <==> OneEach(unquote, s, names))
  {
    var r := VariablesRun(unquote, s, names, dryRun, stamp, script);
    hide *;
    RunLosesOnlyExports(unquote, s, names, dryRun, stamp, script);
    ConservesTrans(unquote, s.(zshrc := ""), r.files, t);
    RunGrows(unquote, s, names, dryRun, stamp, script);
    KeepsIffConserves(unquote, s, r.files, t);
    if Safe(unquote, s, names) {
      SafeRunKeeps(unquote, s, names, names, dryRun, stamp, script);
    }
    if OneEach(unquote, s, names) {
      OneEachKeeps(unquote, s, names, names, dryRun, stamp, script);
    }
    if r.outcome != Stopped && !dryRun && Faultless(script) {
      FaultFreeKeepsIff(unquote, s, names, stamp, script);
    }
  }

  lemma KeepsIffConserves(unquote: Unquote, s: State, a: State, t: State)
    requires Grows(s, a) && Conserves(unquote, a, t) && t.zshrc == a.zshrc
    requires forall n, v :: Elsewhere(t, Provider(n), v) <==> Elsewhere(a, Provider(n), v)
    ensures KeepsValues(unquote, s, a) <==> Conserves(unquote, s, t)
  {
    if KeepsValues(unquote, s, a) {
      KeepsConserves(unquote, s, a);
      hide *;
      ConservesTrans(unquote, s, a, t);
    } else {
      var key, v :| GoodKey(key) && v != "" && Held(unquote, s, key, v) && !Held(unquote, a, key, v);
      hide DirsKept;
      hide LineHeld;
      OnlyExportsLost(unquote, s, a, key, v);
      SameHeld(unquote, a, t, key.name, v);
      hide Held;
    }
  }

  lemma KeepsConserves(unquote: Unquote, s: State, a: State)
    requires Grows(s, a) && KeepsValues(unquote, s, a)
    ensures Conserves(unquote, s, a)
  {
    DirsKeptSelf(s, a);
    hide DirsKept;
    hide Held;
    hide Elsewhere;
    hide Items;
  }

  lemma OnlyExportsLost(unquote: Unquote, s: State, a: State, key: Key, v: string)
    requires Grows(s, a) && v != "" && Held(unquote, s, key, v) && !Held(unquote, a, key, v)
    ensures key.Provider?
  {
    hide Elsewhere;
    hide TrimSpace;
  }

  lemma SameHeld(unquote: Unquote, s: State, t: State, n: string, v: string)
    requires t.zshrc == s.zshrc && (Elsewhere(t, Provider(n), v) <==> Elsewhere(s, Provider(n), v))
    ensures Held(unquote, t, Provider(n), v) <==> Held(unquote, s, Provider(n), v)
  {
    hide Elsewhere;
    hide LineValue;
    hide LinesOf;
  }

  /** Dry runs, runs with nothing exported, and what a run without problems leaves exported. */
  lemma NothingToMove(unquote: Unquote, s: State, names: seq<string>, dryRun: bool, stamp: string, script: Script)
    requires forall n :: n in names ==> IsName(n)
    ensures var r := VariablesRun(unquote, s, names, dryRun, stamp, script);
            && (dryRun ==> r.files == s)
            && ((forall n :: n in names ==> !Exported(s, n)) ==> r.files == s && r.actions == 0 && r.problems == 0)
            && (r.outcome != Stopped && !dryRun && r.problems == 0 && r.unread == 0
                ==> forall n :: n in names ==> !Exported(r.files, n))
            && r.files == s.(zshrc := r.files.zshrc, store := r.files.store, archive := r.files.archive)
  {
    hide *;
    RunGrows(unquote, s, names, dryRun, stamp, script);
    GrowsShape(s, VariablesRun(unquote, s, names, dryRun, stamp, script).files);
    if dryRun {
      DryRun(unquote, s, names, stamp, script);
    } else {
      RunQuiets(unquote, s, names, stamp, script);
    }
    if forall n :: n in names ==> !Exported(s, n) {
      IdleRun(unquote, s, names, dryRun, stamp, script);
    }
  }

  lemma DryVariable(unquote: Unquote, s: State, name: string, stamp: string, script: Script)
    requires Calm(script, 6)
    ensures var r := VariableRun(unquote, s, name, true, stamp, script);
            && r.outcome != Stopped && r.files == s && r.unread == 0 && Calm(r.script, |script| - 6)
            && (!Exported(s, name) || FirstValue(unquote, s, name) != "" ==> r.problems == 0)
  {
    AfterCalm(script);
    AfterCalm(After(script));
    hide MoveRun;
    hide LinesOf;
    hide FirstExport;
    hide FirstValue;
  }

  lemma {:induction false} DryRunFinishes(unquote: Unquote, s: State, names: seq<string>, stamp: string, script: Script)
    requires Calm(script, 6 * |names|)
    ensures var r := VariablesRun(unquote, s, names, true, stamp, script);
            && r.outcome == Done && r.unread == 0 && Calm(r.script, |script| - 6 * |names|)
            && ((forall n :: n in names && Exported(s, n) ==> FirstValue(unquote, s, n) != "") ==> r.problems == 0)
    decreases |names|
  {
    RunCons(unquote, s, names, true, stamp, script);
    hide VariableRun;
    hide VariablesRun;
    hide Exported;
    hide FirstValue;
    if names != [] {
      DryVariable(unquote, s, names[0], stamp, script);
      var one := VariableRun(unquote, s, names[0], true, stamp, script);
      DryRunFinishes(unquote, s, names[1..], stamp, one.script);
    }
  }

  /** With enough working operations ahead the variables are done, and enough are left for the rest. */
  lemma CalmMigration(unquote: Unquote, s: State, names: seq<string>, dryRun: bool, stamp: string, script: Script)
    requires forall n :: n in names ==> IsName(n)
    ensures Calm(script, Operations(s, names)) ==>
              var r := VariablesRun(unquote, s, names, dryRun, stamp, script);
              && r.outcome == Done && r.unread == 0 && Faultless(r.script) && |r.script| >= 8 + DirOperations(r.files)
              && ((forall n :: n in names && Exported(s, n) ==> FirstValue(unquote, s, n) != "") ==> r.problems == 0)
  {
    hide VariablesRun;
    hide Exported;
    hide FirstValue;
    hide Grows;
    if Calm(script, Operations(s, names)) {
      RunGrows(unquote, s, names, dryRun, stamp, script);
      GrowsShape(s, VariablesRun(unquote, s, names, dryRun, stamp, script).files);
      if dryRun {
        DryRunFinishes(unquote, s, names, stamp, script);
      } else {
        CalmRunFinishes(unquote, s, names, stamp, script);
      }
    }
  }

  /** Only `key` may have other values in the store or the archive. */
  ghost predicate OthersAlike(s: State, t: State, key: Key) {
    forall k, v :: k != key ==> (Elsewhere(t, k, v) <==> Elsewhere(s, k, v))
  }

  lemma OthersAlikeSelf(s: State, t: State, key: Key)
    requires t.store == s.store && t.archive == s.archive
    ensures OthersAlike(s, t, key)
  {
    hide Elsewhere;
    forall k, v | k != key
      ensures Elsewhere(t, k, v) <==> Elsewhere(s, k, v)
    {
      SameElsewhere(s, t, k, v);
    }
  }

  lemma OthersAlikeTrans(s: State, t: State, u: State, key: Key)
    requires OthersAlike(s, t, key) && OthersAlike(t, u, key)
    ensures OthersAlike(s, u, key)
  {
    hide Elsewhere;
  }

  lemma OthersAlikeWritten(s: State, text: string)
    ensures OthersAlike(s, s.(store := s.store[GitHTTPS := text]), GitHTTPS)
  {
    hide Elsewhere;
    forall k, v | k != GitHTTPS
      ensures Elsewhere(s.(store := s.store[GitHTTPS := text]), k, v) <==> Elsewhere(s, k, v)
    {
      WrittenOther(s, GitHTTPS, text, k, v);
    }
  }

  lemma OthersOf(s: State, t: State, key: Key)
    requires OthersAlike(s, t, key) && !key.Provider?
    ensures forall n, v :: Elsewhere(t, Provider(n), v) <==> Elsewhere(s, Provider(n), v)
  {
    hide Elsewhere;
  }

  lemma DirsOf(s: State, t: State)
    requires OnlyDirs(s, t)
    ensures t.zshrc == s.zshrc && t.httpsFile == s.httpsFile && t.cloudFile == s.cloudFile
    ensures forall n, v :: Elsewhere(t, Provider(n), v) <==> Elsewhere(s, Provider(n), v)
  {
    hide Elsewhere;
    forall n, v
      ensures Elsewhere(t, Provider(n), v) <==> Elsewhere(s, Provider(n), v)
    {
      SameElsewhere(s, t, Provider(n), v);
    }
  }

  /** Keeping a value of a key loses nothing and, once done, leaves the value in the store or archived. */
  lemma KeepHolds(unquote: Unquote, s: State, key: Key, v: string, stamp: string, script: Script, left: Script, n: int, most: int)
    requires key != GitHTTPS && v != "" && Trimmed(v) && Used(script, left, false, n) && n < most
    ensures var r := KeepRun(s, key, v, stamp, left);
            && r.files == s.(store := r.files.store, archive := r.files.archive)
            && Conserves(unquote, s, r.files) && OthersAlike(s, r.files, key)
            && (r.outcome == Done ==> Elsewhere(r.files, key, v))
            && r.problems == (if r.outcome == Failed then 1 else 0)
            && Used(script, r.script, r.outcome == Stopped, n + 1) && Used(script, r.script, r.outcome == Stopped, most)
            && (Faultless(script) ==> r.outcome != Failed)
  {
    var r := KeepRun(s, key, v, stamp, left);
    UsedNext(script, left, n, most);
    UsedLess(script, left, false, n, n + 1);
    UsedLess(script, left, false, n, most);
    KeepShape(s, key, v, stamp, left);
    KeepCases(s, key, v, stamp, left);
    KeptShape(s, key, v, stamp);
    hide *;
    ConservesSelf(unquote, s);
    OthersAlikeSelf(s, s, key);
    KeptHolds(s, key, v, stamp, key, v);
    KeptConserves(unquote, s, key, v, stamp);
    KeptOthers(s, key, v, stamp);
  }

  lemma KeepCases(s: State, key: Key, v: string, stamp: string, script: Script)
    ensures var r := KeepRun(s, key, v, stamp, script);
            && ((r.script == script && r.outcome == Done) || (r.script == After(script) && r.outcome == Answer(script)))
            && r.problems == if r.outcome == Failed then 1 else 0
  {
    hide Kept;
    hide TrimSpace;
  }

  lemma KeptShape(s: State, key: Key, v: string, stamp: string)
    ensures var t := Kept(s, key, v, stamp); t == s.(store := t.store, archive := t.archive)
  {
    hide TrimSpace;
    hide FreeSlot;
  }

  lemma KeptConserves(unquote: Unquote, s: State, key: Key, v: string, stamp: string)
    requires key != GitHTTPS && v != "" && Trimmed(v)
    ensures Conserves(unquote, s, Kept(s, key, v, stamp))
  {
    ConservesSelf(unquote, s);
    ArchiveConserves(unquote, s, FreeSlot(s.archive.Keys, key, stamp, 0), v + "\n");
    if Free(s, key) {
      FreeIsBlank(s, key);
      WriteConserves(unquote, s, key, v + "\n");
    }
    hide Conserves;
    hide TrimSpace;
    hide FreeSlot;
    hide Free;
  }

  lemma KeptOthers(s: State, key: Key, v: string, stamp: string)
    ensures OthersAlike(s, Kept(s, key, v, stamp), key)
  {
    hide Elsewhere;
    hide Kept;
    forall k, w | k != key
      ensures Elsewhere(Kept(s, key, v, stamp), k, w) <==> Elsewhere(s, k, w)
    {
      OtherKeyKept(s, key, v, stamp, k, w);
    }
  }

  lemma FirstExportAt(lines: seq<string>, i: nat, name: string)
    requires i < |lines|
    ensures FirstExport(lines[i..], name) == if Exports(lines[i], name) then Some(lines[i]) else FirstExport(lines[i + 1..], name)
  {
    hide Exports;
    assert lines[i..][1..] == lines[i + 1..];
  }

  lemma NoLines(name: string)
    ensures FirstExport([], name) == None
  {
  }

  lemma FirstIs(unquote: Unquote, s: State, name: string, line: string)
    requires FirstExport(LinesOf(s.zshrc), name) == Some(line)
    ensures FirstValue(unquote, s, name) == LineValue(unquote, line, name) && Exported(s, name)
  {
    hide LineValue;
    hide LinesOf;
  }

  lemma TrimIsTrimmed(text: string)
    ensures Trimmed(TrimSpace(text))
  {
  }

  lemma DirOperationsAre(s: State)
    ensures DirOperations(s) >= 5
    ensures DirOperations(s) == 5 + EntryOperations(s)
  {
  }

  lemma SameDirs(s: State, t: State)
    requires s.legacyRoot == t.legacyRoot
    ensures DirOperations(s) == DirOperations(t)
  {
  }

  lemma TextOfSome(o: Option<string>)
    ensures o.Some? ==> OptText(o) == o.value
  {
  }

  lemma StoredIs(s: State, text: string)
    requires GitHTTPS in s.store && s.store[GitHTTPS] == text
    ensures Stored(s, GitHTTPS) == text
  {
  }

  lemma UnchangedMerge(hostRaw: string, merged: string, hostExists: bool)
    requires merged == "" || (hostExists && TrimSpace(hostRaw) == TrimSpace(merged))
    requires Items(hostRaw) <= Items(merged)
    ensures Items(merged) == Items(hostRaw)
  {
    if merged == "" {
      BlankHasNoItems("");
    } else {
      ItemsTrim(hostRaw);
      ItemsTrim(merged);
    }
  }

  lemma MergedHolds(unquote: Unquote, s: State, legacy: string)
    ensures var hostRaw, hostExists := Stored(s, GitHTTPS), GitHTTPS in s.store;
            var merged := Merge(hostRaw, legacy);
            if merged != "" && (!hostExists || TrimSpace(hostRaw) != TrimSpace(merged)) then
              var t := s.(store := s.store[GitHTTPS := merged + "\n"]);
              && Conserves(unquote, s, t) && OthersAlike(s, t, GitHTTPS)
              && LinesKept(s, t)
              && LinesStored(legacy, t)
            else LinesStored(legacy, s)
  {
    hide *;
    var hostRaw, hostExists := Stored(s, GitHTTPS), GitHTTPS in s.store;
    var merged := Merge(hostRaw, legacy);
    MergeHolds(hostRaw, legacy);
    if merged != "" && (!hostExists || TrimSpace(hostRaw) != TrimSpace(merged)) {
      var t := s.(store := s.store[GitHTTPS := merged + "\n"]);
      ItemsNewline(merged);
      WriteLinesConserves(unquote, s, merged + "\n");
      OthersAlikeWritten(s, merged + "\n");
      MergedLines(s, t, legacy, merged);
    } else {
      UnchangedMerge(hostRaw, merged, hostExists);
      KeptLines(s, legacy);
    }
  }

  lemma StoredLinesRemove(unquote: Unquote, s: State)
    requires LinesStored(OptText(s.httpsFile), s)
    ensures Conserves(unquote, s, s.(httpsFile := None))
  {
    RemoveLinesConserves(unquote, s);
    hide Conserves;
    hide Items;
  }

  lemma LinesKeptAlike(s: State, t: State)
    requires s.store == t.store
    ensures LinesKept(s, t)
    ensures forall text :: LinesStored(text, s) <==> LinesStored(text, t)
  {
    hide Items;
  }

  lemma LinesKeptTrans(s: State, t: State, u: State)
    requires LinesKept(s, t) && LinesKept(t, u)
    ensures LinesKept(s, u)
  {
    hide Items;
  }

  /** A file's lines are those of its trimmed text. */
  lemma TrimmedLinesStored(text: string, s: State)
    ensures LinesStored(TrimSpace(text), s) <==> LinesStored(text, s)
    ensures TrimSpace(text) == "" ==> LinesStored(text, s)
  {
    ItemsTrim(text);
    if TrimSpace(text) == "" {
      BlankHasNoItems(text);
    }
    hide Items;
    hide TrimSpace;
  }

  lemma MergedLines(s: State, t: State, legacy: string, merged: string)
    requires Items(Stored(s, GitHTTPS)) <= Items(merged) && GitHTTPS in t.store && t.store[GitHTTPS] == merged + "\n"
    requires forall l :: l in Items(legacy) ==> l in Items(merged)
    ensures LinesKept(s, t) && LinesStored(legacy, t)
  {
    ItemsNewline(merged);
    StoredIs(t, merged + "\n");
    hide Items;
    hide Stored;
  }

  lemma KeptLines(s: State, legacy: string)
    requires forall l :: l in Items(legacy) ==> l in Items(Stored(s, GitHTTPS))
    ensures LinesStored(legacy, s)
  {
  }

  lemma OnlyDirsSelf(s: State)
    ensures OnlyDirs(s, s)
  {
  }

  lemma OnlyDirsTrans(s: State, t: State, u: State)
    requires OnlyDirs(s, t) && OnlyDirs(t, u)
    ensures OnlyDirs(s, u)
  {
  }

  lemma ExportedAlike(s: State, t: State, names: seq<string>)
    requires t.zshrc == s.zshrc
    ensures forall n :: n in names ==> (Exported(s, n) <==> Exported(t, n))
  {
  }
}
