/** The migration of exported variables as a function of the answers its file operations get, and what it may lose. */
module MigrationRuns {
  import opened Wrappers
  import opened Text
  import opened Faults
  import opened Migration

  /** `problems` counts errors and warnings, `unread` the failed reads of the exports file, which are not reported. */
  datatype Run = Run(files: State, script: Script, outcome: Outcome, actions: nat, problems: nat, unread: nat)

  /** The first conflict path at or after number `n` that is not taken. */
  ghost function FreeSlot<K(!new)>(taken: set<Slot<K>>, base: K, stamp: string, n: nat): (slot: Slot<K>)
    ensures slot !in taken && slot.base == base
    decreases TakenFrom(taken, base, stamp, n)
  {
    if Slot(base, stamp, n) in taken then
      assert Slot(base, stamp, n) in TakenFrom(taken, base, stamp, n);
      assert Slot(base, stamp, n) !in TakenFrom(taken, base, stamp, n + 1);
      FreeSlot(taken, base, stamp, n + 1)
    else Slot(base, stamp, n)
  }

  lemma FreeSlotIsFirst<K(!new)>(taken: set<Slot<K>>, base: K, stamp: string, n: nat, k: nat)
    requires n <= k && Slot(base, stamp, k) !in taken
    requires forall m: nat :: n <= m < k ==> Slot(base, stamp, m) in taken
    ensures FreeSlot(taken, base, stamp, n) == Slot(base, stamp, k)
    decreases k - n
  {
    if n < k {
      FreeSlotIsFirst(taken, base, stamp, n + 1, k);
    }
  }

  /** A blank provider file is written over; a blank cloud file counts as another value. */
  predicate Free(s: State, key: Key) {
    if key == CloudSecret then key !in s.store else TrimSpace(Stored(s, key)) == ""
  }

  /** The value is in the store or, when the store has another one, archived at a fresh path. */
  ghost function Kept(s: State, key: Key, v: string, stamp: string): State {
    if Free(s, key) then s.(store := s.store[key := v + "\n"])
    else if TrimSpace(Stored(s, key)) == v then s
    else s.(archive := s.archive[FreeSlot(s.archive.Keys, key, stamp, 0) := v + "\n"])
  }

  ghost function KeepRun(s: State, key: Key, v: string, stamp: string, script: Script): Run {
    if !Free(s, key) && TrimSpace(Stored(s, key)) == v then Run(s, script, Done, 0, 0, 0)
    else
      match Answer(script)
      case Stopped => Run(s, [], Stopped, 0, 0, 0)
      case Failed => Run(s, After(script), Failed, 0, 1, 0)
      case Done => Run(Kept(s, key, v, stamp), After(script), Done, 0, 0, 0)
  }

  /** `updateAgentFile`: the exports file is read, emptied on opening, and written. An unreadable file reads as empty. */
  function RewriteRun(s: State, name: string, script: Script): Run {
    if script == [] then Run(s, [], Stopped, 0, 0, 0)
    else
      var updated := Rewrite(if Answer(script) == Done then s.zshrc else "", name);
      var opening := After(script);
      match Answer(opening)
      case Stopped => Run(s, [], Stopped, 0, 0, 0)
      case Failed => Run(s, After(opening), Failed, 0, 1, 0)
      case Done =>
        match Answer(After(opening))
        case Stopped => Run(s.(zshrc := ""), [], Stopped, 0, 0, 0)
        case Failed => Run(s.(zshrc := ""), After(After(opening)), Failed, 0, 1, 0)
        case Done => Run(s.(zshrc := updated), After(After(opening)), Done, 0, 0, 0)
  }

  ghost function MoveRun(s: State, name: string, v: string, stamp: string, script: Script): Run {
    var kept := KeepRun(s, Provider(name), v, stamp, script);
    if kept.outcome != Done then kept
    else
      var moved := RewriteRun(kept.files, name, kept.script);
      moved.(actions := if moved.outcome == Done then 1 else 0)
  }

  ghost function VariableRun(unquote: Unquote, s: State, name: string, dryRun: bool, stamp: string, script: Script): Run {
    match Answer(script)
    case Stopped => Run(s, [], Stopped, 0, 0, 0)
    case Failed => Run(s, After(script), Done, 0, 0, 1)
    case Done =>
      if FirstExport(LinesOf(s.zshrc), name) == None then Run(s, After(script), Done, 0, 0, 0)
      else ExportedRun(unquote, s, name, dryRun, stamp, After(script))
  }

  /** A variable that is exported: the stored value is read before the line is parsed. */
  ghost function ExportedRun(unquote: Unquote, s: State, name: string, dryRun: bool, stamp: string, script: Script): Run {
    var v := FirstValue(unquote, s, name);
    match Answer(script)
    case Stopped => Run(s, [], Stopped, 0, 0, 0)
    case Failed => Run(s, After(script), Failed, 0, 1, 0)
    case Done =>
      if v == "" then Run(s, After(script), Failed, 0, 1, 0)
      else if dryRun then Run(s, After(script), Done, 1, 0, 0)
      else MoveRun(s, name, v, stamp, After(script))
  }

  function Ahead(r: Run, actions: nat, problems: nat, unread: nat): Run {
    r.(actions := actions + r.actions, problems := problems + r.problems, unread := unread + r.unread)
  }

  /** All variables, one after the other; only a stop ends the loop. */
  ghost function VariablesRun(unquote: Unquote, s: State, names: seq<string>, dryRun: bool, stamp: string, script: Script): Run
    decreases |names|
  {
    if names == [] then Run(s, script, Done, 0, 0, 0)
    else
      var one := VariableRun(unquote, s, names[0], dryRun, stamp, script);
      if one.outcome == Stopped then one
      else Ahead(VariablesRun(unquote, one.files, names[1..], dryRun, stamp, one.script), one.actions, one.problems, one.unread)
  }

  // ---- nothing outside the exports file is ever lost ----------------------------------------------------------

  /** Only the exports file, the store and the archive change, and the latter two keep every value they held. */
  ghost predicate Grows(s: State, t: State) {
    && t == s.(zshrc := t.zshrc, store := t.store, archive := t.archive)
    && Stored(t, GitHTTPS) == Stored(s, GitHTTPS)
    && forall key, v :: v != "" && Elsewhere(s, key, v) ==> Elsewhere(t, key, v)
  }

  lemma GrowsTrans(s: State, t: State, u: State)
    requires Grows(s, t) && Grows(t, u)
    ensures Grows(s, u)
  {
    hide Elsewhere;
    hide Stored;
  }

  lemma ExportsChangeGrows(s: State, zshrc: string)
    ensures Grows(s, s.(zshrc := zshrc))
  {
    hide TrimSpace;
    var t := s.(zshrc := zshrc);
    forall key, v | v != "" && Elsewhere(s, key, v)
      ensures Elsewhere(t, key, v)
    {
    }
  }

  lemma FreeIsBlank(s: State, key: Key)
    requires Free(s, key)
    ensures TrimSpace(Stored(s, key)) == ""
  {
    TrimTrimmed("");
  }

  /** After keeping a value, its key's values are that one and those held before; other keys are as they were. */
  lemma KeptHolds(s: State, key: Key, v: string, stamp: string, k: Key, w: string)
    requires v != "" && Trimmed(v) && w != ""
    ensures Elsewhere(Kept(s, key, v, stamp), k, w) <==> (k == key && w == v) || Elsewhere(s, k, w)
  {
    TrimmedWithNewline(v);
    TrimTrimmed("");
    hide TrimSpace;
    var slot := FreeSlot(s.archive.Keys, key, stamp, 0);
    if k == key {
      if Free(s, key) {
        WrittenElsewhere(s, key, v + "\n", w);
      } else if TrimSpace(Stored(s, key)) != v {
        ArchivedElsewhere(s, key, slot, v + "\n", w);
      }
    } else {
      OtherKeyKept(s, key, v, stamp, k, w);
    }
  }

  lemma ArchivedOther(s: State, slot: Slot<Key>, text: string, k: Key, w: string)
    requires slot !in s.archive && slot.base != k
    ensures Elsewhere(s.(archive := s.archive[slot := text]), k, w) <==> Elsewhere(s, k, w)
  {
    hide TrimSpace;
    var t := s.(archive := s.archive[slot := text]);
    forall x: Slot<Key>
      ensures x in t.archive && x.base == k && TrimSpace(t.archive[x]) == w
              <==> x in s.archive && x.base == k && TrimSpace(s.archive[x]) == w
    {
    }
  }

  lemma WrittenOther(s: State, key: Key, text: string, k: Key, w: string)
    requires k != key
    ensures Elsewhere(s.(store := s.store[key := text]), k, w) <==> Elsewhere(s, k, w)
  {
    hide TrimSpace;
  }

  lemma OtherKeyKept(s: State, key: Key, v: string, stamp: string, k: Key, w: string)
    requires k != key
    ensures Elsewhere(Kept(s, key, v, stamp), k, w) <==> Elsewhere(s, k, w)
  {
    hide TrimSpace;
    hide Elsewhere;
    hide FreeSlot;
    if Free(s, key) {
      WrittenOther(s, key, v + "\n", k, w);
    } else if TrimSpace(Stored(s, key)) != v {
      ArchivedOther(s, FreeSlot(s.archive.Keys, key, stamp, 0), v + "\n", k, w);
    }
  }

  lemma KeptGrows(s: State, key: Key, v: string, stamp: string)
    requires v != "" && Trimmed(v) && key != GitHTTPS
    ensures Grows(s, Kept(s, key, v, stamp)) && Kept(s, key, v, stamp).zshrc == s.zshrc
  {
    hide TrimSpace;
    hide Elsewhere;
    forall k, w | w != "" && Elsewhere(s, k, w)
      ensures Elsewhere(Kept(s, key, v, stamp), k, w)
    {
      KeptHolds(s, key, v, stamp, k, w);
    }
  }

  /** What a grown state still has of a state whose exports are set aside. */
  lemma GrowsConserves(unquote: Unquote, s: State, t: State)
    requires Grows(s, t)
    ensures Conserves(unquote, s.(zshrc := ""), t)
  {
    var e := s.(zshrc := "");
    DirsKeptSelf(e, t);
    hide DirsKept;
    assert Stored(e, GitHTTPS) == Stored(s, GitHTTPS);
    forall key, v | GoodKey(key) && v != "" && Held(unquote, e, key, v)
      ensures Held(unquote, t, key, v)
    {
      EmptyFileHolds(unquote, s, key, v);
      hide Elsewhere;
    }
  }

  lemma {:induction false} VariableGrows(unquote: Unquote, s: State, name: string, dryRun: bool, stamp: string, script: Script)
    ensures Grows(s, VariableRun(unquote, s, name, dryRun, stamp, script).files)
  {
    var v := FirstValue(unquote, s, name);
    FirstValueTrimmed(unquote, s, name);
    ExportsChangeGrows(s, s.zshrc);
    hide Grows;
    hide FirstValue;
    hide LinesOf;
    hide Kept;
    hide Rewrite;
    hide Free;
    hide TrimSpace;
    if v != "" {
      KeptGrows(s, Provider(name), v, stamp);
      MoveGrows(s, name, v, stamp, After(After(script)));
    }
  }

  lemma KeepShape(s: State, key: Key, v: string, stamp: string, script: Script)
    ensures var r := KeepRun(s, key, v, stamp, script);
            && (r.files == s || r.files == Kept(s, key, v, stamp))
            && (r.outcome == Done ==> r.files == Kept(s, key, v, stamp))
  {
    hide TrimSpace;
    hide FreeSlot;
  }

  lemma RewriteShape(s: State, name: string, script: Script)
    ensures var r := RewriteRun(s, name, script);
            && r.files == s.(zshrc := r.files.zshrc) && FewerExports(s, r.files, name)
            && (r.outcome == Done ==> r.files.zshrc == Rewrite(s.zshrc, name) || r.files.zshrc == "")
            && (r.outcome == Done && Faultless(script) ==> r.files.zshrc == Rewrite(s.zshrc, name))
  {
    RewriteOfNothing(name);
    hide Rewrite;
  }

  /** Moving a variable ends where it began, with the value kept, or with the value kept and fewer exports. */
  lemma MoveShape(s: State, name: string, v: string, stamp: string, script: Script)
    ensures var r, kept := MoveRun(s, name, v, stamp, script), Kept(s, Provider(name), v, stamp);
            && (r.files == s || (r.files == kept.(zshrc := r.files.zshrc) && FewerExports(kept, r.files, name)))
            && (r.outcome == Done ==>
                  && r.files == kept.(zshrc := r.files.zshrc)
                  && (r.files.zshrc == Rewrite(kept.zshrc, name) || r.files.zshrc == ""))
            && (r.outcome == Done && Faultless(script) ==> r.files.zshrc == Rewrite(kept.zshrc, name))
  {
    KeepShape(s, Provider(name), v, stamp, script);
    var kept := KeepRun(s, Provider(name), v, stamp, script);
    KeepLeaves(s, Provider(name), v, stamp, script);
    RewriteShape(kept.files, name, kept.script);
    hide RewriteRun;
    hide KeepRun;
    hide Kept;
    hide Rewrite;
    assert kept.files == kept.files.(zshrc := kept.files.zshrc);
  }

  lemma KeepLeaves(s: State, key: Key, v: string, stamp: string, script: Script)
    ensures Faultless(script) ==> Faultless(KeepRun(s, key, v, stamp, script).script)
  {
    hide TrimSpace;
    hide Kept;
  }

  lemma MoveGrows(s: State, name: string, v: string, stamp: string, script: Script)
    requires v != "" && Trimmed(v)
    ensures Grows(s, MoveRun(s, name, v, stamp, script).files)
  {
    var kept := Kept(s, Provider(name), v, stamp);
    var moved := MoveRun(s, name, v, stamp, script).files;
    MoveShape(s, name, v, stamp, script);
    KeptGrows(s, Provider(name), v, stamp);
    ExportsChangeGrows(s, s.zshrc);
    ExportsChangeGrows(kept, moved.zshrc);
    hide Grows;
    hide Kept;
    hide MoveRun;
    if moved != s {
      GrowsTrans(s, kept, moved);
    }
  }

  lemma {:induction false} RunGrows(unquote: Unquote, s: State, names: seq<string>, dryRun: bool, stamp: string, script: Script)
    ensures Grows(s, VariablesRun(unquote, s, names, dryRun, stamp, script).files)
    decreases |names|
  {
    ExportsChangeGrows(s, s.zshrc);
    hide Grows;
    hide VariableRun;
    if names != [] {
      var one := VariableRun(unquote, s, names[0], dryRun, stamp, script);
      VariableGrows(unquote, s, names[0], dryRun, stamp, script);
      if one.outcome != Stopped {
        RunGrows(unquote, one.files, names[1..], dryRun, stamp, one.script);
        GrowsTrans(s, one.files, VariablesRun(unquote, one.files, names[1..], dryRun, stamp, one.script).files);
      }
    }
  }

  /** Whatever fails and wherever the run stops, only values that nothing but the exports file held can be lost. */
  lemma RunLosesOnlyExports(unquote: Unquote, s: State, names: seq<string>, dryRun: bool, stamp: string, script: Script)
    ensures Conserves(unquote, s.(zshrc := ""), VariablesRun(unquote, s, names, dryRun, stamp, script).files)
  {
    RunGrows(unquote, s, names, dryRun, stamp, script);
    hide *;
    GrowsConserves(unquote, s, VariablesRun(unquote, s, names, dryRun, stamp, script).files);
  }

  // ---- exactly when a run can lose an exported value ----------------------------------------------------------

  /** Everything exported, by whatever variable, is in the store or archived, but for the first value of `name`. */
  ghost predicate CoveredBut(unquote: Unquote, s: State, name: string) {
    forall m, l :: IsName(m) && l in LinesOf(s.zshrc) && LineValue(unquote, l, m) != "" ==>
      Elsewhere(s, Provider(m), LineValue(unquote, l, m))
      || (m == name && LineValue(unquote, l, m) == FirstValue(unquote, s, name))
  }

  /** Each variable the run may move is the only one with a value of its own in the exports file. */
  ghost predicate Safe(unquote: Unquote, s: State, names: seq<string>) {
    forall n :: n in names && FirstValue(unquote, s, n) != "" ==> CoveredBut(unquote, s, n)
  }

  /** Every value of `s` is still held. */
  ghost predicate KeepsValues(unquote: Unquote, s: State, t: State) {
    forall key, v :: GoodKey(key) && v != "" && Held(unquote, s, key, v) ==> Held(unquote, t, key, v)
  }

  /** `t` has the exports of `s`, or those of one variable fewer, or none. */
  predicate FewerExports(s: State, t: State, name: string) {
    t.zshrc == s.zshrc || t.zshrc == Rewrite(s.zshrc, name) || t.zshrc == ""
  }

  predicate Exported(s: State, name: string) {
    FirstExport(LinesOf(s.zshrc), name).Some?
  }

  lemma NothingIsExported(unquote: Unquote, s: State, name: string)
    requires !Exported(s, name)
    ensures FirstValue(unquote, s, name) == ""
    ensures forall l :: l in LinesOf(s.zshrc) ==> !Exports(l, name) && LineValue(unquote, l, name) == ""
  {
    FirstExportHolds(LinesOf(s.zshrc), name);
    hide LinesOf;
    hide Exports;
    forall l | l in LinesOf(s.zshrc)
      ensures LineValue(unquote, l, name) == ""
    {
      assert !Exports(l, name);
    }
  }

  lemma EmptyIsQuiet(s: State, name: string)
    ensures s.zshrc == "" ==> !Exported(s, name)
  {
    assert Split("", '\n') == [""];
    NothingExported(name);
    FirstExportHolds([""], name);
    hide Exports;
  }

  lemma RewriteOfNothing(name: string)
    ensures Rewrite("", name) == ""
  {
    assert LinesOf("") == [""];
    NothingExported(name);
    assert [""][1..] == [];
    assert WithoutExports([""], name) == [""];
  }

  lemma RewriteQuiets(s: State, name: string)
    ensures !Exported(s.(zshrc := Rewrite(s.zshrc, name)), name)
  {
    hide LinesOf;
    hide Rewrite;
    var lines := LinesOf(Rewrite(s.zshrc, name));
    FirstExportHolds(lines, name);
    if FirstExport(lines, name).Some? {
      RewriteLines(s.zshrc, name, FirstExport(lines, name).value, name);
    }
  }

  lemma {:induction false} FirstOfKept(lines: seq<string>, name: string, m: string)
    requires IsName(name) && IsName(m) && m != name
    ensures FirstExport(WithoutExports(lines, name), m) == FirstExport(lines, m)
  {
    hide Exports;
    if lines != [] {
      FirstOfKept(lines[1..], name, m);
      if Exports(lines[0], name) && Exports(lines[0], m) {
        OneExport(lines[0], name, m);
      }
      var rest := WithoutExports(lines[1..], name);
      assert [] + rest == rest;
      assert ([lines[0]] + rest)[1..] == rest;
    }
  }

  lemma OthersKeepFirst(zshrc: string, name: string, m: string)
    requires IsName(name) && IsName(m) && m != name
    ensures FirstExport(LinesOf(Rewrite(zshrc, name)), m) == FirstExport(LinesOf(zshrc), m)
  {
    var lines := LinesOf(zshrc);
    var kept := WithoutExports(lines, name);
    FirstOfKept(lines, name, m);
    WithoutExportsHolds(lines, name);
    NothingExported(m);
    hide Exports;
    if kept == [] {
      assert Split("", '\n') == [""];
      assert FirstExport([""], m) == None;
    } else {
      forall i | 0 <= i < |kept|
        ensures '\n' !in kept[i]
      {
        assert kept[i] in kept;
      }
      SplitJoin(kept, '\n');
      assert ['\n'] == "\n";
    }
  }

  lemma ValueIsExported(unquote: Unquote, line: string, name: string)
    requires LineValue(unquote, line, name) != ""
    ensures Exports(line, name)
  {
  }

  /** With fewer exports, every exported value was exported before, and a first value is the first one of before. */
  lemma FewerValues(unquote: Unquote, s: State, t: State, name: string, m: string)
    requires IsName(name) && IsName(m) && FewerExports(s, t, name)
    ensures forall l :: l in LinesOf(t.zshrc) && LineValue(unquote, l, m) != "" ==> l in LinesOf(s.zshrc)
    ensures FirstValue(unquote, t, m) != "" ==> FirstValue(unquote, t, m) == FirstValue(unquote, s, m)
    ensures !Exported(s, m) ==> !Exported(t, m)
  {
    EmptyIsQuiet(t, m);
    hide LineValue;
    hide LinesOf;
    hide Rewrite;
    if t.zshrc == "" {
      NothingIsExported(unquote, t, m);
    } else if t.zshrc != s.zshrc {
      if m == name {
        RewriteQuiets(s, name);
        NothingIsExported(unquote, t, m);
      } else {
        OthersKeepFirst(s.zshrc, name, m);
      }
      forall l | l in LinesOf(t.zshrc) && LineValue(unquote, l, m) != ""
        ensures l in LinesOf(s.zshrc)
      {
        ValueIsExported(unquote, l, m);
        RewriteLines(s.zshrc, name, l, m);
      }
    }
  }

  /** A run of one variable: nothing has changed, or its value has been kept and there may be fewer exports. */
  lemma VariableShape(unquote: Unquote, s: State, name: string, dryRun: bool, stamp: string, script: Script)
    ensures var r, v := VariableRun(unquote, s, name, dryRun, stamp, script), FirstValue(unquote, s, name);
            var kept := Kept(s, Provider(name), v, stamp);
            && (dryRun || v == "" ==> r.files == s)
            && (r.files == s || (v != "" && r.files == kept.(zshrc := r.files.zshrc) && FewerExports(kept, r.files, name)))
            && kept.zshrc == s.zshrc
  {
    ExportedShape(unquote, s, name, dryRun, stamp, After(script));
    hide LinesOf;
    hide FirstExport;
    hide FirstValue;
    hide ExportedRun;
    hide Kept;
  }

  lemma ExportedShape(unquote: Unquote, s: State, name: string, dryRun: bool, stamp: string, script: Script)
    ensures var r, v := ExportedRun(unquote, s, name, dryRun, stamp, script), FirstValue(unquote, s, name);
            var kept := Kept(s, Provider(name), v, stamp);
            && (dryRun || v == "" ==> r.files == s)
            && (r.files == s || (v != "" && r.files == kept.(zshrc := r.files.zshrc) && FewerExports(kept, r.files, name)))
            && kept.zshrc == s.zshrc
  {
    MoveShape(s, name, FirstValue(unquote, s, name), stamp, After(script));
    KeptSameExports(s, Provider(name), FirstValue(unquote, s, name), stamp);
    hide FirstValue;
    hide MoveRun;
    hide Kept;
    hide FewerExports;
  }

  /** The equations of one variable's run. */
  lemma VariableRunIs(unquote: Unquote, s: State, name: string, dryRun: bool, stamp: string, script: Script)
    ensures VariableRun(unquote, s, name, dryRun, stamp, script) ==
            match Answer(script)
            case Stopped => Run(s, [], Stopped, 0, 0, 0)
            case Failed => Run(s, After(script), Done, 0, 0, 1)
            case Done =>
              if FirstExport(LinesOf(s.zshrc), name) == None then Run(s, After(script), Done, 0, 0, 0)
              else
                match Answer(After(script))
                case Stopped => Run(s, [], Stopped, 0, 0, 0)
                case Failed => Run(s, After(After(script)), Failed, 0, 1, 0)
                case Done =>
                  if FirstValue(unquote, s, name) == "" then Run(s, After(After(script)), Failed, 0, 1, 0)
                  else if dryRun then Run(s, After(After(script)), Done, 1, 0, 0)
                  else MoveRun(s, name, FirstValue(unquote, s, name), stamp, After(After(script)))
  {
    hide LinesOf;
    hide FirstExport;
    hide FirstValue;
    hide MoveRun;
  }

  // ---- enough: a covered run keeps every value ----------------------------------------------------------------

  lemma GrowsKeeps(unquote: Unquote, s: State, t: State)
    requires Grows(s, t) && t.zshrc == s.zshrc
    ensures KeepsValues(unquote, s, t)
  {
    hide Elsewhere;
    hide LinesOf;
    hide LineValue;
  }

  lemma KeepsTrans(unquote: Unquote, s: State, t: State, u: State)
    requires KeepsValues(unquote, s, t) && KeepsValues(unquote, t, u)
    ensures KeepsValues(unquote, s, u)
  {
    hide Held;
  }

  lemma RemovedKeeps(unquote: Unquote, s: State, name: string)
    requires IsName(name) && ExportsCovered(unquote, s, name)
    ensures KeepsValues(unquote, s, s.(zshrc := Rewrite(s.zshrc, name)))
  {
    RemoveExportsIff(unquote, s, name);
    hide Held;
    hide ExportsCovered;
    hide Rewrite;
  }

  lemma EmptiedKeeps(unquote: Unquote, s: State)
    requires forall m :: IsName(m) ==> ExportsCovered(unquote, s, m)
    ensures KeepsValues(unquote, s, s.(zshrc := ""))
  {
    EmptiedFileIff(unquote, s);
    hide Held;
    hide ExportsCovered;
  }

  /** Once the first value of `name` is kept, all of its values are covered if the others were. */
  lemma KeptCovers(unquote: Unquote, s: State, name: string, stamp: string)
    requires FirstValue(unquote, s, name) != "" && OnlyFirstIsNew(unquote, s, name)
    ensures ExportsCovered(unquote, Kept(s, Provider(name), FirstValue(unquote, s, name), stamp), name)
  {
    var v := FirstValue(unquote, s, name);
    var t := Kept(s, Provider(name), v, stamp);
    FirstValueTrimmed(unquote, s, name);
    KeptGrows(s, Provider(name), v, stamp);
    hide Kept;
    hide FirstValue;
    hide LineValue;
    hide LinesOf;
    hide Elsewhere;
    hide Grows;
    forall l | l in LinesOf(t.zshrc) && LineValue(unquote, l, name) != ""
      ensures Elsewhere(t, Provider(name), LineValue(unquote, l, name))
    {
      KeptHolds(s, Provider(name), v, stamp, Provider(name), LineValue(unquote, l, name));
    }
  }

  lemma KeptCoversAll(unquote: Unquote, s: State, name: string, stamp: string, m: string)
    requires FirstValue(unquote, s, name) != "" && CoveredBut(unquote, s, name) && IsName(m)
    ensures ExportsCovered(unquote, Kept(s, Provider(name), FirstValue(unquote, s, name), stamp), m)
  {
    var v := FirstValue(unquote, s, name);
    var t := Kept(s, Provider(name), v, stamp);
    FirstValueTrimmed(unquote, s, name);
    KeptGrows(s, Provider(name), v, stamp);
    hide Kept;
    hide FirstValue;
    hide LineValue;
    hide LinesOf;
    hide Elsewhere;
    hide Grows;
    forall l | l in LinesOf(t.zshrc) && LineValue(unquote, l, m) != ""
      ensures Elsewhere(t, Provider(m), LineValue(unquote, l, m))
    {
      KeptHolds(s, Provider(name), v, stamp, Provider(m), LineValue(unquote, l, m));
    }
  }

  lemma CoveredIsNew(unquote: Unquote, s: State, name: string)
    requires CoveredBut(unquote, s, name) && IsName(name)
    ensures OnlyFirstIsNew(unquote, s, name)
  {
    hide LineValue;
    hide LinesOf;
    hide Elsewhere;
    hide FirstValue;
  }

  /** One variable loses nothing if only its first value is new, unless the file is left empty; and if everything else
      that is exported is covered, not even then. */
  lemma VariableKeeps(unquote: Unquote, s: State, name: string, dryRun: bool, stamp: string, script: Script)
    requires IsName(name) && (FirstValue(unquote, s, name) != "" ==> OnlyFirstIsNew(unquote, s, name))
    ensures var t := VariableRun(unquote, s, name, dryRun, stamp, script).files;
            && (KeepsValues(unquote, s, t) || (t.zshrc == "" && s.zshrc != ""))
            && (CoveredBut(unquote, s, name) ==> KeepsValues(unquote, s, t))
  {
    var v := FirstValue(unquote, s, name);
    var t := VariableRun(unquote, s, name, dryRun, stamp, script).files;
    var kept := Kept(s, Provider(name), v, stamp);
    VariableShape(unquote, s, name, dryRun, stamp, script);
    ExportsChangeGrows(s, s.zshrc);
    hide *;
    GrowsKeeps(unquote, s, s);
    if t != s {
      FirstValueTrimmed(unquote, s, name);
      KeptGrows(s, Provider(name), v, stamp);
      GrowsKeeps(unquote, s, kept);
      KeptCovers(unquote, s, name, stamp);
      RemovedKeeps(unquote, kept, name);
      if CoveredBut(unquote, s, name) {
        forall m | IsName(m)
          ensures ExportsCovered(unquote, kept, m)
        {
          KeptCoversAll(unquote, s, name, stamp, m);
        }
        EmptiedKeeps(unquote, kept);
      }
      FewerCases(kept, t, name);
      if KeepsValues(unquote, kept, t) {
        KeepsTrans(unquote, s, kept, t);
      }
    }
  }

  lemma FewerCases(s: State, t: State, name: string)
    requires FewerExports(s, t, name) && t == s.(zshrc := t.zshrc)
    ensures t == s || t == s.(zshrc := Rewrite(s.zshrc, name)) || t == s.(zshrc := "")
  {
  }

  lemma VariableFewer(unquote: Unquote, s: State, name: string, dryRun: bool, stamp: string, script: Script)
    ensures FewerExports(s, VariableRun(unquote, s, name, dryRun, stamp, script).files, name)
  {
    VariableShape(unquote, s, name, dryRun, stamp, script);
    hide VariableRun;
    hide Rewrite;
    hide Kept;
  }

  lemma CoveredStays(unquote: Unquote, s: State, t: State, name: string, n: string)
    requires IsName(name) && IsName(n) && Grows(s, t) && FewerExports(s, t, name)
    requires CoveredBut(unquote, s, n) && FirstValue(unquote, t, n) != ""
    ensures CoveredBut(unquote, t, n)
  {
    hide FewerExports;
    FewerValues(unquote, s, t, name, n);
    hide LineValue;
    hide LinesOf;
    hide Elsewhere;
    hide FirstValue;
    forall m, l | IsName(m) && l in LinesOf(t.zshrc) && LineValue(unquote, l, m) != ""
      ensures Elsewhere(t, Provider(m), LineValue(unquote, l, m))
              || (m == n && LineValue(unquote, l, m) == FirstValue(unquote, t, n))
    {
      FewerValues(unquote, s, t, name, m);
    }
  }

  lemma SafeStays(unquote: Unquote, s: State, t: State, name: string, names: seq<string>)
    requires IsName(name) && (forall n :: n in names ==> IsName(n)) && Grows(s, t) && FewerExports(s, t, name)
    requires Safe(unquote, s, names)
    ensures Safe(unquote, t, names)
  {
    hide FewerExports;
    hide Grows;
    hide FirstValue;
    hide CoveredBut;
    forall n | n in names && FirstValue(unquote, t, n) != ""
      ensures CoveredBut(unquote, t, n)
    {
      FewerValues(unquote, s, t, name, n);
      CoveredStays(unquote, s, t, name, n);
    }
  }

  lemma VariableSafe(unquote: Unquote, s: State, name: string, names: seq<string>, dryRun: bool, stamp: string, script: Script)
    requires name in names && (forall n :: n in names ==> IsName(n)) && Safe(unquote, s, names)
    ensures var t := VariableRun(unquote, s, name, dryRun, stamp, script).files;
            KeepsValues(unquote, s, t) && Safe(unquote, t, names)
  {
    VariableShape(unquote, s, name, dryRun, stamp, script);
    assert FirstValue(unquote, s, name) != "" ==> CoveredBut(unquote, s, name);
    hide *;
    if FirstValue(unquote, s, name) != "" {
      CoveredIsNew(unquote, s, name);
    }
    var t := VariableRun(unquote, s, name, dryRun, stamp, script).files;
    VariableKeeps(unquote, s, name, dryRun, stamp, script);
    KeepsSelf(unquote, s);
    VariableGrows(unquote, s, name, dryRun, stamp, script);
    VariableFewer(unquote, s, name, dryRun, stamp, script);
    SafeStays(unquote, s, t, name, names);
  }

  lemma KeepsSelf(unquote: Unquote, s: State)
    ensures KeepsValues(unquote, s, s)
  {
  }

  lemma {:induction false} SafeRunKeeps(unquote: Unquote, s: State, names: seq<string>, rest: seq<string>, dryRun: bool,
                                        stamp: string, script: Script)
    requires (forall n :: n in names ==> IsName(n)) && (forall n :: n in rest ==> n in names) && Safe(unquote, s, names)
    ensures KeepsValues(unquote, s, VariablesRun(unquote, s, rest, dryRun, stamp, script).files)
    decreases |rest|
  {
    KeepsSelf(unquote, s);
    hide KeepsValues;
    hide Safe;
    hide VariableRun;
    if rest != [] {
      var one := VariableRun(unquote, s, rest[0], dryRun, stamp, script);
      VariableSafe(unquote, s, rest[0], names, dryRun, stamp, script);
      if one.outcome != Stopped {
        SafeRunKeeps(unquote, one.files, names, rest[1..], dryRun, stamp, one.script);
        KeepsTrans(unquote, s, one.files, VariablesRun(unquote, one.files, rest[1..], dryRun, stamp, one.script).files);
      }
    }
  }

  // ---- necessary: otherwise some run loses a value ------------------------------------------------------------

  /** The exports file cannot be read for the first `i` variables. */
  function Unreadable(i: nat): Script {
    seq(i, _ => false)
  }

  lemma {:induction false} SkippedVariables(unquote: Unquote, s: State, names: seq<string>, i: nat, stamp: string, script: Script)
    requires i <= |names|
    ensures VariablesRun(unquote, s, names, false, stamp, Unreadable(i) + script).files
            == VariablesRun(unquote, s, names[i..], false, stamp, script).files
    decreases i
  {
    hide ExportedRun;
    if i == 0 {
      assert Unreadable(0) + script == script && names[0..] == names;
    } else {
      var all := Unreadable(i) + script;
      assert all != [] && !all[0] && all[1..] == Unreadable(i - 1) + script;
      assert names[1..][i - 1..] == names[i..];
      SkippedVariables(unquote, s, names[1..], i - 1, stamp, script);
    }
  }

  /** Answers that stop the run between emptying the exports file and writing it. */
  function StopInRewrite(s: State, name: string, v: string): Script {
    if !Free(s, Provider(name)) && TrimSpace(Stored(s, Provider(name))) == v then [true, true, true, true]
    else [true, true, true, true, true]
  }

  lemma StoppedRewrite(s: State, name: string)
    ensures RewriteRun(s, name, [true, true]).files == s.(zshrc := "") && RewriteRun(s, name, [true, true]).outcome == Stopped
  {
    hide Rewrite;
    assert [true, true][1..] == [true] && [true][1..] == [];
  }

  lemma StoppedMove(s: State, name: string, v: string, stamp: string)
    ensures var r := MoveRun(s, name, v, stamp, StopInRewrite(s, name, v)[2..]);
            r.files == Kept(s, Provider(name), v, stamp).(zshrc := "") && r.outcome == Stopped
  {
    StoppedRewrite(Kept(s, Provider(name), v, stamp), name);
    hide RewriteRun;
    hide TrimSpace;
    hide FreeSlot;
    assert [true, true, true, true][2..] == [true, true];
    assert [true, true, true, true, true][2..] == [true, true, true];
    assert [true, true, true][1..] == [true, true];
  }

  lemma StoppedVariable(unquote: Unquote, s: State, name: string, stamp: string)
    requires FirstValue(unquote, s, name) != ""
    ensures var v := FirstValue(unquote, s, name);
            var r := VariableRun(unquote, s, name, false, stamp, StopInRewrite(s, name, v));
            r.files == Kept(s, Provider(name), v, stamp).(zshrc := "") && r.outcome == Stopped
  {
    var v := FirstValue(unquote, s, name);
    var script := StopInRewrite(s, name, v);
    StoppedMove(s, name, v, stamp);
    assert script[0] && script[1..][0] && script[1..][1..] == script[2..];
    hide MoveRun;
    hide LineValue;
    hide LinesOf;
    hide FirstExport;
    hide StopInRewrite;
    hide Kept;
  }

  lemma UnsafeLoses(unquote: Unquote, s: State, name: string, stamp: string)
    requires IsName(name) && FirstValue(unquote, s, name) != "" && !CoveredBut(unquote, s, name)
    ensures !KeepsValues(unquote, s, Kept(s, Provider(name), FirstValue(unquote, s, name), stamp).(zshrc := ""))
  {
    var first := FirstValue(unquote, s, name);
    var kept := Kept(s, Provider(name), first, stamp);
    FirstValueTrimmed(unquote, s, name);
    hide Kept;
    hide FirstValue;
    hide LineValue;
    hide LinesOf;
    hide Elsewhere;
    var m, l :| IsName(m) && l in LinesOf(s.zshrc) && LineValue(unquote, l, m) != ""
                && !Elsewhere(s, Provider(m), LineValue(unquote, l, m))
                && !(m == name && LineValue(unquote, l, m) == first);
    var v := LineValue(unquote, l, m);
    assert Held(unquote, s, Provider(m), v) && GoodKey(Provider(m));
    EmptyFileHolds(unquote, kept, Provider(m), v);
    KeptHolds(s, Provider(name), first, stamp, Provider(m), v);
  }

  lemma {:induction false} StopLoses(unquote: Unquote, s: State, names: seq<string>, i: nat, stamp: string) returns (script: Script)
    requires i < |names| && IsName(names[i]) && FirstValue(unquote, s, names[i]) != "" && !CoveredBut(unquote, s, names[i])
    ensures !KeepsValues(unquote, s, VariablesRun(unquote, s, names, false, stamp, script).files)
  {
    var v := FirstValue(unquote, s, names[i]);
    var last := StopInRewrite(s, names[i], v);
    script := Unreadable(i) + last;
    SkippedVariables(unquote, s, names, i, stamp, last);
    StoppedVariable(unquote, s, names[i], stamp);
    UnsafeLoses(unquote, s, names[i], stamp);
    hide KeepsValues;
    hide VariableRun;
    hide CoveredBut;
    hide FirstValue;
    hide Kept;
  }

  /** Exactly when no run can lose an exported value, whatever fails and wherever it stops: every variable with a value
      to move is the only one whose value is not in the store or archived, and exports no other such value. */
  lemma NoRunLosesIff(unquote: Unquote, s: State, names: seq<string>, stamp: string)
    requires forall n :: n in names ==> IsName(n)
    ensures (forall script :: KeepsValues(unquote, s, VariablesRun(unquote, s, names, false, stamp, script).files))
            <==> Safe(unquote, s, names)
  {
    hide KeepsValues;
    hide VariablesRun;
    hide CoveredBut;
    if Safe(unquote, s, names) {
      forall script
        ensures KeepsValues(unquote, s, VariablesRun(unquote, s, names, false, stamp, script).files)
      {
        SafeRunKeeps(unquote, s, names, names, false, stamp, script);
      }
    } else {
      var n :| n in names && FirstValue(unquote, s, n) != "" && !CoveredBut(unquote, s, n);
      var i :| 0 <= i < |names| && names[i] == n;
      var script := StopLoses(unquote, s, names, i, stamp);
    }
  }

  // ---- runs that do not leave the file empty, and runs without faults -----------------------------------------

  lemma NewStays(unquote: Unquote, s: State, t: State, name: string, n: string)
    requires IsName(name) && IsName(n) && Grows(s, t) && FewerExports(s, t, name)
    requires FirstValue(unquote, s, n) != "" ==> OnlyFirstIsNew(unquote, s, n)
    ensures FirstValue(unquote, t, n) != "" ==> OnlyFirstIsNew(unquote, t, n)
  {
    hide FewerExports;
    FewerValues(unquote, s, t, name, n);
    hide LineValue;
    hide LinesOf;
    hide Elsewhere;
    hide FirstValue;
  }

  /** Each variable to move exports no value but its first one and those held elsewhere. */
  ghost predicate OneEach(unquote: Unquote, s: State, names: seq<string>) {
    forall n :: n in names && FirstValue(unquote, s, n) != "" ==> OnlyFirstIsNew(unquote, s, n)
  }

  lemma OneEachStays(unquote: Unquote, s: State, t: State, name: string, names: seq<string>)
    requires IsName(name) && (forall n :: n in names ==> IsName(n)) && Grows(s, t) && FewerExports(s, t, name)
    requires OneEach(unquote, s, names)
    ensures OneEach(unquote, t, names)
  {
    hide FewerExports;
    hide Grows;
    hide FirstValue;
    hide OnlyFirstIsNew;
    forall n | n in names && FirstValue(unquote, t, n) != ""
      ensures OnlyFirstIsNew(unquote, t, n)
    {
      NewStays(unquote, s, t, name, n);
    }
  }

  lemma {:induction false} EmptyStaysEmpty(unquote: Unquote, s: State, names: seq<string>, dryRun: bool, stamp: string, script: Script)
    requires s.zshrc == ""
    ensures VariablesRun(unquote, s, names, dryRun, stamp, script).files == s
    decreases |names|
  {
    if names != [] {
      EmptyIsQuiet(s, names[0]);
      hide ExportedRun;
      var one := VariableRun(unquote, s, names[0], dryRun, stamp, script);
      assert one.files == s;
      EmptyStaysEmpty(unquote, s, names[1..], dryRun, stamp, one.script);
    }
  }

  lemma OneEachAt(unquote: Unquote, s: State, names: seq<string>, n: string)
    requires OneEach(unquote, s, names) && n in names
    ensures FirstValue(unquote, s, n) != "" ==> OnlyFirstIsNew(unquote, s, n)
  {
    hide FirstValue;
    hide OnlyFirstIsNew;
  }

  lemma RunCons(unquote: Unquote, s: State, names: seq<string>, dryRun: bool, stamp: string, script: Script)
    ensures var r := VariablesRun(unquote, s, names, dryRun, stamp, script);
            if names == [] then r == Run(s, script, Done, 0, 0, 0)
            else
              var one := VariableRun(unquote, s, names[0], dryRun, stamp, script);
              if one.outcome == Stopped then r == one
              else
                var rest := VariablesRun(unquote, one.files, names[1..], dryRun, stamp, one.script);
                && r.files == rest.files && r.script == rest.script && r.outcome == rest.outcome
                && r.actions == one.actions + rest.actions && r.problems == one.problems + rest.problems
                && r.unread == one.unread + rest.unread
  {
    hide VariableRun;
  }

  /** With one value a variable, a run that does not leave the exports file emptied loses nothing. */
  lemma {:induction false} OneEachKeeps(unquote: Unquote, s: State, names: seq<string>, rest: seq<string>, dryRun: bool,
                                        stamp: string, script: Script)
    requires (forall n :: n in names ==> IsName(n)) && (forall n :: n in rest ==> n in names) && OneEach(unquote, s, names)
    ensures var t := VariablesRun(unquote, s, rest, dryRun, stamp, script).files;
            KeepsValues(unquote, s, t) || (t.zshrc == "" && s.zshrc != "")
    decreases |rest|
  {
    KeepsSelf(unquote, s);
    RunCons(unquote, s, rest, dryRun, stamp, script);
    hide *;
    if s.zshrc == "" {
      EmptyStaysEmpty(unquote, s, rest, dryRun, stamp, script);
    } else if rest != [] {
      var one := VariableRun(unquote, s, rest[0], dryRun, stamp, script);
      var t := VariablesRun(unquote, s, rest, dryRun, stamp, script).files;
      OneEachAt(unquote, s, names, rest[0]);
      VariableKeeps(unquote, s, rest[0], dryRun, stamp, script);
      VariableGrows(unquote, s, rest[0], dryRun, stamp, script);
      VariableFewer(unquote, s, rest[0], dryRun, stamp, script);
      OneEachStays(unquote, s, one.files, rest[0], names);
      if one.outcome != Stopped {
        if one.files.zshrc == "" {
          EmptyStaysEmpty(unquote, one.files, rest[1..], dryRun, stamp, one.script);
        } else {
          OneEachKeeps(unquote, one.files, names, rest[1..], dryRun, stamp, one.script);
          if KeepsValues(unquote, one.files, t) {
            KeepsTrans(unquote, s, one.files, t);
          }
        }
      }
    }
  }

  /** What is lost stays lost: a value neither stored, archived nor exported. */
  ghost predicate Lost(unquote: Unquote, t: State, n: string, v: string) {
    !Elsewhere(t, Provider(n), v) && forall l :: l in LinesOf(t.zshrc) ==> LineValue(unquote, l, n) != v
  }

  lemma LostIsNotHeld(unquote: Unquote, t: State, n: string, v: string)
    ensures Lost(unquote, t, n, v) <==> !Held(unquote, t, Provider(n), v)
  {
    hide Elsewhere;
    hide LinesOf;
    hide LineValue;
  }

  lemma FirstIsExported(unquote: Unquote, s: State, name: string)
    requires FirstValue(unquote, s, name) != ""
    ensures exists l :: l in LinesOf(s.zshrc) && LineValue(unquote, l, name) == FirstValue(unquote, s, name)
  {
    FirstExportHolds(LinesOf(s.zshrc), name);
    hide LinesOf;
    hide LineValue;
    hide Exports;
  }

  /** Running one variable stores no value that is not exported under its name. */
  lemma NothingInvented(unquote: Unquote, s: State, name: string, dryRun: bool, stamp: string, script: Script, n: string, v: string)
    requires v != "" && !Elsewhere(s, Provider(n), v)
    requires n == name ==> v != FirstValue(unquote, s, name)
    ensures !Elsewhere(VariableRun(unquote, s, name, dryRun, stamp, script).files, Provider(n), v)
  {
    var first := FirstValue(unquote, s, name);
    var kept := Kept(s, Provider(name), first, stamp);
    var t := VariableRun(unquote, s, name, dryRun, stamp, script).files;
    VariableShape(unquote, s, name, dryRun, stamp, script);
    FirstValueTrimmed(unquote, s, name);
    hide *;
    if t != s {
      KeptHolds(s, Provider(name), first, stamp, Provider(n), v);
      SameElsewhere(kept, t, Provider(n), v);
    }
  }

  lemma SameElsewhere(s: State, t: State, key: Key, v: string)
    requires t.store == s.store && t.archive == s.archive
    ensures Elsewhere(t, key, v) <==> Elsewhere(s, key, v)
  {
    hide TrimSpace;
  }

  lemma LostStaysLost(unquote: Unquote, s: State, name: string, dryRun: bool, stamp: string, script: Script, n: string, v: string)
    requires IsName(name) && IsName(n) && v != "" && Lost(unquote, s, n, v)
    ensures Lost(unquote, VariableRun(unquote, s, name, dryRun, stamp, script).files, n, v)
  {
    var t := VariableRun(unquote, s, name, dryRun, stamp, script).files;
    if n == name && FirstValue(unquote, s, name) != "" {
      FirstIsExported(unquote, s, name);
    }
    NothingInvented(unquote, s, name, dryRun, stamp, script, n, v);
    VariableFewer(unquote, s, name, dryRun, stamp, script);
    hide FewerExports;
    hide VariableRun;
    FewerValues(unquote, s, t, name, n);
    hide LineValue;
    hide LinesOf;
    hide Elsewhere;
  }

  lemma {:induction false} RunLostStaysLost(unquote: Unquote, s: State, names: seq<string>, dryRun: bool, stamp: string,
                                            script: Script, n: string, v: string)
    requires (forall m :: m in names ==> IsName(m)) && IsName(n) && v != "" && Lost(unquote, s, n, v)
    ensures Lost(unquote, VariablesRun(unquote, s, names, dryRun, stamp, script).files, n, v)
    decreases |names|
  {
    hide Lost;
    hide VariableRun;
    if names != [] {
      var one := VariableRun(unquote, s, names[0], dryRun, stamp, script);
      LostStaysLost(unquote, s, names[0], dryRun, stamp, script, n, v);
      if one.outcome != Stopped {
        RunLostStaysLost(unquote, one.files, names[1..], dryRun, stamp, one.script, n, v);
      }
    }
  }

  lemma CalmRewrite(s: State, name: string, script: Script)
    requires Faultless(script)
    ensures var r := RewriteRun(s, name, script);
            && Faultless(r.script)
            && (r.outcome != Stopped ==> r.outcome == Done && r.files == s.(zshrc := Rewrite(s.zshrc, name)) && r.problems == 0)
            && (|script| >= 3 ==> r.outcome == Done && |r.script| == |script| - 3)
  {
    hide Rewrite;
    assert forall i :: 0 <= i < |script| ==> script[i] in script;
  }

  lemma CalmKeep(s: State, key: Key, v: string, stamp: string, script: Script)
    requires Faultless(script)
    ensures var r := KeepRun(s, key, v, stamp, script);
            && Faultless(r.script)
            && (r.outcome != Stopped ==> r.outcome == Done && r.files == Kept(s, key, v, stamp) && r.problems == 0)
            && (|script| >= 1 ==> r.outcome == Done && |r.script| >= |script| - 1)
  {
    hide TrimSpace;
    hide FreeSlot;
    assert forall i :: 0 <= i < |script| ==> script[i] in script;
  }

  lemma CalmMove(s: State, name: string, v: string, stamp: string, script: Script)
    requires Faultless(script)
    ensures var r, kept := MoveRun(s, name, v, stamp, script), Kept(s, Provider(name), v, stamp);
            && Faultless(r.script)
            && (r.outcome != Stopped ==> r.outcome == Done && r.files == kept.(zshrc := Rewrite(kept.zshrc, name)) && r.problems == 0)
            && (|script| >= 4 ==> r.outcome == Done && |r.script| >= |script| - 4)
  {
    var kept := KeepRun(s, Provider(name), v, stamp, script);
    CalmKeep(s, Provider(name), v, stamp, script);
    CalmRewrite(kept.files, name, kept.script);
    hide KeepRun;
    hide Kept;
    hide RewriteRun;
    hide Rewrite;
  }

  lemma AfterCalm(script: Script)
    requires Faultless(script)
    ensures Faultless(After(script)) && Answer(script) != Failed
    ensures |script| >= 1 ==> Answer(script) == Done && |After(script)| == |script| - 1
  {
    assert script != [] ==> script[0] in script;
  }

  lemma CalmExported(unquote: Unquote, s: State, name: string, stamp: string, script: Script)
    requires Faultless(script)
    ensures var r, v := ExportedRun(unquote, s, name, false, stamp, script), FirstValue(unquote, s, name);
            var kept := Kept(s, Provider(name), v, stamp);
            && Faultless(r.script) && r.unread == 0
            && (v == "" ==> r.files == s)
            && (v != "" && r.outcome != Stopped ==> r.files == kept.(zshrc := Rewrite(kept.zshrc, name)) && r.problems == 0)
            && (|script| >= 5 ==> r.outcome != Stopped && |r.script| >= |script| - 5)
  {
    AfterCalm(script);
    CalmMove(s, name, FirstValue(unquote, s, name), stamp, After(script));
    MoveUnread(s, name, FirstValue(unquote, s, name), stamp, After(script));
    hide MoveRun;
    hide Answer;
    hide After;
    hide Kept;
    hide Rewrite;
    hide FirstValue;
  }

  lemma MoveUnread(s: State, name: string, v: string, stamp: string, script: Script)
    ensures MoveRun(s, name, v, stamp, script).unread == 0
  {
    hide Kept;
    hide Rewrite;
    hide Free;
    hide TrimSpace;
  }

  lemma KeptSameExports(s: State, key: Key, v: string, stamp: string)
    ensures Kept(s, key, v, stamp).zshrc == s.zshrc
  {
    hide TrimSpace;
    hide FreeSlot;
  }

  /** Without faults a variable with a value is moved, and any other is left alone. */
  lemma CalmVariable(unquote: Unquote, s: State, name: string, stamp: string, script: Script)
    requires Faultless(script)
    ensures var r, v := VariableRun(unquote, s, name, false, stamp, script), FirstValue(unquote, s, name);
            && Faultless(r.script) && r.unread == 0
            && (r.outcome != Stopped ==>
                  && r.files == (if v == "" then s else Kept(s, Provider(name), v, stamp).(zshrc := Rewrite(s.zshrc, name)))
                  && (!Exported(s, name) || v != "" ==> r.problems == 0))
            && (|script| >= 6 ==> r.outcome != Stopped && |r.script| >= |script| - 6)
  {
    AfterCalm(script);
    CalmExported(unquote, s, name, stamp, After(script));
    KeptSameExports(s, Provider(name), FirstValue(unquote, s, name), stamp);
    if !Exported(s, name) {
      NothingIsExported(unquote, s, name);
    }
    hide ExportedRun;
    hide Answer;
    hide After;
    hide Kept;
    hide Rewrite;
    hide LineValue;
    hide LinesOf;
    hide FirstValue;
    hide FirstExport;
  }

  /** That is the whole effect `MigratedVariable` describes. */
  lemma MovedIsMigrated(unquote: Unquote, s: State, name: string, stamp: string)
    ensures Kept(s, Provider(name), FirstValue(unquote, s, name), stamp).(zshrc := Rewrite(s.zshrc, name))
            == MigratedVariable(unquote, s, name, FreeSlot(s.archive.Keys, Provider(name), stamp, 0))
  {
    hide TrimSpace;
    hide FirstValue;
    hide Rewrite;
    hide FreeSlot;
  }

  lemma {:induction false} CalmLoses(unquote: Unquote, s: State, names: seq<string>, stamp: string, script: Script, n: string, v: string)
    requires (forall m :: m in names ==> IsName(m)) && n in names && Faultless(script)
    requires VariablesRun(unquote, s, names, false, stamp, script).outcome != Stopped
    requires FirstValue(unquote, s, n) != "" && v != "" && v != FirstValue(unquote, s, n) && !Elsewhere(s, Provider(n), v)
    ensures Lost(unquote, VariablesRun(unquote, s, names, false, stamp, script).files, n, v)
    decreases |names|
  {
    var one := VariableRun(unquote, s, names[0], false, stamp, script);
    RunCons(unquote, s, names, false, stamp, script);
    CalmVariable(unquote, s, names[0], stamp, script);
    hide *;
    if names[0] == n {
      var slot := FreeSlot(s.archive.Keys, Provider(n), stamp, 0);
      MovedIsMigrated(unquote, s, n, stamp);
      AfterMigration(unquote, s, n, slot, v);
      LostIsNotHeld(unquote, one.files, n, v);
      RunLostStaysLost(unquote, one.files, names[1..], false, stamp, one.script, n, v);
    } else {
      NothingInvented(unquote, s, names[0], false, stamp, script, n, v);
      CalmFirst(unquote, s, names[0], stamp, script, n);
      CalmLoses(unquote, one.files, names[1..], stamp, one.script, n, v);
    }
  }

  lemma CalmFirst(unquote: Unquote, s: State, name: string, stamp: string, script: Script, n: string)
    requires Faultless(script) && IsName(name) && IsName(n) && n != name
    requires VariableRun(unquote, s, name, false, stamp, script).outcome != Stopped
    ensures FirstValue(unquote, VariableRun(unquote, s, name, false, stamp, script).files, n) == FirstValue(unquote, s, n)
  {
    CalmVariable(unquote, s, name, stamp, script);
    OthersKeepFirst(s.zshrc, name, n);
    hide VariableRun;
    hide LinesOf;
    hide Rewrite;
    hide LineValue;
    hide Kept;
  }

  lemma {:induction false} CalmKeeps(unquote: Unquote, s: State, names: seq<string>, rest: seq<string>, stamp: string, script: Script)
    requires (forall n :: n in names ==> IsName(n)) && (forall n :: n in rest ==> n in names) && OneEach(unquote, s, names)
    requires Faultless(script) && VariablesRun(unquote, s, rest, false, stamp, script).outcome != Stopped
    ensures KeepsValues(unquote, s, VariablesRun(unquote, s, rest, false, stamp, script).files)
    decreases |rest|
  {
    KeepsSelf(unquote, s);
    RunCons(unquote, s, rest, false, stamp, script);
    hide *;
    if rest != [] {
      var one := VariableRun(unquote, s, rest[0], false, stamp, script);
      CalmVariable(unquote, s, rest[0], stamp, script);
      OneEachAt(unquote, s, names, rest[0]);
      CalmVariableKeeps(unquote, s, rest[0], stamp, script);
      VariableGrows(unquote, s, rest[0], false, stamp, script);
      VariableFewer(unquote, s, rest[0], false, stamp, script);
      OneEachStays(unquote, s, one.files, rest[0], names);
      CalmKeeps(unquote, one.files, names, rest[1..], stamp, one.script);
      KeepsTrans(unquote, s, one.files, VariablesRun(unquote, s, rest, false, stamp, script).files);
    }
  }

  lemma CalmVariableKeeps(unquote: Unquote, s: State, name: string, stamp: string, script: Script)
    requires IsName(name) && (FirstValue(unquote, s, name) != "" ==> OnlyFirstIsNew(unquote, s, name))
    requires Faultless(script) && VariableRun(unquote, s, name, false, stamp, script).outcome != Stopped
    ensures KeepsValues(unquote, s, VariableRun(unquote, s, name, false, stamp, script).files)
  {
    var v := FirstValue(unquote, s, name);
    var kept := Kept(s, Provider(name), v, stamp);
    CalmVariable(unquote, s, name, stamp, script);
    KeepsSelf(unquote, s);
    KeptSameExports(s, Provider(name), v, stamp);
    hide *;
    if v != "" {
      FirstValueTrimmed(unquote, s, name);
      KeptGrows(s, Provider(name), v, stamp);
      GrowsKeeps(unquote, s, kept);
      KeptCovers(unquote, s, name, stamp);
      RemovedKeeps(unquote, kept, name);
      KeepsTrans(unquote, s, kept, kept.(zshrc := Rewrite(kept.zshrc, name)));
    }
  }

  /** A run in which nothing fails and that is not stopped loses no value exactly when no variable it moves exports,
      after its first value, one that is neither stored nor archived. */
  lemma FaultFreeKeepsIff(unquote: Unquote, s: State, names: seq<string>, stamp: string, script: Script)
    requires (forall n :: n in names ==> IsName(n)) && Faultless(script)
    requires VariablesRun(unquote, s, names, false, stamp, script).outcome != Stopped
    ensures KeepsValues(unquote, s, VariablesRun(unquote, s, names, false, stamp, script).files) <==> OneEach(unquote, s, names)
  {
    if OneEach(unquote, s, names) {
      hide *;
      CalmKeeps(unquote, s, names, names, stamp, script);
    } else {
      var n, l := SecondValue(unquote, s, names);
      var v := LineValue(unquote, l, n);
      var t := VariablesRun(unquote, s, names, false, stamp, script).files;
      assert IsName(n);
      hide *;
      LineIsHeld(unquote, s, n, l);
      CalmLoses(unquote, s, names, stamp, script, n, v);
      LostIsNotHeld(unquote, t, n, v);
      LosesOne(unquote, s, t, n, v);
    }
  }

  lemma LineIsHeld(unquote: Unquote, s: State, n: string, l: string)
    requires l in LinesOf(s.zshrc)
    ensures Held(unquote, s, Provider(n), LineValue(unquote, l, n))
  {
    hide LineValue;
    hide LinesOf;
    hide Elsewhere;
  }

  lemma LosesOne(unquote: Unquote, s: State, t: State, n: string, v: string)
    requires IsName(n) && v != "" && Held(unquote, s, Provider(n), v) && !Held(unquote, t, Provider(n), v)
    ensures !KeepsValues(unquote, s, t)
  {
    hide Held;
    assert GoodKey(Provider(n));
  }

  lemma SecondValue(unquote: Unquote, s: State, names: seq<string>) returns (n: string, l: string)
    requires !OneEach(unquote, s, names)
    ensures n in names && l in LinesOf(s.zshrc) && LineValue(unquote, l, n) != ""
    ensures FirstValue(unquote, s, n) != "" && LineValue(unquote, l, n) != FirstValue(unquote, s, n)
    ensures !Elsewhere(s, Provider(n), LineValue(unquote, l, n))
  {
    hide LineValue;
    hide LinesOf;
    hide FirstValue;
    hide Elsewhere;
    n :| n in names && FirstValue(unquote, s, n) != "" && !OnlyFirstIsNew(unquote, s, n);
    l :| l in LinesOf(s.zshrc) && LineValue(unquote, l, n) != ""
         && LineValue(unquote, l, n) != FirstValue(unquote, s, n) && !Elsewhere(s, Provider(n), LineValue(unquote, l, n));
  }

  /** With enough working operations ahead, the run finishes, reads everything, and meets only unparsable exports. */
  lemma {:induction false} CalmRunFinishes(unquote: Unquote, s: State, names: seq<string>, stamp: string, script: Script)
    requires Calm(script, 6 * |names|) && forall n :: n in names ==> IsName(n)
    ensures var r := VariablesRun(unquote, s, names, false, stamp, script);
            && r.outcome == Done && r.unread == 0 && Calm(r.script, |script| - 6 * |names|)
            && ((forall n :: n in names && Exported(s, n) ==> FirstValue(unquote, s, n) != "") ==> r.problems == 0)
    decreases |names|
  {
    RunCons(unquote, s, names, false, stamp, script);
    if names != [] {
      var one := VariableRun(unquote, s, names[0], false, stamp, script);
      CalmVariable(unquote, s, names[0], stamp, script);
      hide VariableRun;
      hide VariablesRun;
      hide FirstValue;
      hide Exported;
      hide Kept;
      hide Rewrite;
      CalmRunFinishes(unquote, one.files, names[1..], stamp, one.script);
      if forall n :: n in names && Exported(s, n) ==> FirstValue(unquote, s, n) != "" {
        forall n | n in names[1..] && Exported(one.files, n)
          ensures FirstValue(unquote, one.files, n) != ""
        {
          if n != names[0] {
            CalmExports(unquote, s, names[0], stamp, script, n);
          } else {
            CalmSelf(unquote, s, n, stamp, script);
          }
        }
      }
    }
  }

  lemma CalmExports(unquote: Unquote, s: State, name: string, stamp: string, script: Script, n: string)
    requires Faultless(script) && IsName(name) && IsName(n) && n != name
    requires VariableRun(unquote, s, name, false, stamp, script).outcome != Stopped
    ensures var t := VariableRun(unquote, s, name, false, stamp, script).files;
            FirstValue(unquote, t, n) == FirstValue(unquote, s, n) && (Exported(t, n) <==> Exported(s, n))
  {
    CalmVariable(unquote, s, name, stamp, script);
    OthersKeepFirst(s.zshrc, name, n);
    hide VariableRun;
    hide LinesOf;
    hide Rewrite;
    hide LineValue;
    hide Kept;
  }

  lemma CalmSelf(unquote: Unquote, s: State, name: string, stamp: string, script: Script)
    requires Faultless(script) && VariableRun(unquote, s, name, false, stamp, script).outcome != Stopped
    requires Exported(s, name) ==> FirstValue(unquote, s, name) != ""
    ensures !Exported(VariableRun(unquote, s, name, false, stamp, script).files, name)
  {
    CalmVariable(unquote, s, name, stamp, script);
    KeptSameExports(s, Provider(name), FirstValue(unquote, s, name), stamp);
    if FirstValue(unquote, s, name) != "" {
      RewriteQuiets(Kept(s, Provider(name), FirstValue(unquote, s, name), stamp), name);
    }
    hide VariableRun;
    hide LinesOf;
    hide Rewrite;
    hide LineValue;
    hide Kept;
  }

  // ---- rerunning ----------------------------------------------------------------------------------------------

  lemma VariableQuiets(unquote: Unquote, s: State, name: string, stamp: string, script: Script)
    requires IsName(name)
    ensures var r := VariableRun(unquote, s, name, false, stamp, script);
            r.outcome != Stopped && r.problems == 0 && r.unread == 0 ==> !Exported(r.files, name)
  {
    var r := VariableRun(unquote, s, name, false, stamp, script);
    var v := FirstValue(unquote, s, name);
    var kept := Kept(s, Provider(name), v, stamp);
    if r.outcome != Stopped && r.problems == 0 && r.unread == 0 && Exported(s, name) {
      CleanVariable(unquote, s, name, stamp, script);
      RewriteQuiets(kept, name);
      EmptyIsQuiet(r.files, name);
      hide *;
      SameExported(r.files, kept.(zshrc := r.files.zshrc), name);
    }
  }

  lemma SameExported(s: State, t: State, name: string)
    requires s.zshrc == t.zshrc
    ensures Exported(s, name) <==> Exported(t, name)
  {
  }

  lemma CleanVariable(unquote: Unquote, s: State, name: string, stamp: string, script: Script)
    requires Exported(s, name)
    ensures var r := VariableRun(unquote, s, name, false, stamp, script);
            r.outcome != Stopped && r.problems == 0 && r.unread == 0 ==>
              var kept := Kept(s, Provider(name), FirstValue(unquote, s, name), stamp);
              r.files.zshrc == Rewrite(kept.zshrc, name) || r.files.zshrc == ""
  {
    var v := FirstValue(unquote, s, name);
    MoveShape(s, name, v, stamp, After(After(script)));
    MoveClean(s, name, v, stamp, After(After(script)));
    hide MoveRun;
    hide LinesOf;
    hide Rewrite;
    hide Kept;
    hide FirstValue;
  }

  lemma MoveClean(s: State, name: string, v: string, stamp: string, script: Script)
    ensures var r := MoveRun(s, name, v, stamp, script); r.outcome != Stopped && r.problems == 0 ==> r.outcome == Done
  {
    hide Kept;
    hide Rewrite;
    hide Free;
    hide TrimSpace;
  }

  lemma {:induction false} StaysQuiet(unquote: Unquote, s: State, names: seq<string>, stamp: string, script: Script, n: string)
    requires (forall m :: m in names ==> IsName(m)) && IsName(n)
    ensures !Exported(s, n) ==> !Exported(VariablesRun(unquote, s, names, false, stamp, script).files, n)
    decreases |names|
  {
    RunCons(unquote, s, names, false, stamp, script);
    if names != [] {
      var one := VariableRun(unquote, s, names[0], false, stamp, script);
      VariableFewer(unquote, s, names[0], false, stamp, script);
      assert IsName(names[0]);
      hide *;
      FewerValues(unquote, s, one.files, names[0], n);
      StaysQuiet(unquote, one.files, names[1..], stamp, one.script, n);
    }
  }

  lemma {:induction false} RunQuiets(unquote: Unquote, s: State, names: seq<string>, stamp: string, script: Script)
    requires forall n :: n in names ==> IsName(n)
    ensures var r := VariablesRun(unquote, s, names, false, stamp, script);
            r.outcome != Stopped && r.problems == 0 && r.unread == 0 ==> forall n :: n in names ==> !Exported(r.files, n)
    decreases |names|
  {
    RunCons(unquote, s, names, false, stamp, script);
    if names != [] {
      var one := VariableRun(unquote, s, names[0], false, stamp, script);
      VariableQuiets(unquote, s, names[0], stamp, script);
      assert IsName(names[0]);
      assert forall n :: n in names ==> n == names[0] || n in names[1..];
      hide *;
      RunQuiets(unquote, one.files, names[1..], stamp, one.script);
      StaysQuiet(unquote, one.files, names[1..], stamp, one.script, names[0]);
    }
  }

  lemma IdleVariable(unquote: Unquote, s: State, name: string, dryRun: bool, stamp: string, script: Script)
    requires !Exported(s, name)
    ensures var r := VariableRun(unquote, s, name, dryRun, stamp, script); r.files == s && r.actions == 0 && r.problems == 0
  {
    hide ExportedRun;
    hide LinesOf;
    hide FirstExport;
  }

  /** With nothing exported, nothing happens. */
  lemma {:induction false} IdleRun(unquote: Unquote, s: State, names: seq<string>, dryRun: bool, stamp: string, script: Script)
    requires forall n :: n in names ==> !Exported(s, n)
    ensures var r := VariablesRun(unquote, s, names, dryRun, stamp, script); r.files == s && r.actions == 0 && r.problems == 0
    decreases |names|
  {
    RunCons(unquote, s, names, dryRun, stamp, script);
    hide VariableRun;
    hide VariablesRun;
    hide Exported;
    if names != [] {
      assert names[0] in names;
      IdleVariable(unquote, s, names[0], dryRun, stamp, script);
      IdleRun(unquote, s, names[1..], dryRun, stamp, VariableRun(unquote, s, names[0], dryRun, stamp, script).script);
    }
  }

  /** A dry run changes nothing. */
  lemma {:induction false} DryRun(unquote: Unquote, s: State, names: seq<string>, stamp: string, script: Script)
    ensures VariablesRun(unquote, s, names, true, stamp, script).files == s
    decreases |names|
  {
    RunCons(unquote, s, names, true, stamp, script);
    hide MoveRun;
    hide LinesOf;
    hide FirstExport;
    hide FirstValue;
    if names != [] {
      DryRun(unquote, s, names[1..], stamp, VariableRun(unquote, s, names[0], true, stamp, script).script);
    }
  }
}
