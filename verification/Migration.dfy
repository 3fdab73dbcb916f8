/** Legacy credentials and where they are kept: what each step of the migration may do without losing a value. */
module Migration {
  import opened Wrappers
  import opened Text
  import opened CredentialLines

  datatype Key = Provider(name: string) | CloudSecret | GitHTTPS

  /** A conflict path: the first attempt has the bare stamp, later ones a number. */
  datatype Slot<K(==)> = Slot(base: K, stamp: string, n: nat)

  datatype Entry = Directory(content: string) | Other(content: string)

  datatype State = State(
    zshrc: string,
    cloudFile: Option<string>,
    httpsFile: Option<string>,
    store: map<Key, string>,
    archive: map<Slot<Key>, string>,
    legacyRoot: Option<map<string, Entry>>,
    newRoot: Option<map<string, Entry>>,
    dirArchive: map<Slot<string>, Entry>)

  type Unquote = string -> Option<string>

  // ---- exported variables -------------------------------------------------------------------------------------

  function Prefix(name: string): string {
    "export " + name + "="
  }

  predicate Exports(line: string, name: string) {
    HasPrefix(TrimSpace(line), Prefix(name))
  }

  predicate IsQuote(c: char) {
    c == '"' || c == '\''
  }

  function TrimQuotes(s: string): string
    decreases |s|
  {
    if s != "" && IsQuote(s[0]) then TrimQuotes(s[1..])
    else if s != "" && IsQuote(s[|s| - 1]) then TrimQuotes(s[..|s| - 1])
    else s
  }

  /** The value a line gives a variable; "" when it gives none. */
  function LineValue(unquote: Unquote, line: string, name: string): string {
    if !Exports(line, name) then ""
    else
      var raw := TrimSpace(TrimSpace(line)[|Prefix(name)|..]);
      if raw == "" then ""
      else TrimSpace(if unquote(raw).Some? then unquote(raw).value else TrimQuotes(raw))
  }

  function LinesOf(zshrc: string): seq<string> {
    Split(zshrc, '\n')
  }

  /** `readZshrcEnvLine`: the first line that exports the variable. */
  function FirstExport(lines: seq<string>, name: string): Option<string> {
    if lines == [] then None
    else if Exports(lines[0], name) then Some(lines[0])
    else FirstExport(lines[1..], name)
  }

  function WithoutExports(lines: seq<string>, name: string): seq<string> {
    if lines == [] then []
    else (if Exports(lines[0], name) then [] else [lines[0]]) + WithoutExports(lines[1..], name)
  }

  function Rewrite(zshrc: string, name: string): string {
    Join(WithoutExports(LinesOf(zshrc), name), "\n")
  }

  lemma {:induction false} WithoutExportsHolds(lines: seq<string>, name: string)
    ensures forall l :: l in WithoutExports(lines, name) <==> l in lines && !Exports(l, name)
  {
    hide Exports;
    if lines != [] {
      WithoutExportsHolds(lines[1..], name);
      assert lines == [lines[0]] + lines[1..];
    }
  }

  lemma {:induction false} FirstExportHolds(lines: seq<string>, name: string)
    ensures FirstExport(lines, name).Some? ==> FirstExport(lines, name).value in lines
    ensures FirstExport(lines, name).Some? ==> Exports(FirstExport(lines, name).value, name)
    ensures FirstExport(lines, name) == None <==> forall l :: l in lines ==> !Exports(l, name)
  {
    hide Exports;
    if lines != [] {
      FirstExportHolds(lines[1..], name);
      assert lines == [lines[0]] + lines[1..];
    }
  }

  lemma ExportedName(line: string, name: string)
    requires Exports(line, name)
    ensures var t, e := TrimSpace(line), |"export "|;
            e + |name| < |t| && t[e..e + |name|] == name && t[e + |name|] == '='
  {
    var t, p := TrimSpace(line), Prefix(name);
    hide TrimSpace;
    assert p == t[..|p|];
    assert p[|"export "|..|p| - 1] == name;
  }

  /** Up to the first equals sign. */
  lemma NameEnds(t: string, e: nat, a: string, b: string)
    requires e + |a| < |t| && t[e..e + |a|] == a && t[e + |a|] == '=' && '=' !in a
    requires e + |b| < |t| && t[e..e + |b|] == b && t[e + |b|] == '=' && '=' !in b
    ensures a == b
  {
    assert forall k :: 0 <= k < |a| ==> t[e + k] == a[k] != '=';
    assert forall k :: 0 <= k < |b| ==> t[e + k] == b[k] != '=';
    assert |a| == |b|;
  }

  /** A line exports one variable only. */
  lemma OneExport(line: string, a: string, b: string)
    requires '=' !in a && '=' !in b && Exports(line, a) && Exports(line, b)
    ensures a == b
  {
    ExportedName(line, a);
    ExportedName(line, b);
    hide *;
    NameEnds(TrimSpace(line), |"export "|, a, b);
  }

  lemma NothingExported(name: string)
    ensures !Exports("", name)
  {
    TrimTrimmed("");
    assert Prefix(name)[0] == 'e';
  }

  /** The rewritten file has the same lines, but for those that export the variable. */
  lemma RewriteLines(zshrc: string, name: string, line: string, m: string)
    requires Exports(line, m)
    ensures line in LinesOf(Rewrite(zshrc, name)) <==> line in LinesOf(zshrc) && !Exports(line, name)
  {
    var kept := WithoutExports(LinesOf(zshrc), name);
    WithoutExportsHolds(LinesOf(zshrc), name);
    NothingExported(m);
    hide Exports;
    if kept == [] {
      assert Split("", '\n') == [""];
    } else {
      forall i | 0 <= i < |kept|
        ensures '\n' !in kept[i]
      {
        assert kept[i] in kept;
      }
      SplitJoin(kept, '\n');
      assert ['\n'] == "\n";
    }
  }

  /** Names of shell variables hold no equals sign. */
  predicate IsName(name: string) {
    '=' !in name
  }

  predicate GoodKey(key: Key) {
    key.Provider? ==> IsName(key.name)
  }

  // ---- what is held -------------------------------------------------------------------------------------------

  predicate Elsewhere(s: State, key: Key, v: string) {
    || (key in s.store && TrimSpace(s.store[key]) == v)
    || exists slot :: slot in s.archive && slot.base == key && TrimSpace(s.archive[slot]) == v
  }

  predicate AtLegacyPlace(unquote: Unquote, s: State, key: Key, v: string) {
    match key
    case Provider(name) => exists l :: l in LinesOf(s.zshrc) && LineValue(unquote, l, name) == v
    case CloudSecret => s.cloudFile.Some? && TrimSpace(s.cloudFile.value) == v
    case GitHTTPS => false
  }

  /** A single-valued credential is in the store, in its archive, or where older releases left it. */
  predicate Held(unquote: Unquote, s: State, key: Key, v: string) {
    key != GitHTTPS && (Elsewhere(s, key, v) || AtLegacyPlace(unquote, s, key, v))
  }

  function Stored(s: State, key: Key): string {
    if key in s.store then s.store[key] else ""
  }

  function OptText(o: Option<string>): string {
    if o.Some? then o.value else ""
  }

  predicate LineHeld(s: State, l: string) {
    l in Items(Stored(s, GitHTTPS)) || l in Items(OptText(s.httpsFile))
  }

  function Root(o: Option<map<string, Entry>>): map<string, Entry> {
    if o.Some? then o.value else map[]
  }

  predicate DirHeld(t: State, name: string, e: Entry) {
    || (name in Root(t.legacyRoot) && Root(t.legacyRoot)[name] == e)
    || (name in Root(t.newRoot) && Root(t.newRoot)[name] == e)
    || exists slot :: slot in t.dirArchive && slot.base == name && t.dirArchive[slot] == e
  }

  /** Nothing in the new root or in an archive is overwritten, and a legacy entry is still somewhere under its name. */
  ghost predicate DirsKept(s: State, t: State) {
    && (forall n :: n in Root(s.newRoot) ==> n in Root(t.newRoot) && Root(t.newRoot)[n] == Root(s.newRoot)[n])
    && (forall slot :: slot in s.dirArchive ==> slot in t.dirArchive && t.dirArchive[slot] == s.dirArchive[slot])
    && (forall n :: n in Root(s.legacyRoot) ==> DirHeld(t, n, Root(s.legacyRoot)[n]))
  }

  /** No value is lost on the way from `s` to `t`. */
  ghost predicate Conserves(unquote: Unquote, s: State, t: State) {
    && (forall key, v :: GoodKey(key) && v != "" && Held(unquote, s, key, v) ==> Held(unquote, t, key, v))
    && (forall l :: LineHeld(s, l) ==> LineHeld(t, l))
    && DirsKept(s, t)
  }

  lemma DirsKeptTrans(s: State, t: State, u: State)
    requires DirsKept(s, t) && DirsKept(t, u)
    ensures DirsKept(s, u)
  {
    forall n | n in Root(s.legacyRoot)
      ensures DirHeld(u, n, Root(s.legacyRoot)[n])
    {
      assert DirHeld(t, n, Root(s.legacyRoot)[n]);
      if n in Root(t.legacyRoot) && Root(t.legacyRoot)[n] == Root(s.legacyRoot)[n] {
        assert DirHeld(u, n, Root(t.legacyRoot)[n]);
      } else if slot :| slot in t.dirArchive && slot.base == n && t.dirArchive[slot] == Root(s.legacyRoot)[n] {
        assert slot in u.dirArchive;
      }
    }
  }

  lemma ConservesTrans(unquote: Unquote, s: State, t: State, u: State)
    requires Conserves(unquote, s, t) && Conserves(unquote, t, u)
    ensures Conserves(unquote, s, u)
  {
    hide DirsKept;
    hide Held;
    hide LineHeld;
    DirsKeptTrans(s, t, u);
  }

  lemma DirsKeptSelf(s: State, t: State)
    requires t.legacyRoot == s.legacyRoot && t.newRoot == s.newRoot && t.dirArchive == s.dirArchive
    ensures DirsKept(s, t)
  {
  }

  lemma ConservesSelf(unquote: Unquote, s: State)
    ensures Conserves(unquote, s, s)
  {
    hide Held;
    hide LineHeld;
    DirsKeptSelf(s, s);
    hide DirsKept;
  }

  // ---- the steps ----------------------------------------------------------------------------------------------

  /** A blank store entry may be written. */
  lemma WriteConserves(unquote: Unquote, s: State, key: Key, text: string)
    requires key != GitHTTPS && TrimSpace(Stored(s, key)) == ""
    ensures Conserves(unquote, s, s.(store := s.store[key := text]))
  {
    var t := s.(store := s.store[key := text]);
    hide TrimSpace;
    hide LineValue;
    hide Items;
    hide LinesOf;
    DirsKeptSelf(s, t);
    hide DirsKept;
    forall k, v | v != "" && Held(unquote, s, k, v)
      ensures Held(unquote, t, k, v)
    {
      if k != key || !(k in s.store && TrimSpace(s.store[k]) == v) {
        if slot :| slot in s.archive && slot.base == k && TrimSpace(s.archive[slot]) == v {
          assert slot in t.archive;
        }
      }
    }
  }

  lemma ArchiveConserves(unquote: Unquote, s: State, slot: Slot<Key>, text: string)
    requires slot !in s.archive
    ensures Conserves(unquote, s, s.(archive := s.archive[slot := text]))
  {
    var t := s.(archive := s.archive[slot := text]);
    hide TrimSpace;
    hide LineValue;
    hide Items;
    hide LinesOf;
    DirsKeptSelf(s, t);
    hide DirsKept;
    forall k, v | v != "" && Held(unquote, s, k, v)
      ensures Held(unquote, t, k, v)
    {
      if x :| x in s.archive && x.base == k && TrimSpace(s.archive[x]) == v {
        assert x in t.archive;
      }
    }
  }

  /** Every value the lines export is also in the store or archived. */
  predicate ExportsCovered(unquote: Unquote, s: State, name: string) {
    forall l :: l in LinesOf(s.zshrc) && LineValue(unquote, l, name) != "" ==>
      Elsewhere(s, Provider(name), LineValue(unquote, l, name))
  }

  lemma OtherLinesStay(unquote: Unquote, zshrc: string, name: string, line: string, m: string)
    requires '=' !in name && '=' !in m && m != name && line in LinesOf(zshrc) && LineValue(unquote, line, m) != ""
    ensures line in LinesOf(Rewrite(zshrc, name))
  {
    assert Exports(line, m);
    hide Exports;
    hide LinesOf;
    hide Rewrite;
    if Exports(line, name) {
      OneExport(line, m, name);
    }
    RewriteLines(zshrc, name, line, m);
  }

  lemma RemovedLineGone(unquote: Unquote, zshrc: string, name: string, line: string)
    requires line in LinesOf(Rewrite(zshrc, name))
    ensures LineValue(unquote, line, name) == ""
  {
    hide LinesOf;
    hide Rewrite;
    if Exports(line, name) {
      RewriteLines(zshrc, name, line, name);
    }
  }

  lemma ExportedElsewhereStays(unquote: Unquote, s: State, name: string, key: Key, v: string)
    requires IsName(name) && GoodKey(key) && key != Provider(name) && v != "" && Held(unquote, s, key, v)
    ensures Held(unquote, s.(zshrc := Rewrite(s.zshrc, name)), key, v)
  {
    var t := s.(zshrc := Rewrite(s.zshrc, name));
    hide TrimSpace;
    hide LineValue;
    hide LinesOf;
    hide Rewrite;
    assert Elsewhere(s, key, v) ==> Elsewhere(t, key, v);
    if !Elsewhere(s, key, v) && key.Provider? {
      var l :| l in LinesOf(s.zshrc) && LineValue(unquote, l, key.name) == v;
      OtherLinesStay(unquote, s.zshrc, name, l, key.name);
    }
  }

  /** Removing a variable's exports loses none of its values exactly when each is in the store or archived. */
  lemma RemoveExportsIff(unquote: Unquote, s: State, name: string)
    requires IsName(name)
    ensures (forall key, v :: GoodKey(key) && v != "" && Held(unquote, s, key, v)
                              ==> Held(unquote, s.(zshrc := Rewrite(s.zshrc, name)), key, v))
            <==> ExportsCovered(unquote, s, name)
  {
    var t := s.(zshrc := Rewrite(s.zshrc, name));
    var key := Provider(name);
    hide TrimSpace;
    hide LineValue;
    hide LinesOf;
    hide Rewrite;
    assert GoodKey(key);
    forall l | l in LinesOf(t.zshrc)
      ensures LineValue(unquote, l, name) == ""
    {
      RemovedLineGone(unquote, s.zshrc, name, l);
    }
    forall v | v != ""
      ensures Held(unquote, t, key, v) <==> Elsewhere(s, key, v)
    {
      assert Elsewhere(t, key, v) <==> Elsewhere(s, key, v);
    }
    hide Elsewhere;
    if ExportsCovered(unquote, s, name) {
      forall k, v | GoodKey(k) && v != "" && Held(unquote, s, k, v)
        ensures Held(unquote, t, k, v)
      {
        if k != key {
          ExportedElsewhereStays(unquote, s, name, k, v);
        }
      }
    } else {
      var l :| l in LinesOf(s.zshrc) && LineValue(unquote, l, name) != "" && !Elsewhere(s, key, LineValue(unquote, l, name));
      assert Held(unquote, s, key, LineValue(unquote, l, name));
    }
  }

  lemma EmptyExportsNothing(unquote: Unquote, name: string)
    ensures forall l :: l in LinesOf("") ==> !Exports(l, name) && LineValue(unquote, l, name) == ""
  {
    assert Split("", '\n') == [""];
    NothingExported(name);
  }

  lemma EmptyFileHolds(unquote: Unquote, s: State, key: Key, v: string)
    requires v != "" && key != GitHTTPS
    ensures Held(unquote, s.(zshrc := ""), key, v)
            <==> Elsewhere(s, key, v) || (key == CloudSecret && AtLegacyPlace(unquote, s, key, v))
  {
    var t := s.(zshrc := "");
    if key.Provider? {
      EmptyExportsNothing(unquote, key.name);
    }
    hide TrimSpace;
    hide LineValue;
    hide LinesOf;
    assert Elsewhere(t, key, v) <==> Elsewhere(s, key, v);
  }

  /** `updateAgentFile` empties the file before it writes. Left empty, it has lost nothing exactly when every exported
      value, of whatever variable, is also in the store or archived. */
  lemma EmptiedFileIff(unquote: Unquote, s: State)
    ensures (forall key, v :: GoodKey(key) && v != "" && Held(unquote, s, key, v)
                              ==> Held(unquote, s.(zshrc := ""), key, v))
            <==> forall name :: IsName(name) ==> ExportsCovered(unquote, s, name)
  {
    var t := s.(zshrc := "");
    forall key, v | v != "" && key != GitHTTPS
      ensures Held(unquote, t, key, v)
              <==> Elsewhere(s, key, v) || (key == CloudSecret && AtLegacyPlace(unquote, s, key, v))
    {
      EmptyFileHolds(unquote, s, key, v);
    }
    hide TrimSpace;
    hide LineValue;
    hide LinesOf;
    hide Elsewhere;
    if name :| IsName(name) && !ExportsCovered(unquote, s, name) {
      var l :| l in LinesOf(s.zshrc) && LineValue(unquote, l, name) != ""
               && !Elsewhere(s, Provider(name), LineValue(unquote, l, name));
      assert GoodKey(Provider(name)) && Held(unquote, s, Provider(name), LineValue(unquote, l, name));
    } else {
      forall key, v | GoodKey(key) && v != "" && Held(unquote, s, key, v)
        ensures Held(unquote, t, key, v)
      {
        if key.Provider? {
          assert ExportsCovered(unquote, s, key.name);
        }
      }
    }
  }

  lemma RemoveCloudConserves(unquote: Unquote, s: State)
    requires s.cloudFile.Some?
    requires TrimSpace(s.cloudFile.value) != "" ==> Elsewhere(s, CloudSecret, TrimSpace(s.cloudFile.value))
    ensures Conserves(unquote, s, s.(cloudFile := None))
  {
    var t := s.(cloudFile := None);
    hide TrimSpace;
    hide LineValue;
    hide LinesOf;
    hide Items;
    DirsKeptSelf(s, t);
    hide DirsKept;
    forall k, v | v != "" && Held(unquote, s, k, v)
      ensures Held(unquote, t, k, v)
    {
      assert Elsewhere(t, k, v) <==> Elsewhere(s, k, v);
    }
  }

  lemma WriteLinesConserves(unquote: Unquote, s: State, text: string)
    requires forall l :: l in Items(Stored(s, GitHTTPS)) ==> l in Items(text)
    ensures Conserves(unquote, s, s.(store := s.store[GitHTTPS := text]))
  {
    var t := s.(store := s.store[GitHTTPS := text]);
    hide TrimSpace;
    hide LineValue;
    hide LinesOf;
    hide Items;
    DirsKeptSelf(s, t);
    hide DirsKept;
    forall k, v | v != "" && Held(unquote, s, k, v)
      ensures Held(unquote, t, k, v)
    {
      assert Elsewhere(t, k, v) <==> Elsewhere(s, k, v);
    }
  }

  lemma RemoveLinesConserves(unquote: Unquote, s: State)
    requires forall l :: l in Items(OptText(s.httpsFile)) ==> l in Items(Stored(s, GitHTTPS))
    ensures Conserves(unquote, s, s.(httpsFile := None))
  {
    var t := s.(httpsFile := None);
    hide TrimSpace;
    hide LineValue;
    hide LinesOf;
    assert OptText(None) == "";
    BlankHasNoItems("");
    hide Items;
    DirsKeptSelf(s, t);
    hide DirsKept;
    forall k, v | v != "" && Held(unquote, s, k, v)
      ensures Held(unquote, t, k, v)
    {
      assert Elsewhere(t, k, v) <==> Elsewhere(s, k, v);
    }
  }

  lemma BlankHasNoItems(text: string)
    requires TrimSpace(text) == ""
    ensures Items(text) == []
  {
    ItemsTrim(text);
    hide TrimSpace;
    assert Split("", '\n') == [""];
    assert TrimSpace("") == "" by {
      TrimTrimmed("");
    }
    assert TrimAll([""]) == [""];
    assert Unique([""]) == [] by {
      assert [""][..0] == [];
    }
  }

  // ---- directories --------------------------------------------------------------------------------------------

  /** Only the directories change. */
  predicate OnlyDirs(s: State, t: State) {
    t == s.(legacyRoot := t.legacyRoot, newRoot := t.newRoot, dirArchive := t.dirArchive)
  }

  lemma DirsConserve(unquote: Unquote, s: State, t: State)
    requires OnlyDirs(s, t) && DirsKept(s, t)
    ensures Conserves(unquote, s, t)
  {
    hide TrimSpace;
    hide LineValue;
    hide LinesOf;
    hide Items;
    hide DirsKept;
    forall k, v | v != "" && Held(unquote, s, k, v)
      ensures Held(unquote, t, k, v)
    {
      assert Elsewhere(t, k, v) <==> Elsewhere(s, k, v);
    }
  }

  lemma MoveRootKeeps(s: State)
    requires s.legacyRoot.Some? && s.newRoot == None
    ensures DirsKept(s, s.(legacyRoot := None, newRoot := s.legacyRoot))
  {
  }

  lemma MoveEntryKeeps(s: State, n: string)
    requires s.legacyRoot.Some? && s.newRoot.Some? && n in s.legacyRoot.value && n !in s.newRoot.value
    ensures DirsKept(s, s.(legacyRoot := Some(s.legacyRoot.value - {n}),
                           newRoot := Some(s.newRoot.value[n := s.legacyRoot.value[n]])))
  {
  }

  lemma ArchiveEntryKeeps(s: State, n: string, slot: Slot<string>)
    requires s.legacyRoot.Some? && n in s.legacyRoot.value && slot !in s.dirArchive && slot.base == n
    ensures DirsKept(s, s.(legacyRoot := Some(s.legacyRoot.value - {n}),
                           dirArchive := s.dirArchive[slot := s.legacyRoot.value[n]]))
  {
    var t := s.(legacyRoot := Some(s.legacyRoot.value - {n}), dirArchive := s.dirArchive[slot := s.legacyRoot.value[n]]);
    forall m | m in Root(s.legacyRoot)
      ensures DirHeld(t, m, Root(s.legacyRoot)[m])
    {
      if m == n {
        assert slot in t.dirArchive && slot.base == n;
      }
    }
  }

  lemma RemoveRootKeeps(s: State)
    requires s.legacyRoot == Some(map[])
    ensures DirsKept(s, s.(legacyRoot := None))
  {
  }

  // ---- conflict paths -----------------------------------------------------------------------------------------

  /** How many taken paths have number `n` or a higher one: what the search for a free path counts down. */
  ghost function TakenFrom<K(!new)>(taken: set<Slot<K>>, base: K, stamp: string, n: nat): set<Slot<K>> {
    set slot | slot in taken && slot.base == base && slot.stamp == stamp && slot.n >= n
  }

  /** `nextDirectoryConflictPath` and its like for secrets: the search ends, at the first path not taken. */
  method NextConflictPath<K(==, !new)>(taken: set<Slot<K>>, base: K, stamp: string) returns (slot: Slot<K>)
    ensures slot !in taken && slot.base == base && slot.stamp == stamp
    ensures forall m: nat :: m < slot.n ==> Slot(base, stamp, m) in taken
  {
    var i: nat := 0;
    while Slot(base, stamp, i) in taken
      invariant forall m: nat :: m < i ==> Slot(base, stamp, m) in taken
      decreases TakenFrom(taken, base, stamp, i)
    {
      assert Slot(base, stamp, i) in TakenFrom(taken, base, stamp, i);
      assert Slot(base, stamp, i) !in TakenFrom(taken, base, stamp, i + 1);
      i := i + 1;
    }
    return Slot(base, stamp, i);
  }

  // ---- one variable, start to end -----------------------------------------------------------------------------

  function FirstValue(unquote: Unquote, s: State, name: string): string {
    match FirstExport(LinesOf(s.zshrc), name)
    case None => ""
    case Some(line) => LineValue(unquote, line, name)
  }

  /** The whole effect of migrating a variable whose first export has a value; `slot` is the conflict path, if used. */
  function MigratedVariable(unquote: Unquote, s: State, name: string, slot: Slot<Key>): State {
    var v, stored := FirstValue(unquote, s, name), TrimSpace(Stored(s, Provider(name)));
    var kept :=
      if stored == "" then s.(store := s.store[Provider(name) := v + "\n"])
      else if stored == v then s
      else s.(archive := s.archive[slot := v + "\n"]);
    kept.(zshrc := Rewrite(s.zshrc, name))
  }

  /** Every exported value is the first one, or was in the store or archived before. */
  predicate OnlyFirstIsNew(unquote: Unquote, s: State, name: string) {
    forall l :: l in LinesOf(s.zshrc) && LineValue(unquote, l, name) != "" ==>
      LineValue(unquote, l, name) == FirstValue(unquote, s, name)
      || Elsewhere(s, Provider(name), LineValue(unquote, l, name))
  }

  lemma TrimmedWithNewline(v: string)
    requires Trimmed(v)
    ensures TrimSpace(v + "\n") == v
  {
    TrimTrailing(v, '\n');
    assert v + "\n" == v + ['\n'];
    TrimTrimmed(v);
  }

  lemma LineValueTrimmed(unquote: Unquote, line: string, name: string)
    ensures Trimmed(LineValue(unquote, line, name))
  {
  }

  lemma FirstValueTrimmed(unquote: Unquote, s: State, name: string)
    ensures Trimmed(FirstValue(unquote, s, name))
  {
    hide LineValue;
    match FirstExport(LinesOf(s.zshrc), name)
    case None =>
    case Some(line) => LineValueTrimmed(unquote, line, name);
  }

  lemma WrittenElsewhere(s: State, key: Key, text: string, v: string)
    requires v != "" && TrimSpace(Stored(s, key)) == ""
    ensures Elsewhere(s.(store := s.store[key := text]), key, v) <==> v == TrimSpace(text) || Elsewhere(s, key, v)
  {
    hide TrimSpace;
  }

  lemma ArchivedElsewhere(s: State, key: Key, slot: Slot<Key>, text: string, v: string)
    requires slot !in s.archive && slot.base == key
    ensures Elsewhere(s.(archive := s.archive[slot := text]), key, v) <==> v == TrimSpace(text) || Elsewhere(s, key, v)
  {
    hide TrimSpace;
    var t := s.(archive := s.archive[slot := text]);
    if x :| x in s.archive && x.base == key && TrimSpace(s.archive[x]) == v {
      assert x in t.archive && t.archive[x] == s.archive[x];
    }
    if v == TrimSpace(text) {
      assert slot in t.archive;
    }
  }

  /** Before the exports are removed, the store or the archive holds what it held and the first value. */
  lemma FirstIsKept(unquote: Unquote, s: State, name: string, slot: Slot<Key>, v: string)
    requires v != "" && FirstValue(unquote, s, name) != "" && slot !in s.archive && slot.base == Provider(name)
    ensures Elsewhere(MigratedVariable(unquote, s, name, slot), Provider(name), v)
            <==> v == FirstValue(unquote, s, name) || Elsewhere(s, Provider(name), v)
  {
    var first, key := FirstValue(unquote, s, name), Provider(name);
    var t := MigratedVariable(unquote, s, name, slot);
    FirstValueTrimmed(unquote, s, name);
    TrimmedWithNewline(first);
    var stored := TrimSpace(Stored(s, key));
    hide TrimSpace;
    hide FirstValue;
    hide Rewrite;
    assert Elsewhere(t, key, v) <==> Elsewhere(t.(zshrc := s.zshrc), key, v);
    if stored == "" {
      WrittenElsewhere(s, key, first + "\n", v);
    } else if stored != first {
      ArchivedElsewhere(s, key, slot, first + "\n", v);
    }
  }

  /** What a migrated variable still has: its first value, and whatever was in the store or archived. */
  lemma AfterMigration(unquote: Unquote, s: State, name: string, slot: Slot<Key>, v: string)
    requires v != "" && FirstValue(unquote, s, name) != "" && slot !in s.archive && slot.base == Provider(name)
    ensures Held(unquote, MigratedVariable(unquote, s, name, slot), Provider(name), v)
            <==> v == FirstValue(unquote, s, name) || Elsewhere(s, Provider(name), v)
  {
    var t := MigratedVariable(unquote, s, name, slot);
    FirstIsKept(unquote, s, name, slot, v);
    assert t.zshrc == Rewrite(s.zshrc, name);
    hide *;
    assert !AtLegacyPlace(unquote, t, Provider(name), v) by {
      NoneExported(unquote, s.zshrc, t, name, v);
    }
    HeldIs(unquote, t, name, v);
  }

  lemma NoneExported(unquote: Unquote, zshrc: string, t: State, name: string, v: string)
    requires v != "" && t.zshrc == Rewrite(zshrc, name)
    ensures !AtLegacyPlace(unquote, t, Provider(name), v)
  {
    hide LineValue;
    hide LinesOf;
    hide Rewrite;
    forall l | l in LinesOf(t.zshrc)
      ensures LineValue(unquote, l, name) == ""
    {
      RemovedLineGone(unquote, zshrc, name, l);
    }
  }

  lemma HeldIs(unquote: Unquote, t: State, name: string, v: string)
    ensures Held(unquote, t, Provider(name), v)
            <==> Elsewhere(t, Provider(name), v) || AtLegacyPlace(unquote, t, Provider(name), v)
  {
    hide AtLegacyPlace;
    hide Elsewhere;
  }

  /** Migrating a variable loses no value exactly when no later line exports a value not held elsewhere. With one line
      a variable nothing is lost. */
  lemma MigrationLosesNothingIff(unquote: Unquote, s: State, name: string, slot: Slot<Key>)
    requires IsName(name) && FirstValue(unquote, s, name) != "" && slot !in s.archive && slot.base == Provider(name)
    ensures (forall v :: v != "" && Held(unquote, s, Provider(name), v)
                         ==> Held(unquote, MigratedVariable(unquote, s, name, slot), Provider(name), v))
            <==> OnlyFirstIsNew(unquote, s, name)
  {
    var key, t := Provider(name), MigratedVariable(unquote, s, name, slot);
    forall v | v != ""
      ensures Held(unquote, t, key, v) <==> v == FirstValue(unquote, s, name) || Elsewhere(s, key, v)
    {
      AfterMigration(unquote, s, name, slot, v);
    }
    hide MigratedVariable;
    hide LineValue;
    hide LinesOf;
    hide FirstValue;
    hide Elsewhere;
    if !OnlyFirstIsNew(unquote, s, name) {
      var l :| l in LinesOf(s.zshrc) && LineValue(unquote, l, name) != ""
               && LineValue(unquote, l, name) != FirstValue(unquote, s, name)
               && !Elsewhere(s, key, LineValue(unquote, l, name));
      assert Held(unquote, s, key, LineValue(unquote, l, name));
      assert !Held(unquote, t, key, LineValue(unquote, l, name));
    }
  }

  lemma TwoLines(a: string, b: string)
    requires '\n' !in a && '\n' !in b
    ensures LinesOf(Join([a, b], "\n")) == [a, b]
  {
    SplitJoin([a, b], '\n');
    assert ['\n'] == "\n";
  }

  lemma FirstOfTwo(unquote: Unquote, s: State, name: string, a: string, b: string)
    requires LinesOf(s.zshrc) == [a, b] && LineValue(unquote, a, name) != ""
    ensures FirstValue(unquote, s, name) == LineValue(unquote, a, name)
  {
    assert Exports(a, name);
    hide Exports;
    hide LinesOf;
  }

  /** Two exports of one variable with different values, none stored: the second value is lost. */
  lemma SecondExportIsLost(unquote: Unquote, s: State, name: string, slot: Slot<Key>, a: string, b: string)
    requires IsName(name) && '\n' !in a && '\n' !in b && s.zshrc == Join([a, b], "\n")
    requires LineValue(unquote, a, name) != "" && LineValue(unquote, b, name) != ""
    requires LineValue(unquote, a, name) != LineValue(unquote, b, name)
    requires Provider(name) !in s.store && s.archive == map[] && slot.base == Provider(name)
    ensures Held(unquote, s, Provider(name), LineValue(unquote, b, name))
    ensures !Held(unquote, MigratedVariable(unquote, s, name, slot), Provider(name), LineValue(unquote, b, name))
  {
    var v := LineValue(unquote, b, name);
    TwoLines(a, b);
    FirstOfTwo(unquote, s, name, a, b);
    AfterMigration(unquote, s, name, slot, v);
    hide MigratedVariable;
    hide LineValue;
    hide LinesOf;
    hide FirstValue;
    hide TrimSpace;
    assert b in LinesOf(s.zshrc);
    assert TrimSpace("") == "" by {
      TrimTrimmed("");
    }
  }
}
