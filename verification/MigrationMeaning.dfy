/** The steps of the migration on the text and the files themselves. */
module MigrationMeaning {
  import opened Wrappers
  import opened Text
  import opened Faults
  import opened CredentialLines
  import opened Migration
  import opened MigrationRuns

  // ---- exported lines -----------------------------------------------------------------------------------------

  lemma ExportsIff(line: string, name: string)
    ensures Exports(line, name) <==> exists rest :: TrimSpace(line) == "export " + name + "=" + rest
  {
    hide TrimSpace;
    var t, p := TrimSpace(line), "export " + name + "=";
    if HasPrefix(t, p) {
      assert t == p + t[|p|..];
    }
    if rest :| t == p + rest {
      assert t[..|p|] == p;
    }
  }

  /** The value of an exported line: what follows the equals sign, trimmed and unquoted, or without the quotes at its ends
      when it cannot be unquoted. */
  lemma ValueReads(unquote: Unquote, line: string, name: string, rest: string)
    requires TrimSpace(line) == "export " + name + "=" + rest
    ensures Blank(rest) ==> LineValue(unquote, line, name) == ""
    ensures !Blank(rest) ==>
              LineValue(unquote, line, name) ==
              TrimSpace(if unquote(TrimSpace(rest)).Some? then unquote(TrimSpace(rest)).value else TrimQuotes(TrimSpace(rest)))
  {
    var t, p := TrimSpace(line), "export " + name + "=";
    assert t[..|p|] == p && t[|p|..] == rest;
    hide TrimSpace;
    hide TrimQuotes;
  }

  lemma NoValue(unquote: Unquote, line: string, name: string)
    requires forall rest :: TrimSpace(line) != "export " + name + "=" + rest
    ensures LineValue(unquote, line, name) == ""
  {
    ExportsIff(line, name);
    hide Exports;
    hide TrimSpace;
    hide TrimQuotes;
  }

  predicate OnlyQuotes(s: string) {
    forall i :: 0 <= i < |s| ==> s[i] == '"' || s[i] == '\''
  }

  /** Without quotes around it, `s[a..b]` is what is left of `s`. */
  predicate Middle(s: string, a: nat, b: nat) {
    && a <= b <= |s| && OnlyQuotes(s[..a]) && OnlyQuotes(s[b..])
    && (a < b ==> s[a] !in "\"'" && s[b - 1] !in "\"'")
  }

  lemma QuoteInFront(c: char, s: string, a: nat, b: nat)
    requires IsQuote(c) && Middle(s, a, b)
    ensures Middle([c] + s, a + 1, b + 1) && ([c] + s)[a + 1..b + 1] == s[a..b]
  {
    assert ([c] + s)[..a + 1] == [c] + s[..a] && ([c] + s)[b + 1..] == s[b..];
  }

  lemma QuoteBehind(s: string, c: char, a: nat, b: nat)
    requires IsQuote(c) && Middle(s, a, b)
    ensures Middle(s + [c], a, b) && (s + [c])[a..b] == s[a..b]
  {
    assert (s + [c])[..a] == s[..a] && (s + [c])[b..] == s[b..] + [c];
  }

  /** All quotes at either end go, and nothing else. */
  lemma {:induction false} TrimQuotesIsMiddle(s: string) returns (a: nat, b: nat)
    ensures Middle(s, a, b) && TrimQuotes(s) == s[a..b]
    decreases |s|
  {
    hide Middle;
    if s != "" && IsQuote(s[0]) {
      a, b := TrimQuotesIsMiddle(s[1..]);
      QuoteInFront(s[0], s[1..], a, b);
      assert s == [s[0]] + s[1..];
      a, b := a + 1, b + 1;
    } else if s != "" && IsQuote(s[|s| - 1]) {
      var n := |s| - 1;
      a, b := TrimQuotesIsMiddle(s[..n]);
      QuoteBehind(s[..n], s[n], a, b);
      assert s == s[..n] + [s[n]];
    } else {
      a, b := 0, |s|;
      NoQuotes(s);
    }
  }

  lemma NoQuotes(s: string)
    requires s != "" ==> !IsQuote(s[0]) && !IsQuote(s[|s| - 1])
    ensures Middle(s, 0, |s|)
  {
  }

  /** The line that counts is the first one that exports the variable. */
  lemma {:induction false} FirstIsFirst(before: seq<string>, line: string, after: seq<string>, name: string)
    requires (forall l :: l in before ==> !Exports(l, name)) && Exports(line, name)
    ensures FirstExport(before + [line] + after, name) == Some(line)
    decreases |before|
  {
    hide Exports;
    var all := before + [line] + after;
    if before == [] {
      assert all[0] == line;
    } else {
      assert all[0] == before[0] && all[1..] == before[1..] + [line] + after;
      FirstIsFirst(before[1..], line, after, name);
    }
  }

  /** Removing a variable's exports keeps every other line, each in its place. */
  lemma {:induction false} WithoutOf(before: seq<string>, line: string, after: seq<string>, name: string)
    ensures WithoutExports([], name) == []
    ensures WithoutExports(before + [line] + after, name)
         == WithoutExports(before, name) + (if Exports(line, name) then [] else [line]) + WithoutExports(after, name)
    decreases |before|
  {
    hide Exports;
    var all := before + [line] + after;
    if before == [] {
      assert all[0] == line && all[1..] == after;
    } else {
      assert all[0] == before[0] && all[1..] == before[1..] + [line] + after;
      WithoutOf(before[1..], line, after, name);
    }
  }

  /** And these are the lines of the file afterwards; a file of nothing else is empty. */
  lemma RewriteReads(zshrc: string, name: string)
    ensures var left := WithoutExports(Split(zshrc, '\n'), name);
            Split(Rewrite(zshrc, name), '\n') == if left == [] then [""] else left
  {
    var lines := Split(zshrc, '\n');
    var left := WithoutExports(lines, name);
    WithoutExportsHolds(lines, name);
    forall i | 0 <= i < |left|
      ensures '\n' !in left[i]
    {
      assert left[i] in left;
      assert left[i] in lines;
    }
    hide WithoutExports;
    hide Split;
    assert "\n" == ['\n'];
    if left != [] {
      SplitJoin(left, '\n');
    } else {
      SplitNone("", '\n');
    }
  }

  // ---- keeping a value ----------------------------------------------------------------------------------------

  /** A value goes to the store when nothing is there: no entry at all for the cloud secret, nothing but space for the
      others. The same value stays as it is; a different one is archived at the first free path of the stamp. */
  lemma KeptIs(s: State, key: Key, v: string, stamp: string) returns (slot: Slot<Key>)
    ensures var stored := if key in s.store then s.store[key] else "";
            var free := if key == CloudSecret then key !in s.store else Blank(stored);
            Kept(s, key, v, stamp) ==
            if free then s.(store := s.store[key := v + "\n"])
            else if TrimSpace(stored) == v then s
            else s.(archive := s.archive[slot := v + "\n"])
    ensures slot.base == key && slot.stamp == stamp && slot !in s.archive
    ensures forall m: nat :: m < slot.n ==> Slot(key, stamp, m) in s.archive
  {
    slot := FreeSlot(s.archive.Keys, key, stamp, 0);
    FreeSlotIs(s.archive.Keys, key, stamp, 0);
    hide FreeSlot;
    hide TrimSpace;
  }

  lemma {:induction false} FreeSlotIs<K(!new)>(taken: set<Slot<K>>, base: K, stamp: string, n: nat)
    ensures var slot := FreeSlot(taken, base, stamp, n);
            && slot.base == base && slot.stamp == stamp && slot !in taken && slot.n >= n
            && forall m: nat :: n <= m < slot.n ==> Slot(base, stamp, m) in taken
    decreases TakenFrom(taken, base, stamp, n)
  {
    if Slot(base, stamp, n) in taken {
      assert Slot(base, stamp, n) in TakenFrom(taken, base, stamp, n);
      assert Slot(base, stamp, n) !in TakenFrom(taken, base, stamp, n + 1);
      FreeSlotIs(taken, base, stamp, n + 1);
    }
  }

  // ---- the steps of one variable ------------------------------------------------------------------------------

  /** The exports file is read, opened for writing, which empties it, and written. A failed read counts as an empty
      file; what was opened and not written stays empty. */
  lemma RewriteOutcomes(s: State, name: string, script: Script)
    ensures var r := RewriteRun(s, name, script);
            && (|script| < 2 || !script[1] ==> r.files == s)
            && (|script| >= 2 && script[1] && (|script| == 2 || !script[2]) ==> r.files == s.(zshrc := ""))
            && (|script| >= 3 && script[1] && script[2] ==>
                  r.files == s.(zshrc := if script[0] then Rewrite(s.zshrc, name) else "") && r.outcome == Done)
            && (r.outcome == Done ==> |script| >= 3 && script[1] && script[2])
            && (r.outcome == Stopped <==> |script| < 2 || (script[1] && |script| == 2))
  {
    EmptyRewrite(name);
    hide Rewrite;
  }

  lemma EmptyRewrite(name: string)
    ensures Rewrite("", name) == ""
  {
    NothingExported(name);
    hide Exports;
    assert Split("", '\n') == [""];
    assert WithoutExports([""], name) == [""] + WithoutExports([], name);
  }

  /** One variable: an exports file or a store that cannot be read leaves it alone, and so does a variable that is not
      exported, an export without a value and a dry run; otherwise the first exported value is kept and only then are
      the exports removed. */
  lemma VariableSteps(unquote: Unquote, s: State, name: string, dryRun: bool, stamp: string, script: Script)
    ensures var r, v := VariableRun(unquote, s, name, dryRun, stamp, script), FirstValue(unquote, s, name);
            && (|script| < 2 || !script[0] || !script[1] || v == "" || dryRun ==> r.files == s)
            && (|script| >= 2 && script[0] && script[1] && v != "" && !dryRun ==>
                  var kept := KeepRun(s, Provider(name), v, stamp, script[2..]);
                  r.files == (if kept.outcome == Done then RewriteRun(kept.files, name, kept.script).files else kept.files))
            && (r.actions > 0 ==> |script| >= 2 && script[0] && script[1] && v != "")
            && (|script| >= 2 && script[0] && script[1] && v != "" && dryRun ==> r.actions == 1)
  {
    hide Exports;
    hide LineValue;
    hide KeepRun;
    hide RewriteRun;
    if |script| >= 2 {
      assert script[1..][1..] == script[2..];
    }
  }

  /** Every variable has its turn, in order and on what those before it left, whether they failed or not, unless the
      process stops; what is counted adds up. */
  lemma VariablesInTurn(unquote: Unquote, s: State, names: seq<string>, dryRun: bool, stamp: string, script: Script)
    requires names != []
    ensures var one := VariableRun(unquote, s, names[0], dryRun, stamp, script);
            var rest := VariablesRun(unquote, one.files, names[1..], dryRun, stamp, one.script);
            var all := VariablesRun(unquote, s, names, dryRun, stamp, script);
            if one.outcome == Stopped then all == one
            else
              && all.files == rest.files && all.script == rest.script && all.outcome == rest.outcome
              && all.actions == one.actions + rest.actions && all.problems == one.problems + rest.problems
              && all.unread == one.unread + rest.unread
  {
    hide VariableRun;
  }

  /** Keeping takes one write, and none when the value is there already; a write that fails changes nothing. */
  lemma KeepSteps(s: State, key: Key, v: string, stamp: string, script: Script)
    requires v != ""
    ensures var r, there := KeepRun(s, key, v, stamp, script), key in s.store && TrimSpace(s.store[key]) == v;
            && (r.outcome == Done <==> there || (script != [] && script[0]))
            && r.files == (if r.outcome == Done then Kept(s, key, v, stamp) else s)
            && r.script == (if there then script else After(script))
  {
    hide FreeSlot;
    hide TrimSpace;
  }

  // ---- lines --------------------------------------------------------------------------------------------------

  /** Of `list` what is not in `known`. */
  function NotIn(list: seq<string>, known: seq<string>): seq<string> {
    if list == [] then []
    else NotIn(list[..|list| - 1], known) + if list[|list| - 1] in known then [] else [list[|list| - 1]]
  }

  lemma NotInStep(list: seq<string>, x: string, known: seq<string>)
    ensures NotIn([], known) == []
    ensures NotIn(list + [x], known) == NotIn(list, known) + if x in known then [] else [x]
  {
    assert (list + [x])[..|list|] == list;
  }

  lemma {:induction false} UniqueConcat(a: seq<string>, b: seq<string>)
    ensures Unique(a + b) == Unique(a) + NotIn(Unique(b), Unique(a))
    decreases |b|
  {
    UniqueOfNone();
    hide Unique;
    hide NotIn;
    if b == [] {
      assert a + b == a;
      NotInStep([], "", Unique(a));
      assert Unique(a) + [] == Unique(a);
    } else {
      var n := |b| - 1;
      UniqueConcat(a, b[..n]);
      UniqueConcatStep(a, b[..n], b[n]);
      assert b == b[..n] + [b[n]] && a + b == (a + b[..n]) + [b[n]];
    }
  }

  lemma UniqueOfNone()
    ensures Unique([]) == []
  {
  }

  lemma UniqueConcatStep(a: seq<string>, b: seq<string>, x: string)
    requires Unique(a + b) == Unique(a) + NotIn(Unique(b), Unique(a))
    ensures Unique((a + b) + [x]) == Unique(a) + NotIn(Unique(b + [x]), Unique(a))
  {
    UniqueStep(a + b, x);
    UniqueStep(b, x);
    NotInHolds(Unique(b), Unique(a), x);
    NotInStep(Unique(b), x, Unique(a));
    hide Unique;
    hide NotIn;
  }

  lemma {:induction false} NotInHolds(list: seq<string>, known: seq<string>, x: string)
    ensures x in NotIn(list, known) <==> x in list && x !in known
  {
    if list != [] {
      NotInHolds(list[..|list| - 1], known, x);
      assert list == list[..|list| - 1] + [list[|list| - 1]];
    }
  }

  /** The merged file: the existing lines, then the legacy ones that are not among them, each in order and once. */
  lemma MergeIs(existing: string, legacy: string)
    ensures Merge(existing, legacy) == Join(Items(existing) + NotIn(Items(legacy), Items(existing)), "\n")
  {
    UniqueConcat(TrimAll(Split(existing, '\n')), TrimAll(Split(legacy, '\n')));
    hide Split;
    hide Join;
    hide Unique;
    hide NotIn;
    hide TrimAll;
  }

  /** The items of a file are its lines, trimmed, without blank ones. */
  lemma ItemsAre(text: string, l: string)
    ensures l in Items(text) <==> l != "" && exists i :: 0 <= i < |Split(text, '\n')| && TrimSpace(Split(text, '\n')[i]) == l
  {
    var lines := Split(text, '\n');
    MembersOf(TrimAll(lines));
    TrimmedAt(lines, l);
    assert Items(text) == Unique(TrimAll(lines));
  }

  lemma TrimmedAt(lines: seq<string>, l: string)
    ensures l in TrimAll(lines) <==> exists i :: 0 <= i < |lines| && TrimSpace(lines[i]) == l
  {
    hide TrimSpace;
    var all := TrimAll(lines);
    if l in all {
      var i :| 0 <= i < |all| && all[i] == l;
      assert TrimSpace(lines[i]) == l;
    }
    if i :| 0 <= i < |lines| && TrimSpace(lines[i]) == l {
      assert all[i] == l;
    }
  }

  lemma MembersOf(list: seq<string>)
    ensures forall l :: l in Unique(list) <==> l != "" && l in list
  {
    UniqueHolds(list);
  }
}
