/** Credential store files as lists of trimmed lines, and the merge of two of them. */
module CredentialLines {
  import opened Text

  function TrimAll(lines: seq<string>): seq<string> {
    seq(|lines|, i requires 0 <= i < |lines| => TrimSpace(lines[i]))
  }

  /** The nonblank lines of a text, trimmed, repeated ones once. */
  function Items(text: string): seq<string> {
    Unique(TrimAll(Split(text, '\n')))
  }

  /** `mergeGitCredentialStoreLines` */
  function Merge(existing: string, legacy: string): string {
    Join(Unique(TrimAll(Split(existing, '\n')) + TrimAll(Split(legacy, '\n'))), "\n")
  }

  lemma AddOne(before: seq<string>, raw: seq<string>, i: nat)
    requires i < |raw|
    ensures Unique(before + TrimAll(raw[..i + 1])) ==
            var list, x := Unique(before + TrimAll(raw[..i])), TrimSpace(raw[i]);
            if x == "" || x in list then list else list + [x]
  {
    hide TrimSpace;
    assert before + TrimAll(raw[..i + 1]) == (before + TrimAll(raw[..i])) + [TrimSpace(raw[i])];
    UniqueStep(before + TrimAll(raw[..i]), TrimSpace(raw[i]));
  }

  method AddLines(text: string, seen0: set<string>, lines0: seq<string>, ghost before: seq<string>)
    returns (seen: set<string>, lines: seq<string>)
    requires lines0 == Unique(before) && forall l :: l in seen0 <==> l in lines0
    ensures lines == Unique(before + TrimAll(Split(text, '\n'))) && forall l :: l in seen <==> l in lines
  {
    var raw := Split(text, '\n');
    seen, lines := seen0, lines0;
    assert before + TrimAll(raw[..0]) == before;
    hide *;
    for i := 0 to |raw|
      invariant lines == Unique(before + TrimAll(raw[..i]))
      invariant forall l :: l in seen <==> l in lines
    {
      var line := TrimSpace(raw[i]);
      AddOne(before, raw, i);
      if line == "" {
        continue;
      }
      if line in seen {
        continue;
      }
      seen := seen + {line};
      lines := lines + [line];
    }
    assert raw[..|raw|] == raw;
  }

  lemma UniqueStep(list: seq<string>, x: string)
    ensures Unique(list + [x]) == if x == "" || x in Unique(list) then Unique(list) else Unique(list) + [x]
  {
    assert (list + [x])[..|list|] == list;
  }

  method MergeGitCredentialStoreLines(existing: string, legacy: string) returns (merged: string)
    ensures merged == Merge(existing, legacy)
  {
    hide TrimAll;
    hide Split;
    var seen, lines := AddLines(existing, {}, [], []);
    assert [] + TrimAll(Split(existing, '\n')) == TrimAll(Split(existing, '\n'));
    seen, lines := AddLines(legacy, seen, lines, TrimAll(Split(existing, '\n')));
    return Join(lines, "\n");
  }

  // ---- spaces around a text do not matter ---------------------------------------------------------------------

  /** What appending a character does to a split text. */
  function Appended(parts: seq<string>, c: char, sep: char): seq<string>
    requires parts != []
  {
    if c == sep then parts + [""] else parts[..|parts| - 1] + [parts[|parts| - 1] + [c]]
  }

  lemma SplitCons(s: string, c: char, sep: char)
    ensures Split([c] + s, sep) ==
            if c == sep then [""] + Split(s, sep) else [[c] + Split(s, sep)[0]] + Split(s, sep)[1..]
  {
    assert ([c] + s)[1..] == s;
  }

  lemma SplitOne(c: char, sep: char)
    ensures Split([c], sep) == Appended([""], c, sep)
  {
    SplitCons("", c, sep);
    assert [c] + "" == [c] && "" + [c] == [c];
    assert Split("", sep) == [""];
  }

  lemma ConsAppended(rest: seq<string>, first: char, c: char, sep: char)
    requires rest != []
    ensures Appended([""] + rest, c, sep) == [""] + Appended(rest, c, sep)
    ensures Appended([[first] + rest[0]] + rest[1..], c, sep) ==
            [[first] + Appended(rest, c, sep)[0]] + Appended(rest, c, sep)[1..]
  {
    if c != sep && |rest| == 1 {
      assert [first] + (rest[0] + [c]) == ([first] + rest[0]) + [c];
    }
  }

  lemma {:induction false} SplitAppend(s: string, c: char, sep: char)
    ensures Split(s + [c], sep) == Appended(Split(s, sep), c, sep)
  {
    if s == "" {
      assert s + [c] == [c];
      SplitOne(c, sep);
      assert Split("", sep) == [""];
    } else {
      var rest := Split(s[1..], sep);
      SplitAppend(s[1..], c, sep);
      SplitCons(s[1..], s[0], sep);
      SplitCons(s[1..] + [c], s[0], sep);
      hide Split;
      hide Appended;
      assert [s[0]] + s[1..] == s;
      assert [s[0]] + (s[1..] + [c]) == s + [c];
      ConsAppended(rest, s[0], c, sep);
    }
  }

  lemma TrimLeading(s: string, c: char)
    requires IsSpace(c)
    ensures TrimSpace([c] + s) == TrimSpace(s)
  {
    assert ([c] + s)[1..] == s;
  }

  lemma {:induction false} TrimLeftAppend(s: string, c: char)
    requires IsSpace(c)
    ensures TrimLeft(s + [c]) == if Blank(s) then "" else TrimLeft(s) + [c]
  {
    if s == "" {
      assert s + [c] == [c];
      assert [c][1..] == "";
    } else if IsSpace(s[0]) {
      assert (s + [c])[1..] == s[1..] + [c];
      assert Blank(s) <==> Blank(s[1..]);
      TrimLeftAppend(s[1..], c);
    }
  }

  lemma TrimTrailing(s: string, c: char)
    requires IsSpace(c)
    ensures TrimSpace(s + [c]) == TrimSpace(s)
  {
    TrimLeftAppend(s, c);
    if !Blank(s) {
      var l := TrimLeft(s);
      assert (l + [c])[..|l|] == l;
    }
  }

  /** Equal up to empty strings. */
  function Filled(list: seq<string>): seq<string> {
    if list == [] then []
    else Filled(list[..|list| - 1]) + if list[|list| - 1] == "" then [] else [list[|list| - 1]]
  }

  lemma {:induction false} UniqueOfFilled(list: seq<string>)
    ensures Unique(Filled(list)) == Unique(list)
  {
    if list != [] {
      var rest, last := list[..|list| - 1], list[|list| - 1];
      UniqueOfFilled(rest);
      assert list == rest + [last];
      UniqueStep(rest, last);
      if last != "" {
        UniqueStep(Filled(rest), last);
      } else {
        assert Filled(rest) + [] == Filled(rest);
      }
    }
  }

  lemma {:induction false} FilledConcat(a: seq<string>, b: seq<string>)
    ensures Filled(a + b) == Filled(a) + Filled(b)
  {
    if b == [] {
      assert a + b == a;
    } else {
      assert (a + b)[..|a + b| - 1] == a + b[..|b| - 1];
      FilledConcat(a, b[..|b| - 1]);
    }
  }

  /** The nonblank lines, trimmed, with repetitions. */
  function Lines(text: string): seq<string> {
    Filled(TrimAll(Split(text, '\n')))
  }

  lemma EmptyAddsNothing()
    ensures TrimSpace("") == "" && Filled([""]) == []
  {
    TrimTrimmed("");
  }

  lemma LeadingSpace(s: string, c: char)
    requires IsSpace(c)
    ensures Lines([c] + s) == Lines(s)
  {
    var rest := Split(s, '\n');
    SplitCons(s, c, '\n');
    EmptyAddsNothing();
    hide TrimSpace;
    hide Split;
    hide Filled;
    if c == '\n' {
      FilledConcat([""], TrimAll(rest));
      assert TrimAll([""] + rest) == [""] + TrimAll(rest);
      assert [] + Filled(TrimAll(rest)) == Filled(TrimAll(rest));
    } else {
      TrimLeading(rest[0], c);
      assert TrimAll([[c] + rest[0]] + rest[1..]) == TrimAll(rest);
    }
  }

  lemma TrailingSpace(s: string, c: char)
    requires IsSpace(c)
    ensures Lines(s + [c]) == Lines(s)
  {
    var rest := Split(s, '\n');
    SplitAppend(s, c, '\n');
    hide TrimSpace;
    hide Split;
    if c == '\n' {
      FilledConcat(TrimAll(rest), [""]);
      assert TrimSpace("") == "" by {
        TrimTrimmed("");
      }
      assert TrimAll(rest + [""]) == TrimAll(rest) + [""];
      assert Filled([""]) == [];
    } else {
      TrimTrailing(rest[|rest| - 1], c);
      assert TrimAll(rest[..|rest| - 1] + [rest[|rest| - 1] + [c]]) == TrimAll(rest);
    }
  }

  lemma {:induction false} LinesTrimLeft(s: string)
    ensures Lines(TrimLeft(s)) == Lines(s)
  {
    hide Lines;
    if s != "" && IsSpace(s[0]) {
      LinesTrimLeft(s[1..]);
      LeadingSpace(s[1..], s[0]);
      assert [s[0]] + s[1..] == s;
    }
  }

  lemma {:induction false} LinesTrimRight(s: string)
    ensures Lines(TrimRight(s)) == Lines(s)
  {
    hide Lines;
    if s != "" && IsSpace(s[|s| - 1]) {
      LinesTrimRight(s[..|s| - 1]);
      TrailingSpace(s[..|s| - 1], s[|s| - 1]);
      assert s[..|s| - 1] + [s[|s| - 1]] == s;
    }
  }

  lemma LinesTrim(s: string)
    ensures Lines(TrimSpace(s)) == Lines(s)
  {
    LinesTrimLeft(s);
    LinesTrimRight(TrimLeft(s));
  }

  lemma ItemsAreLines(text: string)
    ensures Items(text) == Unique(Lines(text))
  {
    UniqueOfFilled(TrimAll(Split(text, '\n')));
  }

  // ---- what the merge holds -----------------------------------------------------------------------------------

  predicate IsItem(l: string) {
    l != "" && '\n' !in l && Trimmed(l)
  }

  lemma {:induction false} TrimKeepsOut(s: string, c: char)
    requires c !in s
    ensures c !in TrimSpace(s)
  {
    TrimLeftKeepsOut(s, c);
    var l := TrimLeft(s);
    assert TrimRight(l) <= l;
  }

  lemma {:induction false} TrimLeftKeepsOut(s: string, c: char)
    requires c !in s
    ensures c !in TrimLeft(s)
  {
    if s != "" && IsSpace(s[0]) {
      TrimLeftKeepsOut(s[1..], c);
    }
  }

  lemma TrimmedLinesAreItems(text: string)
    ensures forall l :: l in TrimAll(Split(text, '\n')) && l != "" ==> IsItem(l)
  {
    var raw := Split(text, '\n');
    forall i | 0 <= i < |raw| && TrimAll(raw)[i] != ""
      ensures IsItem(TrimAll(raw)[i])
    {
      TrimKeepsOut(raw[i], '\n');
    }
  }

  lemma {:induction false} TrimAllItems(items: seq<string>)
    requires forall l :: l in items ==> IsItem(l)
    ensures TrimAll(items) == items
  {
    forall i | 0 <= i < |items|
      ensures TrimSpace(items[i]) == items[i]
    {
      assert items[i] in items;
      TrimTrimmed(items[i]);
    }
  }

  lemma {:induction false} FilledAll(list: seq<string>)
    requires "" !in list
    ensures Filled(list) == list
  {
    if list != [] {
      FilledAll(list[..|list| - 1]);
      assert list == list[..|list| - 1] + [list[|list| - 1]];
    }
  }

  /** A text written from a list of items reads back as that list. */
  lemma ItemsReadBack(items: seq<string>)
    requires forall l :: l in items ==> IsItem(l)
    ensures Lines(Join(items, "\n")) == items
  {
    hide TrimSpace;
    if items == [] {
      assert Split("", '\n') == [""];
      assert TrimSpace("") == "" by {
        TrimTrimmed("");
      }
      assert TrimAll([""]) == [""];
      assert Filled([""]) == [];
    } else {
      forall i | 0 <= i < |items|
        ensures '\n' !in items[i]
      {
        assert items[i] in items;
      }
      SplitJoin(items, '\n');
      assert ['\n'] == "\n";
      TrimAllItems(items);
      FilledAll(items);
    }
  }

  lemma {:induction false} UniqueTwice(list: seq<string>)
    requires "" !in list && forall i, j :: 0 <= i < j < |list| ==> list[i] != list[j]
    ensures Unique(list) == list
  {
    if list != [] {
      var rest, last := list[..|list| - 1], list[|list| - 1];
      UniqueTwice(rest);
      assert list == rest + [last];
    }
  }

  lemma {:induction false} UniqueExtends(a: seq<string>, b: seq<string>)
    ensures Unique(a) <= Unique(a + b)
  {
    if b == [] {
      assert a + b == a;
    } else {
      var c, last := b[..|b| - 1], b[|b| - 1];
      UniqueExtends(a, c);
      assert a + b == (a + c) + [last];
      UniqueStep(a + c, last);
    }
  }

  /** The merge holds the lines of both files, each once, those of the existing file first and in their order. */
  lemma MergeHolds(existing: string, legacy: string)
    ensures forall l :: l in Items(Merge(existing, legacy)) <==> l in Items(existing) || l in Items(legacy)
    ensures Items(existing) <= Items(Merge(existing, legacy))
  {
    var a, b := TrimAll(Split(existing, '\n')), TrimAll(Split(legacy, '\n'));
    TrimmedLinesAreItems(existing);
    TrimmedLinesAreItems(legacy);
    UniqueHolds(a);
    UniqueHolds(b);
    UniqueHolds(a + b);
    var items := Unique(a + b);
    hide TrimAll;
    hide IsItem;
    hide Unique;
    hide Split;
    assert forall l :: l in items ==> l in a || l in b;
    ItemsReadBack(items);
    ItemsAreLines(Merge(existing, legacy));
    UniqueTwice(items);
    UniqueExtends(a, b);
  }

  /** Spaces at the ends of a file add and remove no line. */
  lemma ItemsTrim(text: string)
    ensures Items(TrimSpace(text)) == Items(text)
  {
    ItemsAreLines(text);
    ItemsAreLines(TrimSpace(text));
    LinesTrim(text);
  }

  lemma ItemsNewline(text: string)
    ensures Items(text + "\n") == Items(text)
  {
    ItemsAreLines(text);
    ItemsAreLines(text + "\n");
    TrailingSpace(text, '\n');
    assert text + "\n" == text + ['\n'];
  }
}
