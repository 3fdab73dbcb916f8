/** What is read out of a config text, on the text itself. */
module SafeDirectoryMeaning {
  import opened Wrappers
  import opened Text
  import opened GitConfig
  import opened GitConfigMeaning
  import opened SafeDirectory

  // ----- keys and values

  /** A line gives a key its value exactly if it starts with the key and, after one blank or none, an equals sign. */
  lemma KeyValueIff(line: string, key: string, v: string)
    ensures KeyValue(line, key) == Some(v) <==>
            exists rest :: (line == key + " =" + rest || (line == key + "=" + rest && !HasPrefix(line, key + " ="))) && v == TrimSpace(rest)
  {
    hide TrimSpace;
    if HasPrefix(line, key + " =") {
      Cut(line, key + " =");
      assert |key + " ="| == |key| + 2;
    }
    if HasPrefix(line, key + "=") {
      Cut(line, key + "=");
    }
    forall rest | line == key + " =" + rest
      ensures HasPrefix(line, key + " =") && line[|key| + 2..] == rest
    {
      assert line[..|key| + 2] == key + " =";
    }
    forall rest | line == key + "=" + rest
      ensures HasPrefix(line, key + "=") && line[|key| + 1..] == rest
    {
      assert line[..|key| + 1] == key + "=";
    }
  }

  lemma Cut(line: string, p: string)
    requires p <= line
    ensures line == p + line[|p|..]
  {
  }

  /** A value is trimmed; what follows hazmat's marker is a comment; and a quoted value is unquoted, if it can be. */
  lemma ValueMeans(ops: PathOps, value: string)
    requires !Managed(value)
    ensures var v := TrimSpace(value);
            NormalizeValue(ops, value) ==
            if v != "" && v[0] in "\"`'" && ops.unquote(v).Some? then TrimSpace(ops.unquote(v).value) else v
    ensures !Blank(value) ==>
              forall comment :: NormalizeValue(ops, value + " # hazmat-managed" + comment) == NormalizeValue(ops, value)
  {
    TrimmedUnmanaged(value);
    Unquoted(ops, value);
    if !Blank(value) {
      forall comment
        ensures NormalizeValue(ops, value + " # hazmat-managed" + comment) == NormalizeValue(ops, value)
      {
        CommentCut(ops, value, comment);
      }
    }
  }

  lemma TrimTwice(s: string)
    ensures TrimSpace(TrimSpace(s)) == TrimSpace(s)
  {
    TrimTrimmed(TrimSpace(s));
  }

  lemma Unquoted(ops: PathOps, value: string)
    requires FindSub(TrimSpace(value), MARKER) < 0
    ensures var v := TrimSpace(value);
            NormalizeValue(ops, value) ==
            if v != "" && v[0] in "\"`'" && ops.unquote(v).Some? then TrimSpace(ops.unquote(v).value) else v
  {
    TrimTwice(value);
    hide TrimSpace;
    hide FindSub;
  }

  /** A part of a text holds the marker only if the text does. */
  lemma PartHolds(value: string, a: nat, b: nat, j: nat)
    requires a <= b <= |value| && j <= b - a
    ensures MARKER <= value[a..b][j..] ==> MARKER <= value[a + j..]
  {
    assert value[a..b][j..] <= value[a + j..];
  }

  lemma PartUnmanaged(value: string, a: nat, b: nat)
    requires a <= b <= |value| && FindSub(value, MARKER) < 0
    ensures FindSub(value[a..b], MARKER) < 0
  {
    hide FindSub;
    forall j | 0 <= j <= b - a
      ensures !(MARKER <= value[a..b][j..])
    {
      PartHolds(value, a, b, j);
    }
  }

  lemma TrimmedUnmanaged(value: string)
    requires !Managed(value)
    ensures FindSub(TrimSpace(value), MARKER) < 0
  {
    var a, b := TrimIsMiddle(value);
    PartUnmanaged(value, a, b);
  }

  lemma MarkerFoundThen(entry: string, comment: string)
    requires FindSub(entry, MARKER) < 0
    ensures FindSub(entry + MARKER + comment, MARKER) == |entry|
  {
    MarkerFoundAtEnd(entry);
    hide FindSub;
    var shorter, s := entry + MARKER, entry + MARKER + comment;
    MarkerThere(entry, comment);
    var i := FindSub(s, MARKER);
    assert 0 <= i <= |entry|;
    SameStart(shorter, comment, i);
  }

  lemma MarkerThere(entry: string, comment: string)
    ensures MARKER <= (entry + MARKER + comment)[|entry|..]
  {
    assert (entry + MARKER + comment)[|entry|..] == MARKER + comment;
  }

  lemma SameStart(shorter: string, comment: string, i: nat)
    requires i + |MARKER| <= |shorter| && MARKER <= (shorter + comment)[i..]
    ensures MARKER <= shorter[i..]
  {
    assert (shorter + comment)[i..][..|MARKER|] == shorter[i..][..|MARKER|];
  }

  lemma CommentCut(ops: PathOps, value: string, comment: string)
    requires !Managed(value) && !Blank(value)
    ensures NormalizeValue(ops, value + " # hazmat-managed" + comment) == NormalizeValue(ops, value)
  {
    var entry, kept := CommentTrimmed(value, comment);
    TrimmedUnmanaged(value);
    MarkerFoundThen(entry, kept);
    hide *;
    SplitsAt(entry, kept);
    SameValue(ops, value + " # hazmat-managed" + comment, value, entry, entry + MARKER + kept);
  }

  lemma SplitsAt(entry: string, kept: string)
    ensures entry + (" # hazmat-managed" + kept) == entry + MARKER + kept
    ensures (entry + MARKER + kept)[..|entry|] == entry
  {
  }

  lemma SameValue(ops: PathOps, a: string, b: string, entry: string, trimmed: string)
    requires TrimSpace(a) == trimmed && FindSub(trimmed, MARKER) == |entry| <= |trimmed| && trimmed[..|entry|] == entry
    requires TrimSpace(entry) == TrimSpace(b) && FindSub(TrimSpace(b), MARKER) < 0
    ensures NormalizeValue(ops, a) == NormalizeValue(ops, b)
  {
    hide TrimSpace;
    hide FindSub;
  }

  /** Trimming a value with a comment trims the value in front and the comment behind. */
  lemma CommentTrimmed(value: string, comment: string) returns (entry: string, kept: string)
    requires !Managed(value) && !Blank(value)
    ensures TrimSpace(value + " # hazmat-managed" + comment) == entry + (" # hazmat-managed" + kept)
    ensures TrimSpace(entry) == TrimSpace(value) && FindSub(entry, MARKER) < 0
  {
    var a, b := TrimIsMiddle(value);
    assert a < b;
    hide *;
    entry := value[a..];
    SameTrim(value, a, b);
    PartUnmanaged(value, a, |value|);
    assert value[a..|value|] == entry;
    kept := KeptComment(value, a, comment);
  }

  lemma SameTrim(value: string, a: nat, b: nat)
    requires a < b <= |value| && TrimSpace(value) == value[a..b] && OnlySpace(value[b..])
    requires value[a] !in " \t\n\r\U{0B}\U{0C}" && value[b - 1] !in " \t\n\r\U{0B}\U{0C}"
    ensures TrimSpace(value[a..]) == TrimSpace(value)
  {
    var entry := value[a..];
    assert entry[..b - a] == value[a..b] && entry[b - a..] == value[b..] && entry[..0] == [];
    hide TrimSpace;
    TrimUnique(entry, 0, b - a);
  }

  lemma KeptComment(value: string, a: nat, comment: string) returns (kept: string)
    requires a < |value| && OnlySpace(value[..a]) && value[a] !in " \t\n\r\U{0B}\U{0C}"
    ensures TrimSpace(value + " # hazmat-managed" + comment) == value[a..] + (" # hazmat-managed" + kept)
  {
    var c := RightTrimmed(comment);
    kept := comment[..c];
    assert kept != "" ==> !IsSpace(kept[c - 1]);
    hide *;
    var w := " # hazmat-managed" + kept;
    LastOf(kept);
    assert value + " # hazmat-managed" + comment == value + w + comment[c..];
    TrimAround(value, a, w, comment[c..]);
  }

  lemma TrimAround(value: string, a: nat, w: string, tail: string)
    requires a < |value| && OnlySpace(value[..a]) && value[a] !in " \t\n\r\U{0B}\U{0C}"
    requires w != "" && w[|w| - 1] !in " \t\n\r\U{0B}\U{0C}" && OnlySpace(tail)
    ensures TrimSpace(value + w + tail) == value[a..] + w
  {
    hide TrimSpace;
    var s, n := value + w + tail, |value| + |w|;
    assert s[..a] == value[..a] && s[n..] == tail;
    TrimUnique(s, a, n);
    assert s[a..n] == value[a..] + w;
  }

  lemma LastOf(kept: string)
    requires kept != "" ==> !IsSpace(kept[|kept| - 1])
    ensures var s := " # hazmat-managed" + kept; s[|s| - 1] !in " \t\n\r\U{0B}\U{0C}"
  {
    var s := " # hazmat-managed" + kept;
    assert s[|s| - 1] == if kept == "" then 'd' else kept[|kept| - 1];
  }

  // ----- sections and repeats

  lemma IncludeIff(name: string)
    ensures IsInclude(name) <==> TrimSpace(name) == "include" || exists rest :: TrimSpace(name) == "includeIf " + rest
  {
    hide TrimSpace;
    var t := TrimSpace(name);
    if HasPrefix(t, "includeIf ") {
      Cut(t, "includeIf ");
    }
  }

  /** The values are those of the lines of the sections named safe, in order. */
  lemma {:induction false} ValuesOf(ops: PathOps, before: seq<Section>, s: Section, after: seq<Section>)
    ensures SectionValues(ops, before + [s] + after)
         == SectionValues(ops, before) + (if TrimSpace(s.name) == "safe" then LineValues(ops, s.lines) else [])
            + SectionValues(ops, after)
    ensures SectionValues(ops, []) == []
    decreases |before|
  {
    hide TrimSpace;
    hide LineValues;
    var all := before + [s] + after;
    if before == [] {
      assert all[0] == s && all[1..] == after;
    } else {
      assert all[0] == before[0] && all[1..] == before[1..] + [s] + after;
      ValuesOf(ops, before[1..], s, after);
    }
  }

  /** A line that does not set `directory`, or sets it to nothing, gives none. */
  lemma ValuesOfLines(ops: PathOps, before: Lines, line: string, after: Lines)
    ensures var here := match KeyValue(TrimSpace(line), "directory") case None => "" case Some(v) => NormalizeValue(ops, v);
            LineValues(ops, before + [line] + after) ==
            LineValues(ops, before) + (if here == "" then [] else [here]) + LineValues(ops, after)
    ensures LineValues(ops, []) == []
  {
    LineValuesAt(ops, before, line, after);
    hide TrimSpace;
    hide KeyValue;
    hide NormalizeValue;
  }

  lemma {:induction false} LineValuesAt(ops: PathOps, before: Lines, line: string, after: Lines)
    ensures LineValues(ops, before + [line] + after) ==
            LineValues(ops, before) + (if LineValue(ops, line) == "" then [] else [LineValue(ops, line)]) + LineValues(ops, after)
    decreases |before|
  {
    hide LineValue;
    var all := before + [line] + after;
    if before == [] {
      assert all[0] == line && all[1..] == after;
    } else {
      assert all[0] == before[0] && all[1..] == before[1..] + [line] + after;
      LineValuesAt(ops, before[1..], line, after);
    }
  }

  /** What is kept of a list stays in front, so each entry stands at its first place. */
  lemma {:induction false} DedupePrefix(ops: PathOps, a: seq<string>, b: seq<string>)
    ensures Dedupe(ops, a) <= Dedupe(ops, a + b)
    decreases |b|
  {
    hide Normalize;
    if b == [] {
      assert a + b == a;
    } else {
      var n := |b| - 1;
      assert (a + b)[..|a| + n] == a + b[..n];
      DedupePrefix(ops, a, b[..n]);
    }
  }
}
