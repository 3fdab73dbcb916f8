/** The string operations of Go's `strings` package that the models need, over ASCII text. */
module Text {
  predicate IsSpace(c: char) {
    c in {' ', '\t', '\n', '\r', '\U{0B}', '\U{0C}'}
  }

  predicate HasPrefix(s: string, p: string) {
    p <= s
  }

  predicate HasSuffix(s: string, p: string) {
    |p| <= |s| && s[|s| - |p|..] == p
  }

  predicate Blank(s: string) {
    forall i :: 0 <= i < |s| ==> IsSpace(s[i])
  }

  function TrimLeft(s: string): (r: string)
    ensures |r| <= |s|
    ensures r != "" ==> !IsSpace(r[0]) && r[|r| - 1] == s[|s| - 1]
    ensures r == "" <==> Blank(s)
  {
    if s != "" && IsSpace(s[0]) then
      assert Blank(s) <==> Blank(s[1..]) by {
        assert s == [s[0]] + s[1..];
      }
      TrimLeft(s[1..])
    else s
  }

  function TrimRight(s: string): (r: string)
    ensures HasPrefix(s, r)
    ensures r != "" ==> !IsSpace(r[|r| - 1])
    ensures r == "" <==> Blank(s)
  {
    if s != "" && IsSpace(s[|s| - 1]) then
      assert Blank(s) <==> Blank(s[..|s| - 1]);
      TrimRight(s[..|s| - 1])
    else s
  }

  function TrimSpace(s: string): (r: string)
    ensures r == "" <==> Blank(s)
    ensures r != "" ==> !IsSpace(r[0]) && !IsSpace(r[|r| - 1])
  {
    TrimRight(TrimLeft(s))
  }

  /** Text without space at either end. */
  predicate Trimmed(s: string) {
    s == "" || (!IsSpace(s[0]) && !IsSpace(s[|s| - 1]))
  }

  lemma TrimTrimmed(s: string)
    requires Trimmed(s)
    ensures TrimSpace(s) == s
  {
  }

  predicate OnlySpace(s: string) {
    forall i :: 0 <= i < |s| ==> s[i] in " \t\n\r\U{0B}\U{0C}"
  }

  lemma {:induction false} LeftTrimmed(s: string) returns (a: nat)
    ensures a <= |s| && s[a..] == TrimLeft(s) && OnlySpace(s[..a])
  {
    if s != "" && IsSpace(s[0]) {
      var b := LeftTrimmed(s[1..]);
      a := b + 1;
      assert s[..a] == [s[0]] + s[1..][..b];
    } else {
      a := 0;
    }
  }

  lemma {:induction false} RightTrimmed(s: string) returns (b: nat)
    ensures b <= |s| && s[..b] == TrimRight(s) && OnlySpace(s[b..])
  {
    if s != "" && IsSpace(s[|s| - 1]) {
      b := RightTrimmed(s[..|s| - 1]);
      assert s[b..] == s[..|s| - 1][b..] + [s[|s| - 1]];
    } else {
      b := |s|;
    }
  }

  /** What is trimmed is all the space at either end and nothing else. */
  lemma TrimIsMiddle(s: string) returns (a: nat, b: nat)
    ensures a <= b <= |s| && TrimSpace(s) == s[a..b]
    ensures OnlySpace(s[..a]) && OnlySpace(s[b..])
    ensures a < b ==> s[a] !in " \t\n\r\U{0B}\U{0C}" && s[b - 1] !in " \t\n\r\U{0B}\U{0C}"
  {
    hide TrimLeft;
    hide TrimRight;
    a := LeftTrimmed(s);
    var n := RightTrimmed(s[a..]);
    b := a + n;
    Slices(s, a, n);
    assert a < b ==> TrimSpace(s)[0] == s[a] && TrimSpace(s)[b - a - 1] == s[b - 1];
  }

  lemma OutsideIsSpace(s: string, m: nat, n: nat)
    requires m <= n <= |s| && OnlySpace(s[..m]) && OnlySpace(s[n..])
    ensures forall k :: 0 <= k < m || n <= k < |s| ==> s[k] in " \t\n\r\U{0B}\U{0C}"
  {
    forall k | 0 <= k < m || n <= k < |s|
      ensures s[k] in " \t\n\r\U{0B}\U{0C}"
    {
      if k < m {
        assert s[k] == s[..m][k];
      } else {
        assert s[k] == s[n..][k - n];
      }
    }
  }

  /** A part with no space at its ends and only space around it is what is left. */
  lemma TrimUnique(s: string, x: nat, y: nat)
    requires x < y <= |s| && OnlySpace(s[..x]) && OnlySpace(s[y..])
    requires s[x] !in " \t\n\r\U{0B}\U{0C}" && s[y - 1] !in " \t\n\r\U{0B}\U{0C}"
    ensures TrimSpace(s) == s[x..y]
  {
    var a, b := TrimIsMiddle(s);
    hide TrimSpace;
    OutsideIsSpace(s, a, b);
    OutsideIsSpace(s, x, y);
    assert a <= x < b && a < y <= b;
    assert x <= a && b <= y;
  }

  lemma Slices(s: string, a: nat, n: nat)
    requires a + n <= |s|
    ensures s[a..][..n] == s[a..a + n] && s[a..][n..] == s[a + n..]
  {
  }

  /** `strings.Split` on a one-character separator: always at least one part. */
  function Split(s: string, sep: char): (parts: seq<string>)
    ensures parts != []
    ensures forall i :: 0 <= i < |parts| ==> sep !in parts[i]
  {
    if s == "" then [""]
    else
      var rest := Split(s[1..], sep);
      if s[0] == sep then [""] + rest else [[s[0]] + rest[0]] + rest[1..]
  }

  function Join(parts: seq<string>, sep: string): string {
    if parts == [] then ""
    else if |parts| == 1 then parts[0]
    else parts[0] + sep + Join(parts[1..], sep)
  }

  lemma {:induction false} SplitHead(p: string, rest: string, sep: char)
    requires sep !in p
    ensures Split(p + [sep] + rest, sep) == [p] + Split(rest, sep)
  {
    var s := p + [sep] + rest;
    if p == "" {
      assert s[1..] == rest;
    } else {
      assert s[1..] == p[1..] + [sep] + rest;
      SplitHead(p[1..], rest, sep);
      assert [s[0]] + p[1..] == p;
    }
  }

  lemma {:induction false} SplitNone(p: string, sep: char)
    requires sep !in p
    ensures Split(p, sep) == [p]
  {
    if p != "" {
      SplitNone(p[1..], sep);
      assert [p[0]] + p[1..] == p;
    }
  }

  /** Splitting undoes joining. */
  lemma {:induction false} SplitJoin(parts: seq<string>, sep: char)
    requires parts != []
    requires forall i :: 0 <= i < |parts| ==> sep !in parts[i]
    ensures Split(Join(parts, [sep]), sep) == parts
  {
    if |parts| == 1 {
      SplitNone(parts[0], sep);
    } else {
      SplitJoin(parts[1..], sep);
      SplitHead(parts[0], Join(parts[1..], [sep]), sep);
      assert parts == [parts[0]] + parts[1..];
    }
  }

  /** Joining undoes splitting. */
  lemma {:induction false} JoinSplit(s: string, sep: char)
    ensures Join(Split(s, sep), [sep]) == s
  {
    if s != "" {
      var rest := Split(s[1..], sep);
      JoinSplit(s[1..], sep);
      assert s == [s[0]] + s[1..];
      if s[0] == sep {
        assert ([""] + rest)[1..] == rest;
      } else {
        JoinLonger(s[0], rest, [sep]);
      }
    }
  }

  lemma JoinLonger(c: char, parts: seq<string>, sep: string)
    requires parts != []
    ensures Join([[c] + parts[0]] + parts[1..], sep) == [c] + Join(parts, sep)
  {
    var longer := [[c] + parts[0]] + parts[1..];
    assert longer[1..] == parts[1..];
    if |parts| > 1 {
      assert [c] + (parts[0] + sep + Join(parts[1..], sep)) == [c] + parts[0] + sep + Join(parts[1..], sep);
    }
  }

  function ToLowerChar(c: char): char {
    if 'A' <= c <= 'Z' then (c as int + 32) as char else c
  }

  function ToLower(s: string): (r: string)
    ensures |r| == |s|
    ensures forall i :: 0 <= i < |s| ==> r[i] == ToLowerChar(s[i])
  {
    if s == "" then "" else [ToLowerChar(s[0])] + ToLower(s[1..])
  }

  /** Letters change to their small form, anything else stays. */
  lemma LowerLetters(c: char)
    ensures var big, small := "ABCDEFGHIJKLMNOPQRSTUVWXYZ", "abcdefghijklmnopqrstuvwxyz";
            && (forall i :: 0 <= i < 26 ==> ToLower([big[i]]) == [small[i]])
            && (c !in big ==> ToLower([c]) == [c])
  {
    assert 'A' <= c <= 'Z' ==> c == "ABCDEFGHIJKLMNOPQRSTUVWXYZ"[c as int - 65];
  }

  /** Index of the last occurrence, or -1. */
  function LastIndex(s: string, c: char): (i: int)
    ensures -1 <= i < |s|
    ensures i >= 0 ==> s[i] == c
    ensures forall j :: i < j < |s| ==> s[j] != c
  {
    if s == "" then -1
    else if s[|s| - 1] == c then |s| - 1
    else LastIndex(s[..|s| - 1], c)
  }

  /** Index of the first occurrence, or -1. */
  function IndexOf(s: string, c: char): (i: int)
    ensures -1 <= i < |s|
    ensures i >= 0 ==> s[i] == c && c !in s[..i]
    ensures i < 0 ==> c !in s
  {
    if s == "" then -1
    else if s[0] == c then 0
    else
      var i := IndexOf(s[1..], c);
      if i < 0 then -1 else i + 1
  }

  /** The nonempty strings, each at its first place. */
  function Unique(list: seq<string>): seq<string> {
    if list == [] then []
    else
      var rest, last := Unique(list[..|list| - 1]), list[|list| - 1];
      if last == "" || last in rest then rest else rest + [last]
  }

  lemma {:induction false} UniqueHolds(list: seq<string>)
    ensures forall p :: p in Unique(list) <==> p in list && p != ""
    ensures forall i, j :: 0 <= i < j < |Unique(list)| ==> Unique(list)[i] != Unique(list)[j]
  {
    if list != [] {
      UniqueHolds(list[..|list| - 1]);
      assert list == list[..|list| - 1] + [list[|list| - 1]];
    }
  }
}
