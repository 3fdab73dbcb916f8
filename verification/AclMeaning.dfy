/** ACL rows on the text of a line, and the questions asked of rows on their fields. */
module AclMeaning {
  import opened Wrappers
  import opened Text
  import opened Acl
  import opened AclBatch
  import opened AclBatchReads

  // ---- numbers and words --------------------------------------------------------------------------------------

  /** A number as `ls` writes it. */
  function Decimal(n: nat): string {
    if n < 10 then ["0123456789"[n]] else Decimal(n / 10) + ["0123456789"[n % 10]]
  }

  lemma DigitValue(d: nat)
    requires d < 10
    ensures var c := "0123456789"[d]; IsDigit(c) && c as int - '0' as int == d
  {
  }

  lemma {:induction false} DecimalReads(n: nat)
    ensures Decimal(n) != "" && Digits(Decimal(n)) == Some(n)
    ensures forall i :: 0 <= i < |Decimal(n)| ==> IsDigit(Decimal(n)[i])
  {
    if n < 10 {
      DigitValue(n);
      assert Decimal(n)[..0] == "";
    } else {
      DecimalReads(n / 10);
      DigitValue(n % 10);
      OneMoreDigit(Decimal(n / 10), "0123456789"[n % 10], n / 10, n % 10);
    }
  }

  lemma OneMoreDigit(s: string, c: char, n: nat, d: nat)
    requires Digits(s) == Some(n) && IsDigit(c) && c as int - '0' as int == d
    ensures Digits(s + [c]) == Some(10 * n + d)
  {
    assert (s + [c])[..|s + [c]| - 1] == s;
  }

  lemma UnsignedAtoi(d: string, n: int)
    requires n >= 0 && d != "" && IsDigit(d[0]) && Digits(d) == Some(n)
    ensures Atoi(d) == if n <= 0x7FFF_FFFF_FFFF_FFFF then Some(n) else None
  {
    hide Digits;
  }

  lemma SignedAtoi(s: string, d: string, n: int)
    requires n >= 0 && d != "" && Digits(d) == Some(n)
    requires s != "" && s[0] in "+-" && s[1..] == d
    ensures s[0] == '+' ==> Atoi(s) == if n <= 0x7FFF_FFFF_FFFF_FFFF then Some(n) else None
    ensures s[0] == '-' ==> Atoi(s) == if n <= 0x8000_0000_0000_0000 then Some(-n) else None
  {
    hide Digits;
  }

  /** A number reads as itself, with or without a sign, exactly if it fits into 64 bits. */
  lemma NumberReads(d: string, n: int)
    requires n >= 0 && d == Decimal(n)
    ensures Atoi(d) == (if n <= 0x7FFF_FFFF_FFFF_FFFF then Some(n) else None)
    ensures Atoi("+" + d) == (if n <= 0x7FFF_FFFF_FFFF_FFFF then Some(n) else None)
    ensures Atoi("-" + d) == (if n <= 0x8000_0000_0000_0000 then Some(-n) else None)
  {
    DecimalReads(n);
    assert IsDigit(d[0]);
    hide *;
    UnsignedAtoi(d, n);
    assert ("+" + d)[1..] == d && ("-" + d)[1..] == d;
    SignedAtoi("+" + d, d, n);
    SignedAtoi("-" + d, d, n);
  }

  /** Text with anything but digits after a sign, or without digits, reads as no number. */
  lemma AtoiRefuses(s: string, i: nat)
    ensures 0 < i < |s| && !('0' <= s[i] <= '9') ==> Atoi(s) == None
    ensures Atoi("") == Atoi("-") == Atoi("+") == None
  {
    if 0 < i < |s| && !('0' <= s[i] <= '9') {
      NoDigits(s, i);
      NoDigits(s[1..], i - 1);
    }
  }

  lemma GapStep(s: string, gap: string, c: char)
    requires Fields(s + gap) == Fields(s) && IsSpace(c)
    ensures Fields(s + (gap + [c])) == Fields(s)
  {
    FieldsStep(s + gap, c);
    hide Fields;
    assert (s + gap) + [c] == s + (gap + [c]);
  }

  lemma {:induction false} FieldsOfGap(s: string, gap: string)
    requires OnlySpace(gap)
    ensures Fields(s + gap) == Fields(s)
    decreases |gap|
  {
    hide Fields;
    if gap == "" {
      assert s + gap == s;
    } else {
      var n := |gap| - 1;
      assert gap == gap[..n] + [gap[n]] && IsSpace(gap[n]);
      hide IsSpace;
      FieldsOfGap(s, gap[..n]);
      GapStep(s, gap[..n], gap[n]);
    }
  }

  /** The fields of a text: a word after a gap is the next one, and the gaps are nothing. */
  lemma FieldsAre(s: string, gap: string, w: string)
    requires OnlySpace(gap) && gap != "" && IsWord(w)
    ensures Fields("") == [] && Fields(w) == [w]
    ensures Fields(s + gap) == Fields(s)
    ensures Fields(s + gap + w) == Fields(s) + [w]
  {
    FieldsOfGap(s, gap);
    assert (s + gap)[|s + gap| - 1] == gap[|gap| - 1];
    FieldsOfWord(s + gap, w);
    FieldsOfWord("", w);
    assert "" + w == w && Fields("") == [];
  }

  // ---- rows ---------------------------------------------------------------------------------------------------

  predicate OnlyIndent(s: string) {
    forall i :: 0 <= i < |s| ==> s[i] in " \t"
  }

  /** What a row's words say: the principal, `inherited` or not, the kind, and the permissions. */
  predicate Says(words: seq<string>, row: Row) {
    |words| >= 3
    && var k := if words[1] == "inherited" then 2 else 1;
       && k + 1 < |words|
       && words[0] == row.principal
       && words[k] == (match row.kind case Allow => "allow" case Deny => "deny")
       && row.perms == Split(words[k + 1], ',')
       && (row.inherit <==> "file_inherit" in row.perms && "directory_inherit" in row.perms)
  }

  ghost predicate RowWritten(line: string, row: Row, indent: string, number: string, rest: string) {
    && line == indent + number + ":" + rest && OnlyIndent(indent)
    && number != "" && number[0] !in " \t" && ':' !in number
    && Atoi(number) == Some(row.index) && Says(Fields(rest), row)
  }

  lemma {:induction false} IndentTrimmed(line: string) returns (indent: string)
    ensures line == indent + TrimIndent(line) && OnlyIndent(indent)
    ensures TrimIndent(line) != "" ==> TrimIndent(line)[0] !in " \t"
  {
    if line != "" && (line[0] == ' ' || line[0] == '\t') {
      var rest := IndentTrimmed(line[1..]);
      indent := [line[0]] + rest;
    } else {
      indent := "";
    }
  }

  lemma {:induction false} IndentGoes(indent: string, t: string)
    requires OnlyIndent(indent) && t != "" && t[0] !in " \t"
    ensures TrimIndent(indent + t) == t
  {
    if indent == "" {
      assert indent + t == t;
    } else {
      assert (indent + t)[1..] == indent[1..] + t;
      IndentGoes(indent[1..], t);
    }
  }

  lemma SaysIff(index: int, words: seq<string>, row: Row)
    ensures ParseRowFields(index, words) == Some(row) <==> Says(words, row) && row.index == index
  {
    hide Split;
  }

  lemma RowParts(line: string, row: Row) returns (indent: string, number: string, rest: string)
    requires ParseRow(line) == Some(row)
    ensures line == indent + number + ":" + rest && OnlyIndent(indent)
    ensures number != "" && number[0] !in " \t" && ':' !in number
    ensures Atoi(number) == Some(row.index) && Says(Fields(rest), row)
  {
    indent := IndentTrimmed(line);
    var colon := RowColon(line, row);
    hide *;
    var t := TrimIndent(line);
    number, rest := t[..colon], t[colon + 1..];
    assert t == number + ":" + rest && number[0] == t[0];
    assert indent + (number + ":" + rest) == indent + number + ":" + rest;
  }

  lemma RowColon(line: string, row: Row) returns (colon: nat)
    requires ParseRow(line) == Some(row)
    ensures var t := TrimIndent(line);
            && 0 < colon < |t| && t[colon] == ':' && ':' !in t[..colon]
            && Atoi(t[..colon]) == Some(row.index) && Says(Fields(t[colon + 1..]), row)
  {
    var t := TrimIndent(line);
    colon := IndexOf(t, ':');
    SaysIff(Atoi(t[..colon]).value, Fields(t[colon + 1..]), row);
    hide ParseRowFields;
    hide Atoi;
    hide Fields;
    hide Says;
    hide TrimIndent;
    hide IndexOf;
  }

  /** A line is a row exactly if it is a number, a colon and the row's words. */
  lemma RowIff(line: string, row: Row)
    ensures ParseRow(line) == Some(row) <==> exists indent, number, rest :: RowWritten(line, row, indent, number, rest)
  {
    hide Atoi;
    hide Fields;
    hide Says;
    hide ParseRow;
    if ParseRow(line) == Some(row) {
      var indent, number, rest := RowParts(line, row);
      assert RowWritten(line, row, indent, number, rest);
    }
    if indent, number, rest :| RowWritten(line, row, indent, number, rest) {
      RowReads(line, row, indent, number, rest);
    }
  }

  lemma RowReads(line: string, row: Row, indent: string, number: string, rest: string)
    requires RowWritten(line, row, indent, number, rest)
    ensures ParseRow(line) == Some(row)
  {
    SaysIff(row.index, Fields(rest), row);
    hide Atoi;
    hide Fields;
    hide Says;
    hide ParseRowFields;
    var t := number + ":" + rest;
    assert line == indent + t;
    IndentGoes(indent, t);
    assert t[|number|] == ':' && t[..|number|] == number && t[|number| + 1..] == rest;
    FirstColon(t, |number|);
  }

  lemma FirstColon(t: string, k: nat)
    requires k < |t| && t[k] == ':' && ':' !in t[..k]
    ensures IndexOf(t, ':') == k
  {
    hide IndexOf;
    assert t[k] in t;
    forall j | 0 <= j < k
      ensures t[j] != ':'
    {
      assert t[..k][j] == t[j];
    }
    forall j | k < j <= |t|
      ensures ':' in t[..j]
    {
      assert t[..j][k] == ':';
    }
  }

  /** The words of a printed row. */
  function RowText(principal: string, inherited: bool, kind: Kind, perms: seq<string>): string {
    " " + principal + (if inherited then " inherited" else "") + " " + (if kind == Allow then "allow" else "deny")
    + " " + Join(perms, ",")
  }

  /** A row as `ls -le` prints it reads back as that row. */
  lemma PrintedRowReads(indent: string, index: nat, principal: string, inherited: bool, kind: Kind, perms: seq<string>)
    requires OnlyIndent(indent) && index <= 0x7FFF_FFFF_FFFF_FFFF && IsWord(principal)
    requires perms != [] && forall i :: 0 <= i < |perms| ==> IsWord(perms[i]) && ',' !in perms[i]
    ensures ParseRow(indent + Decimal(index) + ":" + RowText(principal, inherited, kind, perms)) ==
            Some(Row(index, principal, kind, perms, "file_inherit" in perms && "directory_inherit" in perms))
  {
    var row := Row(index, principal, kind, perms, "file_inherit" in perms && "directory_inherit" in perms);
    var rest := RowText(principal, inherited, kind, perms);
    PrintedWords(principal, inherited, kind, perms);
    PrintedSays(principal, inherited, kind, perms, row);
    DecimalReads(index);
    NumberReads(Decimal(index), index);
    NumberStart(Decimal(index));
    hide *;
    FromParts(indent + Decimal(index) + ":" + rest, row, indent, Decimal(index), rest);
  }

  lemma NumberStart(number: string)
    requires number != "" && forall i :: 0 <= i < |number| ==> IsDigit(number[i])
    ensures number[0] !in " \t" && ':' !in number
  {
    assert IsDigit(number[0]);
  }

  lemma FromParts(line: string, row: Row, indent: string, number: string, rest: string)
    requires line == indent + number + ":" + rest && OnlyIndent(indent)
    requires number != "" && number[0] !in " \t" && ':' !in number
    requires Atoi(number) == Some(row.index) && Says(Fields(rest), row)
    ensures ParseRow(line) == Some(row)
  {
    hide Atoi;
    hide Fields;
    hide Says;
    hide ParseRow;
    RowReads(line, row, indent, number, rest);
  }

  lemma {:induction false} ListIsWord(perms: seq<string>)
    requires perms != [] && forall i :: 0 <= i < |perms| ==> IsWord(perms[i])
    ensures IsWord(Join(perms, ","))
  {
    if |perms| > 1 {
      ListIsWord(perms[1..]);
    }
  }

  lemma PrintedSays(principal: string, inherited: bool, kind: Kind, perms: seq<string>, row: Row)
    requires Fields(RowText(principal, inherited, kind, perms)) ==
             [principal] + (if inherited then ["inherited"] else []) + [if kind == Allow then "allow" else "deny", Join(perms, ",")]
    requires Split(Join(perms, ","), ',') == perms
    requires row == Row(row.index, principal, kind, perms, "file_inherit" in perms && "directory_inherit" in perms)
    ensures Says(Fields(RowText(principal, inherited, kind, perms)), row)
  {
    hide Fields;
    hide Join;
    hide Split;
  }

  lemma PrintedWords(principal: string, inherited: bool, kind: Kind, perms: seq<string>)
    requires IsWord(principal)
    requires perms != [] && forall i :: 0 <= i < |perms| ==> IsWord(perms[i]) && ',' !in perms[i]
    ensures Fields(RowText(principal, inherited, kind, perms)) ==
            [principal] + (if inherited then ["inherited"] else []) + [if kind == Allow then "allow" else "deny", Join(perms, ",")]
    ensures Split(Join(perms, ","), ',') == perms
  {
    ListIsWord(perms);
    assert "," == [','];
    SplitJoin(perms, ',');
    KindIsWord();
    var kindText := if kind == Allow then "allow" else "deny";
    TextWords(principal, inherited, kindText, Join(perms, ","));
    hide *;
    RowTextIs(principal, inherited, kind, perms);
  }

  lemma RowTextIs(principal: string, inherited: bool, kind: Kind, perms: seq<string>)
    ensures RowText(principal, inherited, kind, perms) ==
            " " + principal + (if inherited then " inherited" else "") + " " + (if kind == Allow then "allow" else "deny")
            + " " + Join(perms, ",")
  {
  }

  lemma TextWords(principal: string, inherited: bool, kind: string, list: string)
    requires IsWord(principal) && IsWord(kind) && IsWord(list)
    ensures Fields(" " + principal + (if inherited then " inherited" else "") + " " + kind + " " + list) ==
            [principal] + (if inherited then ["inherited"] else []) + [kind, list]
  {
    KindIsWord();
    FirstWord(principal);
    hide *;
    var head := " " + principal + (if inherited then " inherited" else "");
    if inherited {
      WordNext(" " + principal, "inherited");
      InheritedText(" " + principal);
    } else {
      Nothing(" " + principal);
    }
    LastWords(head, kind, list);
  }

  lemma Nothing(s: string)
    ensures s + "" == s
  {
  }

  lemma KindIsWord()
    ensures IsWord("inherited") && IsWord("allow") && IsWord("deny")
  {
  }

  lemma FirstWord(w: string)
    requires IsWord(w)
    ensures Fields(" " + w) == [w]
  {
    FieldsAre("", " ", w);
    assert "" + " " + w == " " + w && [] + [w] == [w];
  }

  lemma WordNext(s: string, w: string)
    requires IsWord(w)
    ensures Fields(s + " " + w) == Fields(s) + [w]
  {
    hide *;
    BlankIsGap();
    FieldsAre(s, " ", w);
  }

  lemma BlankIsGap()
    ensures OnlySpace(" ")
  {
  }

  lemma InheritedText(s: string)
    ensures s + " inherited" == s + " " + "inherited"
  {
  }

  lemma LastWords(s: string, a: string, b: string)
    requires IsWord(a) && IsWord(b)
    ensures Fields(s + " " + a + " " + b) == Fields(s) + [a, b]
  {
    hide *;
    WordNext(s, a);
    WordNext(s + " " + a, b);
  }

  // ---- questions ----------------------------------------------------------------------------------------------

  /** The questions startup asks: an inheritable allow row for the dev group, any allow row for it, and an allow row for
      the agent that lets it execute or search. */
  lemma StartupQuestions(rows: seq<Row>)
    ensures AclRowsSatisfy(rows, DEVINHERITABLE) <==>
            exists i :: 0 <= i < |rows| && rows[i].kind == Allow && rows[i].principal == "group:dev" && rows[i].inherit
    ensures AclRowsSatisfy(rows, DEVPLAIN) <==>
            exists i :: 0 <= i < |rows| && rows[i].kind == Allow && rows[i].principal == "group:dev"
    ensures HomeHasAgentTraverse(rows) <==>
            exists i :: 0 <= i < |rows| && rows[i].kind == Allow && rows[i].principal == "user:agent"
                        && ("execute" in rows[i].perms || "search" in rows[i].perms)
  {
    SatisfyIff(rows, DEVINHERITABLE);
    SatisfyIff(rows, DEVPLAIN);
    forall i | 0 <= i < |rows|
      ensures Satisfies(rows[i], AGENTTRAVERSE) && GrantsPerm(rows[i], "execute") <==>
              rows[i].kind == Allow && rows[i].principal == "user:agent"
              && ("execute" in rows[i].perms || "search" in rows[i].perms)
    {
      GrantsPermIff(rows[i]);
    }
    hide AclRowsSatisfy;
    hide GrantsPerm;
  }

  lemma SatisfyIff(rows: seq<Row>, g: Grant)
    ensures AclRowsSatisfy(rows, g) <==>
            exists i :: 0 <= i < |rows| && rows[i].kind == Allow && rows[i].principal == g.principal && (g.inherit ==> rows[i].inherit)
  {
    if i :| 0 <= i < |rows| && rows[i].kind == Allow && rows[i].principal == g.principal && (g.inherit ==> rows[i].inherit) {
      assert rows[i] in rows && Satisfies(rows[i], g);
    }
  }

  /** Which names stand for a permission. */
  lemma GrantsPermIff(r: Row)
    ensures GrantsPerm(r, "read") <==> "read" in r.perms || "list" in r.perms
    ensures GrantsPerm(r, "write") <==> "write" in r.perms || "add_file" in r.perms || "add_subdirectory" in r.perms
    ensures GrantsPerm(r, "execute") <==> "execute" in r.perms || "search" in r.perms
    ensures GrantsPerm(r, "append") <==> "append" in r.perms || "add_subdirectory" in r.perms
    ensures forall p :: p !in ["read", "write", "execute", "append"] ==> (GrantsPerm(r, p) <==> p in r.perms)
  {
    assert forall a :: a in AclPermAliases("read") <==> a == "read" || a == "list";
    assert forall a :: a in AclPermAliases("write") <==> a == "write" || a == "add_file" || a == "add_subdirectory";
    assert forall a :: a in AclPermAliases("execute") <==> a == "execute" || a == "search";
    assert forall a :: a in AclPermAliases("append") <==> a == "append" || a == "add_subdirectory";
    forall p | p !in ["read", "write", "execute", "append"]
      ensures GrantsPerm(r, p) <==> p in r.perms
    {
      OtherPerm(r, p);
    }
  }

  lemma OtherPerm(r: Row, p: string)
    requires p != "read" && p != "write" && p != "execute" && p != "append"
    ensures GrantsPerm(r, p) <==> p in r.perms
  {
    assert AclPermAliases(p) == [p];
  }

  // ---- listings -----------------------------------------------------------------------------------------------

  /** The header of a path: the longest of the paths that is the line or ends it after a blank. */
  lemma LongestIff(line: string, paths: seq<string>, p: string)
    requires p != ""
    ensures Longest(line, paths) == p <==>
            && p in paths && (line == p || exists before :: line == before + " " + p)
            && forall q :: q in paths && q != "" && (line == q || exists before :: line == before + " " + q) ==> |q| <= |p|
  {
    LongestHolds(line, paths);
    forall q
      ensures EndsIn(line, q) <==> q != "" && (line == q || exists before :: line == before + " " + q)
    {
      EndsInIff(line, q);
    }
    hide Longest;
    hide EndsIn;
    if p in paths && EndsIn(line, p) && forall q :: q in paths && EndsIn(line, q) ==> |q| <= |p| {
      var l := Longest(line, paths);
      assert l in paths && EndsIn(line, l) && |l| == |p|;
      SameEnds(line, l, p);
    }
  }

  lemma SameEnds(line: string, a: string, b: string)
    requires EndsIn(line, a) && EndsIn(line, b) && |a| == |b|
    ensures a == b
  {
    EndOf(line, a);
    EndOf(line, b);
  }

  lemma EndOf(line: string, p: string)
    requires EndsIn(line, p)
    ensures |p| <= |line| && line[|line| - |p|..] == p
  {
    if line != p {
      var e := " " + p;
      assert line[|line| - |p|..] == line[|line| - |e|..][1..] == e[1..] == p;
    }
  }

  lemma EndsInIff(line: string, p: string)
    ensures EndsIn(line, p) <==> p != "" && (line == p || exists before :: line == before + " " + p)
  {
    var e := " " + p;
    if HasSuffix(line, e) {
      assert line == line[..|line| - |e|] + " " + p;
    }
    if before :| line == before + " " + p {
      assert line == before + e && line[|line| - |e|..] == e;
    }
  }

  /** The rows of lines are those of the lines that are rows, in order. */
  lemma {:induction false} RowsOfParts(a: seq<string>, line: string, b: seq<string>)
    ensures RowsIn([]) == []
    ensures RowsIn(a + [line] + b) == RowsIn(a) + (match ParseRow(line) case None => [] case Some(row) => [row]) + RowsIn(b)
    decreases |a|
  {
    hide ParseRow;
    var all := a + [line] + b;
    if a == [] {
      assert all[0] == line && all[1..] == b;
    } else {
      var here := match ParseRow(a[0]) case None => [] case Some(row) => [row];
      assert all[0] == a[0] && all[1..] == a[1..] + [line] + b;
      assert RowsIn(a) == here + RowsIn(a[1..]);
      RowsOfParts(a[1..], line, b);
    }
  }
}
