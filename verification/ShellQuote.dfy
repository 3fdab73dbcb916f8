/**
 The scan that rejects shell control characters in a Git transport command.

 `Scan` is the loop of the source as a function of its state; `Segment` is an
 independent grammar of quoted text. The main result says the scan accepts
 exactly the strings the grammar generates.
 */
module ShellQuote {
  predicate IsControl(c: char) {
    c in {';', '&', '|', '<', '>', '`', '$', '\n', '\r'}
  }

  predicate IsQuote(c: char) {
    c == '\'' || c == '"'
  }

  /** The open quote, if any. */
  datatype Quote = Bare | Open(mark: char)

  /** True when the rest of the text has an unquoted control character, an open quote or a dangling backslash. */
  predicate Scan(s: string, quote: Quote, escaped: bool) {
    if s == "" then quote != Bare || escaped
    else
      var c, rest := s[0], s[1..];
      if escaped then Scan(rest, quote, false)
      else if quote != Open('\'') && c == '\\' then Scan(rest, quote, true)
      else if IsQuote(c) && quote == Bare then Scan(rest, Open(c), false)
      else if IsQuote(c) && quote == Open(c) then Scan(rest, Bare, false)
      else if IsControl(c) && quote == Bare then true
      else Scan(rest, quote, false)
  }

  method HasUnquotedShellControl(s: string) returns (r: bool)
    ensures r == Scan(s, Bare, false)
  {
    var quote, escaped := Bare, false;
    for i := 0 to |s|
      invariant Scan(s[i..], quote, escaped) == Scan(s, Bare, false)
    {
      var c := s[i];
      assert s[i..][0] == c && s[i..][1..] == s[i + 1..];
      if escaped {
        escaped := false;
        continue;
      }
      if quote != Open('\'') && c == '\\' {
        escaped := true;
        continue;
      }
      if IsQuote(c) {
        if quote == Bare {
          quote := Open(c);
          continue;
        }
        if quote == Open(c) {
          quote := Bare;
          continue;
        }
      } else if IsControl(c) {
        if quote == Bare {
          return true;
        }
      }
    }
    assert s[|s|..] == "";
    return quote != Bare || escaped;
  }

  // ----- the grammar

  /** An element of a double-quoted segment. */
  datatype Inner = Char(c: char) | Pair(c: char)

  datatype Segment =
    | Plain(c: char)                // a character that is no quote, backslash or control character
    | Escape(c: char)               // a backslash and any character
    | Single(body: string)          // '...' with no single quote inside
    | Double(inner: seq<Inner>)     // "..." of characters and backslash pairs

  predicate InnerWf(x: Inner) {
    x.Char? ==> x.c != '"' && x.c != '\\'
  }

  predicate SegmentWf(x: Segment) {
    match x
    case Plain(c) => !IsQuote(c) && c != '\\' && !IsControl(c)
    case Escape(_) => true
    case Single(body) => '\'' !in body
    case Double(inner) => forall i :: 0 <= i < |inner| ==> InnerWf(inner[i])
  }

  function InnerText(xs: seq<Inner>): string {
    if xs == [] then ""
    else (if xs[0].Char? then [xs[0].c] else ['\\', xs[0].c]) + InnerText(xs[1..])
  }

  function SegmentText(x: Segment): string {
    match x
    case Plain(c) => [c]
    case Escape(c) => ['\\', c]
    case Single(body) => "'" + body + "'"
    case Double(inner) => "\"" + InnerText(inner) + "\""
  }

  function Text(xs: seq<Segment>): string {
    if xs == [] then "" else SegmentText(xs[0]) + Text(xs[1..])
  }

  ghost predicate Generated(s: string) {
    exists xs: seq<Segment> :: (forall i :: 0 <= i < |xs| ==> SegmentWf(xs[i])) && Text(xs) == s
  }

  // ----- generated text is accepted

  lemma {:induction false} ScanSingleBody(body: string, rest: string)
    requires '\'' !in body
    ensures Scan(body + "'" + rest, Open('\''), false) == Scan(rest, Bare, false)
  {
    var s := body + "'" + rest;
    if body == "" {
      assert s[1..] == rest;
    } else {
      assert s[1..] == body[1..] + "'" + rest;
      ScanSingleBody(body[1..], rest);
    }
  }

  lemma {:induction false} ScanDoubleBody(xs: seq<Inner>, rest: string)
    requires forall i :: 0 <= i < |xs| ==> InnerWf(xs[i])
    ensures Scan(InnerText(xs) + "\"" + rest, Open('"'), false) == Scan(rest, Bare, false)
  {
    var s := InnerText(xs) + "\"" + rest;
    if xs == [] {
      assert s[1..] == rest;
    } else {
      var tail := InnerText(xs[1..]) + "\"" + rest;
      ScanDoubleBody(xs[1..], rest);
      if xs[0].Char? {
        assert InnerWf(xs[0]);
        assert s[1..] == tail;
      } else {
        assert s[1..] == [xs[0].c] + tail;
        assert s[1..][1..] == tail;
      }
    }
  }

  lemma ScanSingle(body: string, rest: string)
    requires '\'' !in body
    ensures Scan("'" + body + "'" + rest, Bare, false) == Scan(rest, Bare, false)
  {
    ScanSingleBody(body, rest);
    var s := "'" + body + "'" + rest;
    assert s[1..] == body + "'" + rest;
  }

  lemma ScanDouble(inner: seq<Inner>, rest: string)
    requires forall i :: 0 <= i < |inner| ==> InnerWf(inner[i])
    ensures Scan("\"" + InnerText(inner) + "\"" + rest, Bare, false) == Scan(rest, Bare, false)
  {
    ScanDoubleBody(inner, rest);
    hide InnerText;
    var s := "\"" + InnerText(inner) + "\"" + rest;
    assert s[1..] == InnerText(inner) + "\"" + rest;
  }

  lemma ScanSegment(x: Segment, rest: string)
    requires SegmentWf(x)
    ensures Scan(SegmentText(x) + rest, Bare, false) == Scan(rest, Bare, false)
  {
    var s := SegmentText(x) + rest;
    match x
    case Plain(c) =>
      assert s[1..] == rest;
    case Escape(c) =>
      assert s[1..] == [c] + rest;
      assert s[1..][1..] == rest;
    case Single(body) =>
      ScanSingle(body, rest);
    case Double(inner) =>
      ScanDouble(inner, rest);
  }

  lemma {:induction false} ScanGenerated(xs: seq<Segment>, rest: string)
    requires forall i :: 0 <= i < |xs| ==> SegmentWf(xs[i])
    ensures Scan(Text(xs) + rest, Bare, false) == Scan(rest, Bare, false)
  {
    if xs == [] {
      assert Text(xs) + rest == rest;
    } else {
      assert Text(xs) + rest == SegmentText(xs[0]) + (Text(xs[1..]) + rest);
      ScanSegment(xs[0], Text(xs[1..]) + rest);
      ScanGenerated(xs[1..], rest);
    }
  }

  // ----- accepted text is generated

  /** Accepted text read from inside single quotes closes them and goes on as accepted text. */
  lemma {:induction false} SplitSingle(s: string) returns (body: string, rest: string)
    requires !Scan(s, Open('\''), false)
    ensures '\'' !in body && s == body + "'" + rest && !Scan(rest, Bare, false)
  {
    if s[0] == '\'' {
      body, rest := "", s[1..];
    } else {
      var body';
      body', rest := SplitSingle(s[1..]);
      body := [s[0]] + body';
    }
  }

  lemma {:induction false} SplitDouble(s: string) returns (xs: seq<Inner>, rest: string)
    requires !Scan(s, Open('"'), false)
    ensures forall i :: 0 <= i < |xs| ==> InnerWf(xs[i])
    ensures s == InnerText(xs) + "\"" + rest && !Scan(rest, Bare, false)
  {
    if s[0] == '"' {
      xs, rest := [], s[1..];
    } else if s[0] == '\\' {
      assert !Scan(s[1..], Open('"'), true);
      var c := s[1..][0];
      var ys;
      ys, rest := SplitDouble(s[1..][1..]);
      xs := [Pair(c)] + ys;
      assert s == ['\\', c] + s[1..][1..];
    } else {
      var ys;
      ys, rest := SplitDouble(s[1..]);
      xs := [Char(s[0])] + ys;
      assert s == [s[0]] + s[1..];
    }
  }

  /** Accepted text begins with a segment, and goes on as accepted text. */
  lemma FirstSegment(s: string) returns (x: Segment, rest: string)
    requires s != "" && !Scan(s, Bare, false)
    ensures SegmentWf(x) && s == SegmentText(x) + rest && |rest| < |s| && !Scan(rest, Bare, false)
  {
    var c := s[0];
    if c == '\\' {
      assert !Scan(s[1..], Bare, true);
      x, rest := Escape(s[1..][0]), s[1..][1..];
    } else if c == '\'' {
      var body;
      body, rest := SplitSingle(s[1..]);
      x := Single(body);
      assert s == "'" + s[1..];
    } else if c == '"' {
      var inner;
      inner, rest := SplitDouble(s[1..]);
      x := Double(inner);
      assert s == "\"" + s[1..];
    } else {
      x, rest := Plain(c), s[1..];
    }
  }

  lemma {:induction false} AcceptedIsGenerated(s: string) returns (xs: seq<Segment>)
    requires !Scan(s, Bare, false)
    ensures forall i :: 0 <= i < |xs| ==> SegmentWf(xs[i])
    ensures Text(xs) == s
    decreases |s|
  {
    hide Scan;
    hide SegmentText;
    hide SegmentWf;
    if s == "" {
      return [];
    }
    var x, rest := FirstSegment(s);
    var tail := AcceptedIsGenerated(rest);
    xs := [x] + tail;
    assert xs[1..] == tail;
  }

  // ----- main results

  /** The scan accepts exactly the text the grammar generates. */
  lemma AcceptedIffGenerated(s: string)
    ensures !Scan(s, Bare, false) <==> Generated(s)
  {
    if !Scan(s, Bare, false) {
      var xs := AcceptedIsGenerated(s);
    }
    if Generated(s) {
      var xs: seq<Segment> :| (forall i :: 0 <= i < |xs| ==> SegmentWf(xs[i])) && Text(xs) == s;
      ScanGenerated(xs, "");
      assert Text(xs) + "" == s;
    }
  }

  /** Text put after accepted text is judged as if it stood alone, so accepted text is closed under concatenation. */
  lemma AcceptedPrefixIsNeutral(s: string, t: string)
    requires !Scan(s, Bare, false)
    ensures Scan(s + t, Bare, false) == Scan(t, Bare, false)
  {
    var xs := AcceptedIsGenerated(s);
    ScanGenerated(xs, t);
  }

  /** The character itself: outside quotes nine of them refuse the text whatever follows, and a character stands for
      itself unless it is one of these, a quote or a backslash. */
  lemma ControlRefuses(s: string, c: char, t: string)
    requires !Scan(s, Bare, false)
    ensures c in ";&|<>`$\n\r" ==> Scan(s + [c] + t, Bare, false)
    ensures c !in ";&|<>`$\n\r'\"\\" ==> Scan(s + [c] + t, Bare, false) == Scan(t, Bare, false)
  {
    AcceptedPrefixIsNeutral(s, [c] + t);
    assert s + [c] + t == s + ([c] + t);
    assert ([c] + t)[1..] == t;
  }
}
