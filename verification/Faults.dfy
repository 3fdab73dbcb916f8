/** How the operations to come will end. A script is part of the input, so what a protocol does is a function of it. */
module Faults {
  /** One answer an operation: true if it works, false if it fails. Past the end the process is stopped. */
  type Script = seq<bool>

  datatype Outcome = Done | Failed | Stopped

  function Answer(script: Script): Outcome {
    if script == [] then Stopped else if script[0] then Done else Failed
  }

  function After(script: Script): Script {
    if script == [] then [] else script[1..]
  }

  /** None of the operations to come fails. */
  predicate Faultless(script: Script) {
    false !in script
  }

  /** At least `n` operations are left, and none of those to come fails. */
  predicate Calm(script: Script, n: int) {
    |script| >= n && Faultless(script)
  }

  lemma ScriptIs(script: Script, n: int, works: bool)
    ensures Answer([]) == Stopped && After([]) == []
    ensures Answer([works] + script) == (if works then Done else Failed) && After([works] + script) == script
    ensures Calm(script, n) <==> |script| >= n && forall i :: 0 <= i < |script| ==> script[i]
  {
    assert ([works] + script)[1..] == script;
    assert forall i :: 0 <= i < |script| ==> script[i] in script;
  }

  lemma CalmStep(script: Script, n: int)
    requires Calm(script, n) && n > 0
    ensures Answer(script) == Done && Calm(After(script), n - 1)
  {
    assert script[0] in script;
  }

  /** What is left of a script is its end. */
  predicate Suffix(left: Script, script: Script) {
    left == script || (script != [] && Suffix(left, script[1..]))
  }

  lemma {:induction false} SuffixHolds(left: Script, script: Script)
    requires Suffix(left, script)
    ensures |left| <= |script| && (Faultless(script) ==> Faultless(left))
  {
    if left != script {
      SuffixHolds(left, script[1..]);
      assert forall b :: b in script[1..] ==> b in script;
    }
  }

  lemma {:induction false} SuffixTrans(left: Script, mid: Script, script: Script)
    requires Suffix(left, mid) && Suffix(mid, script)
    ensures Suffix(left, script)
  {
    if mid != script {
      SuffixTrans(left, mid, script[1..]);
    }
  }

  /** A run that began with `script` has used at most `n` operations, and fewer if it was stopped. */
  predicate Used(script: Script, left: Script, stopped: bool, n: int) {
    Suffix(left, script) && |script| <= |left| + n && (stopped ==> |script| < n)
  }

  lemma UsedSelf(script: Script)
    ensures Used(script, script, false, 0)
  {
  }

  lemma UsedNext(script: Script, left: Script, n: int, most: int)
    requires Used(script, left, false, n) && n < most
    ensures Used(script, After(left), Answer(left) == Stopped, n + 1)
    ensures Used(script, After(left), Answer(left) == Stopped, most)
    ensures Faultless(script) ==> Answer(left) != Failed
  {
    SuffixHolds(left, script);
    assert left != [] ==> left[0] in left;
    assert Suffix(After(left), left) by {
      assert left != [] ==> Suffix(left[1..], left[1..]);
    }
    SuffixTrans(After(left), left, script);
    hide Suffix;
  }

  lemma UsedCalm(script: Script, left: Script, stopped: bool, n: int)
    requires Used(script, left, stopped, n)
    ensures Faultless(script) ==> Faultless(left)
    ensures |script| >= n ==> !stopped && |left| >= |script| - n
  {
    SuffixHolds(left, script);
  }

  lemma UsedThen(script: Script, mid: Script, left: Script, stopped: bool, n: int, m: int, most: int)
    requires Used(script, mid, false, n) && Used(mid, left, stopped, m) && n + m <= most
    ensures Used(script, left, stopped, n + m) && Used(script, left, stopped, most)
    ensures Faultless(script) ==> Faultless(mid)
  {
    SuffixHolds(mid, script);
    SuffixTrans(left, mid, script);
    hide Suffix;
  }

  lemma UsedLess(script: Script, left: Script, stopped: bool, n: int, m: int)
    requires Used(script, left, stopped, n) && n <= m
    ensures Used(script, left, stopped, m)
  {
    hide Suffix;
  }
}
