/**
  One poll cycle of the action: the commit statuses returned by the fetch
  are filtered by the `status-regex` pattern, and the matching entries are
  classified in list order. The first `failure` entry ends the run, `success`
  entries are counted, and every other state is ignored. The cycle succeeds
  only when the count equals `expected-checks` exactly.

  The count is over list entries, not distinct contexts: two `success`
  entries for one context count twice, and there is no latest-per-context
  selection.
*/
module StatusChecks {
  import opened Wrappers

  const SUCCESS := "success"
  const FAILURE := "failure"

  /** One commit status as the fetch returns it. `createdAt` is carried but never read. */
  datatype StatusCheck = StatusCheck(context: string, state: string, createdAt: string)

  /** What one classification pass decides. `Failed` names the failing check's context. */
  datatype Verdict = Continue | Succeeded | Failed(context: string)

  /**
    The entries whose context the pattern accepts, in their original order,
    as `Array.prototype.filter` keeps them.
  */
  function Matched(checks: seq<StatusCheck>, matches: string -> bool): (r: seq<StatusCheck>)
    ensures |r| <= |checks|
    ensures forall c :: c in r <==> c in checks && matches(c.context)
  {
    if checks == [] then []
    else if matches(checks[0].context) then [checks[0]] + Matched(checks[1..], matches)
    else Matched(checks[1..], matches)
  }

  /** The number of entries whose state is `success`. */
  function SuccessCount(s: seq<StatusCheck>): (n: nat)
    ensures n <= |s|
  {
    if s == [] then 0
    else SuccessCount(s[..|s| - 1]) + (if s[|s| - 1].state == SUCCESS then 1 else 0)
  }

  /** The first entry, in list order, whose state is `failure`. */
  function FirstFailure(s: seq<StatusCheck>): (r: Option<StatusCheck>)
    ensures r.None? <==> forall i :: 0 <= i < |s| ==> s[i].state != FAILURE
    ensures r.Some? ==> r.value in s && r.value.state == FAILURE
  {
    if s == [] then None
    else if s[0].state == FAILURE then Some(s[0])
    else FirstFailure(s[1..])
  }

  /** The decision one pass over the matched entries reaches. */
  function Classify(matched: seq<StatusCheck>, expected: nat): Verdict {
    match FirstFailure(matched)
    case Some(c) => Failed(c.context)
    case None => if SuccessCount(matched) == expected then Succeeded else Continue
  }

  /**
    The classification loop: walks the matched entries in order, stops at
    the first `failure`, counts the `success` ones, and finally compares
    the count with the expected number.
  */
  method ClassifyCycle(matched: seq<StatusCheck>, expected: nat) returns (verdict: Verdict)
    ensures verdict == Classify(matched, expected)
  {
    var successfulChecks := 0;
    for i := 0 to |matched|
      invariant successfulChecks == SuccessCount(matched[..i])
      invariant forall j :: 0 <= j < i ==> matched[j].state != FAILURE
    {
      var check := matched[i];
      if check.state == FAILURE {
        FirstFailureAt(matched, i);
        return Failed(check.context);
      }
      if check.state == SUCCESS {
        successfulChecks := successfulChecks + 1;
      }
      assert matched[..i + 1][..i] == matched[..i];
    }
    assert matched[..|matched|] == matched;
    verdict := if successfulChecks == expected then Succeeded else Continue;
  }

  // Lemmas about the filter

  /** Filtering distributes over concatenation, so it keeps the input order. */
  lemma {:induction false} MatchedConcat(a: seq<StatusCheck>, b: seq<StatusCheck>, matches: string -> bool)
    ensures Matched(a + b, matches) == Matched(a, matches) + Matched(b, matches)
  {
    if a == [] {
      assert a + b == b;
    } else {
      assert (a + b)[0] == a[0];
      assert (a + b)[1..] == a[1..] + b;
      MatchedConcat(a[1..], b, matches);
    }
  }

  /** An entry whose context does not match can be removed without changing the filtered list. */
  lemma UnmatchedEntryIgnored(a: seq<StatusCheck>, c: StatusCheck, b: seq<StatusCheck>, matches: string -> bool)
    requires !matches(c.context)
    ensures Matched(a + [c] + b, matches) == Matched(a + b, matches)
  {
    MatchedConcat(a + [c], b, matches);
    MatchedConcat(a, [c], matches);
    MatchedConcat(a, b, matches);
    assert [c][1..] == [];
  }

  // Lemmas about the counters

  lemma {:induction false} SuccessCountConcat(a: seq<StatusCheck>, b: seq<StatusCheck>)
    ensures SuccessCount(a + b) == SuccessCount(a) + SuccessCount(b)
  {
    if b == [] {
      assert a + b == a;
    } else {
      var b' := b[..|b| - 1];
      assert (a + b)[..|a + b| - 1] == a + b';
      assert (a + b)[|a + b| - 1] == b[|b| - 1];
      SuccessCountConcat(a, b');
    }
  }

  /** The success count is the multiplicity of `success` among the entries' states. */
  lemma {:induction false} SuccessCountIsMultiplicity(s: seq<StatusCheck>)
    ensures SuccessCount(s) == multiset(States(s))[SUCCESS]
  {
    if s != [] {
      var s' := s[..|s| - 1];
      assert States(s) == States(s') + [s[|s| - 1].state];
      SuccessCountIsMultiplicity(s');
    }
  }

  function States(s: seq<StatusCheck>): (r: seq<string>)
    ensures |r| == |s| && forall i :: 0 <= i < |s| ==> r[i] == s[i].state
  {
    seq(|s|, i requires 0 <= i < |s| => s[i].state)
  }

  lemma {:induction false} FirstFailureConcat(a: seq<StatusCheck>, b: seq<StatusCheck>)
    ensures FirstFailure(a + b) == if FirstFailure(a).Some? then FirstFailure(a) else FirstFailure(b)
  {
    if a == [] {
      assert a + b == b;
    } else {
      assert (a + b)[0] == a[0];
      assert (a + b)[1..] == a[1..] + b;
      FirstFailureConcat(a[1..], b);
    }
  }

  /** When every entry before index i is not a failure, the entry at i is the first failure. */
  lemma {:induction false} FirstFailureAt(s: seq<StatusCheck>, i: nat)
    requires i < |s| && s[i].state == FAILURE
    requires forall j :: 0 <= j < i ==> s[j].state != FAILURE
    ensures FirstFailure(s) == Some(s[i])
  {
    if i > 0 {
      FirstFailureAt(s[1..], i - 1);
    }
  }

  // Properties of the classification

  /**
    A `failure` entry anywhere in the matched list means the cycle never
    succeeds: it fails, naming the first `failure` entry in list order.
  */
  lemma FailureNeverSucceeds(matched: seq<StatusCheck>, expected: nat, i: nat)
    requires i < |matched| && matched[i].state == FAILURE
    ensures exists k :: (0 <= k <= i && matched[k].state == FAILURE
                         && (forall j :: 0 <= j < k ==> matched[j].state != FAILURE)
                         && Classify(matched, expected) == Failed(matched[k].context))
  {
    var k := FirstFailureIndex(matched, i);
    FirstFailureAt(matched, k);
  }

  /** The index of the first `failure` entry at or before a known one. */
  function FirstFailureIndex(s: seq<StatusCheck>, i: nat): (k: nat)
    requires i < |s| && s[i].state == FAILURE
    ensures k <= i && s[k].state == FAILURE
    ensures forall j :: 0 <= j < k ==> s[j].state != FAILURE
  {
    if s[0].state == FAILURE then 0 else 1 + FirstFailureIndex(s[1..], i - 1)
  }

  /**
    Without failures, the cycle succeeds exactly when the number of
    `success` entries equals the expected number; one fewer or one more
    keeps polling.
  */
  lemma SucceedsIffExactCount(matched: seq<StatusCheck>, expected: nat)
    requires forall i :: 0 <= i < |matched| ==> matched[i].state != FAILURE
    ensures Classify(matched, expected) == Succeeded <==> multiset(States(matched))[SUCCESS] == expected
    ensures Classify(matched, expected) != Succeeded ==> Classify(matched, expected) == Continue
  {
    SuccessCountIsMultiplicity(matched);
  }

  /**
    An entry whose state is neither `success` nor `failure` (such as
    `pending`) changes nothing: removing it leaves the verdict as it was.
  */
  lemma OtherStateIgnored(a: seq<StatusCheck>, c: StatusCheck, b: seq<StatusCheck>, expected: nat)
    requires c.state != SUCCESS && c.state != FAILURE
    ensures Classify(a + [c] + b, expected) == Classify(a + b, expected)
  {
    SuccessCountConcat(a + [c], b);
    SuccessCountConcat(a, [c]);
    SuccessCountConcat(a, b);
    FirstFailureConcat(a + [c], b);
    FirstFailureConcat(a, [c]);
    FirstFailureConcat(a, b);
    assert [c][..0] == [];
  }

  /** Entries that the pattern rejects never influence the verdict. */
  lemma UnmatchedNeverClassified(a: seq<StatusCheck>, c: StatusCheck, b: seq<StatusCheck>, matches: string -> bool, expected: nat)
    requires !matches(c.context)
    ensures Classify(Matched(a + [c] + b, matches), expected) == Classify(Matched(a + b, matches), expected)
  {
    UnmatchedEntryIgnored(a, c, b, matches);
  }

  /** Duplicate contexts are counted once per entry: two `success` entries for one context satisfy two expected checks. */
  lemma CountsEntriesNotContexts(c: StatusCheck)
    requires c.state == SUCCESS
    ensures Classify([c, c], 2) == Succeeded
    ensures Classify([c], 2) == Continue
  {
    assert SUCCESS != FAILURE;
    assert [c, c][..1] == [c];
    assert [c][..0] == [];
    assert SuccessCount([c]) == 1;
  }
}
