/**
  The action's `run()`: validate `expected-checks`, then fetch the commit
  statuses, filter and classify them, and either return, fail, or sleep
  for the poll interval and fetch again.

  The fetch and the sleep are the loop's two collaborators. The fetch is
  given as a finite sequence of responses, one per call, each a list of
  statuses or an error. The sleep is recorded as an event carrying its
  duration. The real loop has no bound: when the supplied responses run
  out while the run would still be polling, the model ends with
  `StillPolling`, which stands for "the run has not ended yet".

  Every way the run fails goes through the single `setFailed` exit,
  modelled by the `SetFailed(message)` ending.
*/
module Poller {
  import opened Wrappers
  import opened JsParseInt
  import opened StatusChecks

  /** The fixed wait between two fetches, in milliseconds. */
  const POLL_INTERVAL: nat := 30000

  const CONFIG_ERROR := "expected-checks must be a positive number"

  /** What one call of the fetch gives back: the statuses, or the message of the error it raised. */
  datatype FetchResult = Fetched(checks: seq<StatusCheck>) | FetchError(message: string)

  /** The run's observable steps, in the order they happen. */
  datatype Event = Fetch | Sleep(ms: nat)

  /** How the run ends: `return`, `setFailed(message)`, or not yet. */
  datatype Ending = Returned | SetFailed(message: string) | StillPolling

  datatype Trace = Trace(ending: Ending, events: seq<Event>)

  /** What a single cycle decides: sleep and poll again, or stop with an ending. */
  datatype Step = Wait | Stop(ending: Ending)

  /**
    The message thrown for a failing check. The template also interpolates
    a `description` field, which the fetched status records do not carry,
    so JavaScript renders it as the text "undefined".
  */
  function FailureMessage(context: string): string {
    "\U{274C} Check '" + context + "' failed: undefined"
  }

  /** `parseInt(input, 10)` followed by the NaN and `< 1` guard. */
  function ExpectedChecks(input: string): Result<nat, string> {
    match ParseInt10(input)
    case NaN => Failure(CONFIG_ERROR)
    case Num(n) => if n < 1 then Failure(CONFIG_ERROR) else Success(n)
  }

  /**
    One cycle after a fetch: a fetch error ends the run with its message;
    with nothing matched the run waits; otherwise the matched entries are
    classified.
  */
  function Cycle(expected: nat, matches: string -> bool, response: FetchResult): Step {
    match response
    case FetchError(message) => Stop(SetFailed(message))
    case Fetched(checks) =>
      var matched := Matched(checks, matches);
      if |matched| == 0 then Wait
      else
        match Classify(matched, expected)
        case Continue => Wait
        case Succeeded => Stop(Returned)
        case Failed(context) => Stop(SetFailed(FailureMessage(context)))
  }

  /** The poll loop, consuming one response per fetch. */
  function Poll(expected: nat, matches: string -> bool, responses: seq<FetchResult>): Trace
    decreases |responses|
  {
    if responses == [] then Trace(StillPolling, [])
    else
      match Cycle(expected, matches, responses[0])
      case Stop(ending) => Trace(ending, [Fetch])
      case Wait =>
        var rest := Poll(expected, matches, responses[1..]);
        Trace(rest.ending, [Fetch, Sleep(POLL_INTERVAL)] + rest.events)
  }

  /** The whole of `run()`: configuration check, then the poll loop. */
  function RunSpec(input: string, matches: string -> bool, responses: seq<FetchResult>): Trace {
    match ExpectedChecks(input)
    case Failure(message) => Trace(SetFailed(message), [])
    case Success(expected) => Poll(expected, matches, responses)
  }

  /**
    The driver loop: fetch, filter, classify, then return, fail, or sleep
    and fetch again.
  */
  method Run(input: string, matches: string -> bool, responses: seq<FetchResult>)
    returns (ending: Ending, events: seq<Event>)
    ensures Trace(ending, events) == RunSpec(input, matches, responses)
  {
    var validated := ExpectedChecks(input);
    if validated.Failure? {
      return SetFailed(validated.error), [];
    }
    var expected := validated.value;
    events := [];
    var k := 0;
    while k < |responses|
      invariant 0 <= k <= |responses|
      invariant Poll(expected, matches, responses)
             == Trace(Poll(expected, matches, responses[k..]).ending,
                      events + Poll(expected, matches, responses[k..]).events)
    {
      PollUnfold(expected, matches, responses[k..]);
      assert responses[k..][0] == responses[k] && responses[k..][1..] == responses[k + 1..];
      var step := PollOnce(expected, matches, responses[k]);
      events := events + [Fetch];
      if step.Stop? {
        return step.ending, events;
      }
      events := events + [Sleep(POLL_INTERVAL)];
      k := k + 1;
    }
    assert responses[k..] == [];
    ending := StillPolling;
  }

  /**
    The body of the driver loop after one fetch: a fetch error ends the
    run; otherwise the statuses are filtered and, if any matched, classified.
  */
  method PollOnce(expected: nat, matches: string -> bool, response: FetchResult) returns (step: Step)
    ensures step == Cycle(expected, matches, response)
  {
    match response {
      case FetchError(message) =>
        return Stop(SetFailed(message));
      case Fetched(checks) =>
        var matched := Matched(checks, matches);
        if |matched| > 0 {
          var verdict := ClassifyCycle(matched, expected);
          match verdict {
            case Failed(context) =>
              return Stop(SetFailed(FailureMessage(context)));
            case Succeeded =>
              return Stop(Returned);
            case Continue =>
          }
        }
    }
    step := Wait;
  }

  /** One step of the poll loop, as the driver takes it. */
  lemma PollUnfold(expected: nat, matches: string -> bool, responses: seq<FetchResult>)
    requires responses != []
    ensures Poll(expected, matches, responses)
         == match Cycle(expected, matches, responses[0])
            case Stop(ending) => Trace(ending, [Fetch])
            case Wait => Trace(Poll(expected, matches, responses[1..]).ending,
                               [Fetch, Sleep(POLL_INTERVAL)] + Poll(expected, matches, responses[1..]).events)
  {
  }

  // Counting the trace

  function Fetches(events: seq<Event>): (n: nat)
    ensures n <= |events|
  {
    if events == [] then 0 else Fetches(events[1..]) + (if events[0] == Fetch then 1 else 0)
  }

  function Sleeps(events: seq<Event>): (n: nat)
    ensures n <= |events|
  {
    if events == [] then 0 else Sleeps(events[1..]) + (if events[0].Sleep? then 1 else 0)
  }

  /** k rounds of fetch-then-sleep. */
  function Rounds(k: nat): (r: seq<Event>)
    ensures |r| == 2 * k
  {
    if k == 0 then [] else [Fetch, Sleep(POLL_INTERVAL)] + Rounds(k - 1)
  }

  lemma {:induction false} RoundsCount(k: nat)
    ensures Fetches(Rounds(k) + [Fetch]) == k + 1 && Sleeps(Rounds(k) + [Fetch]) == k
  {
    if k > 0 {
      RoundsCount(k - 1);
      var r := Rounds(k) + [Fetch];
      assert r[1..][1..] == Rounds(k - 1) + [Fetch];
    }
  }

  // Properties of the poll loop

  /**
    The run ends in the first cycle that decides, with that cycle's ending,
    after exactly k rounds of fetch-and-sleep and one last fetch. Later
    responses are never fetched.
  */
  lemma {:induction false} PollStopsAtFirstDecision(expected: nat, matches: string -> bool, responses: seq<FetchResult>, k: nat)
    requires k < |responses| && Cycle(expected, matches, responses[k]).Stop?
    requires forall j :: 0 <= j < k ==> Cycle(expected, matches, responses[j]) == Wait
    ensures Poll(expected, matches, responses)
         == Trace(Cycle(expected, matches, responses[k]).ending, Rounds(k) + [Fetch])
  {
    if k > 0 {
      PollStopsAtFirstDecision(expected, matches, responses[1..], k - 1);
    }
  }

  /** While every cycle waits, the run keeps polling, fetching once and sleeping once per response. */
  lemma {:induction false} PollWaitsThroughUndecided(expected: nat, matches: string -> bool, responses: seq<FetchResult>)
    requires forall j :: 0 <= j < |responses| ==> Cycle(expected, matches, responses[j]) == Wait
    ensures Poll(expected, matches, responses) == Trace(StillPolling, Rounds(|responses|))
  {
    if responses != [] {
      var rest := responses[1..];
      assert forall j :: 0 <= j < |rest| ==> rest[j] == responses[j + 1];
      PollWaitsThroughUndecided(expected, matches, rest);
      assert Cycle(expected, matches, responses[0]) == Wait;
      PollUnfold(expected, matches, responses);
    }
  }

  /** Every sleep of the run lasts the poll interval. */
  lemma {:induction false} PollSleepsPollInterval(expected: nat, matches: string -> bool, responses: seq<FetchResult>)
    ensures var evs := Poll(expected, matches, responses).events;
      forall i :: 0 <= i < |evs| && evs[i].Sleep? ==> evs[i].ms == POLL_INTERVAL
  {
    if responses != [] {
      PollUnfold(expected, matches, responses);
      if Cycle(expected, matches, responses[0]) == Wait {
        var rest := Poll(expected, matches, responses[1..]).events;
        PollSleepsPollInterval(expected, matches, responses[1..]);
        var evs := [Fetch, Sleep(POLL_INTERVAL)] + rest;
        forall i | 0 <= i < |evs| && evs[i].Sleep?
          ensures evs[i].ms == POLL_INTERVAL
        {
          if i >= 2 {
            assert evs[i] == rest[i - 2];
          }
        }
      }
    }
  }

  /**
    A run that has ended fetched exactly once more than it slept, its last
    step being a fetch; a run still polling fetched and slept once per
    response. It never fetches more often than there are responses.
  */
  lemma {:induction false} PollFetchesOnceMoreThanSleeps(expected: nat, matches: string -> bool, responses: seq<FetchResult>)
    ensures var t := Poll(expected, matches, responses);
      && Fetches(t.events) <= |responses|
      && (t.ending != StillPolling ==>
            Fetches(t.events) == Sleeps(t.events) + 1 && t.events != [] && t.events[|t.events| - 1] == Fetch)
      && (t.ending == StillPolling ==> Fetches(t.events) == Sleeps(t.events) == |responses|)
  {
    if responses != [] {
      PollUnfold(expected, matches, responses);
      if Cycle(expected, matches, responses[0]) == Wait {
        var rest := Poll(expected, matches, responses[1..]);
        PollFetchesOnceMoreThanSleeps(expected, matches, responses[1..]);
        var evs := [Fetch, Sleep(POLL_INTERVAL)] + rest.events;
        assert evs[1..] == [Sleep(POLL_INTERVAL)] + rest.events;
        assert evs[1..][1..] == rest.events;
        assert Fetches(evs) == Fetches(rest.events) + 1;
        assert Sleeps(evs) == Sleeps(rest.events) + 1;
        assert rest.events != [] ==> evs[|evs| - 1] == rest.events[|rest.events| - 1];
      }
    }
  }

  /** Once the run has ended, responses beyond those it fetched make no difference. */
  lemma {:induction false} PollIgnoresLaterResponses(expected: nat, matches: string -> bool, responses: seq<FetchResult>, more: seq<FetchResult>)
    requires Poll(expected, matches, responses).ending != StillPolling
    ensures Poll(expected, matches, responses + more) == Poll(expected, matches, responses)
  {
    assert responses != [];
    assert (responses + more)[0] == responses[0];
    if Cycle(expected, matches, responses[0]) == Wait {
      assert (responses + more)[1..] == responses[1..] + more;
      PollIgnoresLaterResponses(expected, matches, responses[1..], more);
    }
  }

  /** An error raised by a fetch ends the run through `setFailed` with its message; it is not retried. */
  lemma FetchErrorEndsRun(expected: nat, matches: string -> bool, responses: seq<FetchResult>, k: nat)
    requires k < |responses| && responses[k].FetchError?
    requires forall j :: 0 <= j < k ==> Cycle(expected, matches, responses[j]) == Wait
    ensures Poll(expected, matches, responses) == Trace(SetFailed(responses[k].message), Rounds(k) + [Fetch])
  {
    PollStopsAtFirstDecision(expected, matches, responses, k);
  }

  /** A fetch in which no status matches neither succeeds nor fails: the run sleeps the poll interval and fetches again. */
  lemma NoMatchSleepsAndPollsAgain(expected: nat, matches: string -> bool, checks: seq<StatusCheck>, rest: seq<FetchResult>)
    requires forall i :: 0 <= i < |checks| ==> !matches(checks[i].context)
    ensures var t := Poll(expected, matches, [Fetched(checks)] + rest);
      var u := Poll(expected, matches, rest);
      t.ending == u.ending && t.events == [Fetch, Sleep(POLL_INTERVAL)] + u.events
  {
    assert ([Fetched(checks)] + rest)[1..] == rest;
  }

  /**
    A matched `failure` entry in a fetch ends the run through `setFailed`,
    with the message naming the first `failure` entry of that fetch.
  */
  lemma MatchedFailureEndsRun(expected: nat, matches: string -> bool, checks: seq<StatusCheck>, i: nat)
    requires i < |Matched(checks, matches)| && Matched(checks, matches)[i].state == FAILURE
    ensures var m := Matched(checks, matches);
            exists k :: (0 <= k <= i && m[k].state == FAILURE
                         && (forall j :: 0 <= j < k ==> m[j].state != FAILURE)
                         && Cycle(expected, matches, Fetched(checks)) == Stop(SetFailed(FailureMessage(m[k].context))))
  {
    FailureNeverSucceeds(Matched(checks, matches), expected, i);
  }

  // Properties of the whole run

  /**
    A value of `expected-checks` that parses to NaN or to a number below 1
    ends the run with the configuration error before any fetch. A valid one
    leads to a first fetch whenever a response is available.
  */
  lemma RunRejectsConfigBeforeFetch(input: string, matches: string -> bool, responses: seq<FetchResult>)
    ensures ParseInt10(input).NaN? || ParseInt10(input).value < 1
            ==> RunSpec(input, matches, responses) == Trace(SetFailed(CONFIG_ERROR), [])
    ensures ParseInt10(input).Num? && ParseInt10(input).value >= 1 && responses != []
            ==> RunSpec(input, matches, responses).events[0] == Fetch
  {
  }

  /** The decimal spelling of any positive number is accepted as that number; its negation is rejected. */
  lemma ExpectedChecksAcceptsPositive(n: nat)
    requires n >= 1
    ensures ExpectedChecks(DecimalString(n)) == Success(n)
    ensures ExpectedChecks("-" + DecimalString(n)) == Failure(CONFIG_ERROR)
  {
    ParseDecimalRoundTrip(n);
  }

  /** "0", "-1", "abc" and "-" each give the configuration error. */
  lemma ExpectedChecksRejectsExamples()
    ensures ExpectedChecks("0") == Failure(CONFIG_ERROR)
    ensures ExpectedChecks("-1") == Failure(CONFIG_ERROR)
    ensures ExpectedChecks("abc") == Failure(CONFIG_ERROR)
    ensures ExpectedChecks("-") == Failure(CONFIG_ERROR)
  {
    ZeroRejected();
    assert "-" + DecimalString(1) == "-1";
    ExpectedChecksAcceptsPositive(1);
    NotANumber("abc");
    LoneSignRejected();
  }

  lemma ZeroRejected()
    ensures ExpectedChecks("0") == Failure(CONFIG_ERROR)
  {
    UnsignedDigits("0", []);
    assert "0" + [] == "0";
    assert "0"[..0] == [];
    assert DigitsValue("0") == 0;
  }

  lemma LoneSignRejected()
    ensures ExpectedChecks("-") == Failure(CONFIG_ERROR)
  {
    SignWithoutDigitsIsNaN([], '-', []);
    assert [] + (['-'] + []) == "-";
  }

  lemma NotANumber(s: string)
    requires s != [] && 'a' <= s[0] <= 'z'
    ensures ExpectedChecks(s) == Failure(CONFIG_ERROR)
  {
    ParseWithoutDigitsIsNaN([], s);
    assert [] + s == s;
  }

  // The scenarios of the action's unit tests

  /** Two fetches with nothing, then one `success`, then two: three fetches, two sleeps, success. */
  lemma ScenarioPollsThreeTimes(c1: StatusCheck, c2: StatusCheck)
    requires c1.state == SUCCESS && c2.state == SUCCESS
    ensures var t := Poll(2, _ => true, [Fetched([]), Fetched([c1]), Fetched([c1, c2])]);
      t.ending == Returned && Fetches(t.events) == 3 && Sleeps(t.events) == 2
  {
    var responses := [Fetched([]), Fetched([c1]), Fetched([c1, c2])];
    var always: string -> bool := _ => true;
    assert Matched([c1], always) == [c1];
    assert Matched([c1, c2], always) == [c1, c2] by {
      assert [c1, c2][1..] == [c2];
    }
    assert Classify([c1], 2) == Continue by {
      assert [c1][..0] == [];
    }
    assert Classify([c1, c2], 2) == Succeeded by {
      assert [c1, c2][..1] == [c1];
      assert [c1][..0] == [];
      assert [c1, c2][1..] == [c2];
    }
    assert Cycle(2, always, responses[2]) == Stop(Returned);
    PollStopsAtFirstDecision(2, always, responses, 2);
    RoundsCount(2);
  }

  /**
    A `success` and a later `failure` entry for one context, as in the test
    named for latest-status evaluation: the run fails naming that context
    because a `failure` entry is present, not because of any ordering by time.
  */
  lemma ScenarioFailureAnywhereFails(ok: StatusCheck, bad: StatusCheck, other: seq<StatusCheck>)
    requires ok.state == SUCCESS && bad.state == FAILURE
    ensures Poll(2, _ => true, [Fetched([ok, bad] + other)]) == Trace(SetFailed(FailureMessage(bad.context)), [Fetch])
  {
    var checks := [ok, bad] + other;
    var always: string -> bool := _ => true;
    AllMatch(checks, always);
    FirstFailureAt(checks, 1);
  }

  lemma {:induction false} AllMatch(checks: seq<StatusCheck>, matches: string -> bool)
    requires forall i :: 0 <= i < |checks| ==> matches(checks[i].context)
    ensures Matched(checks, matches) == checks
  {
    if checks != [] {
      AllMatch(checks[1..], matches);
    }
  }
}
