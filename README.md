# required-status-checks: the polling engine of `run()`

This project models the one piece of decision logic in the GitHub Action
`required-status-checks`: the `run()` function in `src/main.ts`. It waits
until a configured number of commit statuses report `success`. First it
reads `expected-checks` with `parseInt(…, 10)` and rejects NaN and values
below 1. Then it repeats a cycle:

- fetch the commit statuses;
- keep those whose `context` matches the `status-regex` pattern;
- walk the matched entries in list order. The first `failure` entry fails
  the run, naming its context. `success` entries are counted. Every other
  state is ignored.

The run returns when the count equals `expected-checks` exactly. Otherwise,
including when nothing matched, it sleeps 30 000 ms and fetches again.
Every failure (bad configuration, a failing check, an error from the fetch)
ends the run through the single `setFailed(message)` exit.

Modules:

- `Wrappers` (`wrappers.dfy`): `Option` and `Result`.
- `JsParseInt` (`parse_int.dfy`): JavaScript's `parseInt(string, 10)` as
  ECMA-262 section 19.2.5 defines it. It skips leading white space, reads
  an optional sign and the longest run of decimal digits, and gives NaN when
  there are no digits.
- `StatusChecks` (`status_checks.dfy`): the status record, the pattern
  filter `Matched`, and the classification. `Classify` is the
  specification. `ClassifyCycle` is the source's counting `for` loop,
  proved equal to it.
- `Poller` (`poller.dfy`): the configuration check `ExpectedChecks`, one
  cycle `Cycle`, and the poll loop `Poll` as a function of the sequence of
  fetch responses. `Run` is the source's imperative `while` loop, proved
  equal to `RunSpec`. `PollOnce` is one pass of that loop's body.

The fetch is a parameter: a finite sequence of responses, each a list of
statuses or the message of a raised error, one per call. The pattern is an
abstract predicate `matches: string -> bool`. Each sleep is recorded as an
event carrying its duration. The run's trace is the list of `Fetch` and
`Sleep(ms)` events plus its ending: `Returned`, `SetFailed(message)`, or
`StillPolling`. `StillPolling` is used when the supplied responses run out
before the run has ended.

The unit test at `__tests__/main.test.ts:279` is named "Evaluates only the
latest status for each context". `src/main.ts` keeps no latest status per
context: it counts every matched entry, so two `success` entries for one
context count twice (`CountsEntriesNotContexts`), and `created_at` is never
read. For that test's list, a `success` and then a `failure` entry for
`check1`, the code as written fails the run naming `check1` because a
`failure` entry is present, whatever the timestamps
(`ScenarioFailureAnywhereFails`). The messages that test and the one at
`__tests__/main.test.ts:107-121` expect carry a `[YYYY-MM-DDTHH:MM:SS.sssZ] `
prefix (`__tests__/main.test.ts:21-25`), which the message built at
`src/main.ts:31-33` does not have.

The failure message interpolates `check.description`. The status records
built in `src/github.ts:29-33` have no such field, so the message ends in
the text `undefined`. `FailureMessage` writes it that way.

## Model

| member | source | states |
|---|---|---|
| `JsParseInt.TrimStart` | src/main.ts:9 | the result is the suffix of the input left after a run of white-space characters, and it does not start with white space |
| `JsParseInt.DigitPrefix` | src/main.ts:9 | the result is the longest prefix of the input made only of decimal digits |
| `JsParseInt.ParseSkipsLeadingWhiteSpace` | src/main.ts:9 | leading white space never changes what `parseInt` returns |
| `JsParseInt.ParseReadsDigitPrefix` | src/main.ts:9 | digits followed by a non-digit read as the digits' value, e.g. "3abc" as 3 and "1.5" as 1; a leading `-` negates and a leading `+` does not |
| `JsParseInt.ParseDecimalRoundTrip` | src/main.ts:9 | parsing the decimal spelling of n gives n, and parsing "-" followed by it gives -n |
| `JsParseInt.ParseWithoutDigitsIsNaN` | src/main.ts:9-11 | a string whose first non-blank character is not a sign or a digit parses to NaN |
| `JsParseInt.SignWithoutDigitsIsNaN` | src/main.ts:9-11 | a sign after any leading white space, followed by no digit, parses to NaN |
| `Poller.ExpectedChecksAcceptsPositive` | src/main.ts:9-13 | the decimal spelling of any n >= 1 is accepted as n; its negation is rejected with the configuration error |
| `Poller.ExpectedChecksRejectsExamples` | src/main.ts:9-13 | "0", "-1", "abc" and "-" are each rejected with "expected-checks must be a positive number" |
| `Poller.RunRejectsConfigBeforeFetch` | src/main.ts:9-16 | a NaN or below-1 value ends the run with the configuration error and no fetch; a valid value makes the first event a fetch whenever a response is available |
| `StatusChecks.Matched` | src/main.ts:19-21 | the filtered list holds exactly the input entries whose context matches, and is no longer than the input |
| `StatusChecks.MatchedConcat` | src/main.ts:19-21 | filtering distributes over concatenation, so the input order is kept |
| `StatusChecks.UnmatchedEntryIgnored` | src/main.ts:19-21 | removing an entry whose context does not match leaves the filtered list unchanged |
| `StatusChecks.UnmatchedNeverClassified` | src/main.ts:19-39 | an entry whose context does not match never changes the cycle's verdict |
| `StatusChecks.SuccessCountIsMultiplicity` | src/main.ts:27-38 | the success counter equals the number of entries whose state is `success` |
| `StatusChecks.SuccessCountConcat` | src/main.ts:27-38 | the success count of a concatenation is the sum of the two counts |
| `StatusChecks.FirstFailure` | src/main.ts:29-34 | no failure is found exactly when no entry has state `failure`; a found one is in the list and has state `failure` |
| `StatusChecks.FirstFailureConcat` | src/main.ts:29-34 | the first failure of a concatenation is the first part's, or else the second part's |
| `StatusChecks.FirstFailureAt` | src/main.ts:29-34 | a `failure` entry preceded by no other `failure` entry is the one reported |
| `StatusChecks.ClassifyCycle` | src/main.ts:27-47 | the counting loop with its early exit computes exactly the verdict `Classify` specifies |
| `StatusChecks.FailureNeverSucceeds` | src/main.ts:29-34 | with any matched `failure` entry the cycle fails, naming the first `failure` entry in list order, and never succeeds |
| `StatusChecks.SucceedsIffExactCount` | src/main.ts:35-47 | with no failure, the cycle succeeds if and only if the number of `success` entries equals the expected count; one fewer or one more continues |
| `StatusChecks.OtherStateIgnored` | src/main.ts:29-39 | an entry whose state is neither `success` nor `failure` can be removed without changing the verdict |
| `StatusChecks.CountsEntriesNotContexts` | src/main.ts:35-42 | two `success` entries for the same context satisfy an expected count of two; one does not |
| `Poller.PollOnce` | src/main.ts:16-50 | one pass of the loop body decides what `Cycle` specifies: a fetch error stops with its message, no match waits, otherwise the classification decides |
| `Poller.Run` | src/main.ts:6-57 | the imperative driver produces exactly the ending and the event trace of `RunSpec` |
| `Poller.PollStopsAtFirstDecision` | src/main.ts:15-53 | the run ends in the first cycle that does not wait, with that cycle's ending, after k fetch-and-sleep rounds and one final fetch |
| `Poller.PollWaitsThroughUndecided` | src/main.ts:15-53 | while no cycle decides, the run fetches and sleeps once per response and is still polling |
| `Poller.PollSleepsPollInterval` | src/main.ts:52 | every sleep lasts 30000 ms |
| `Poller.PollFetchesOnceMoreThanSleeps` | src/main.ts:15-53 | an ended run fetched once more than it slept and its last event is a fetch; it never fetches more than there are responses |
| `Poller.PollIgnoresLaterResponses` | src/main.ts:42-56 | after a return or a failure no further fetch happens: extra responses do not change the trace |
| `Poller.FetchErrorEndsRun` | src/main.ts:15-56 | an error from a fetch ends the run through `setFailed` with its message, without a retry |
| `Poller.NoMatchSleepsAndPollsAgain` | src/main.ts:23-52 | a fetch in which nothing matches neither succeeds nor fails: the run sleeps 30000 ms and fetches again |
| `Poller.MatchedFailureEndsRun` | src/main.ts:29-34 | a matched `failure` entry stops the cycle with `setFailed`, naming the first matched `failure` entry in list order |
| `Poller.ScenarioPollsThreeTimes` | __tests__/main.test.ts:205-246 | nothing, then one success, then two successes with two expected: success after 3 fetches and 2 sleeps |
| `Poller.ScenarioFailureAnywhereFails` | __tests__/main.test.ts:279-308 | a `success` then a `failure` entry for one context fails the run, naming that context, after one fetch |

## Left out

- The fetch (`src/github.ts`): the call to the GitHub API, the `GITHUB_TOKEN` check and the choice of SHA. It is a parameter: a sequence of responses, each the status list or an error message. `dist/github.d.ts` is a type declaration with no logic, and its `target_url` field is not read by `run()`.
- The regular expression engine behind `new RegExp(...)`, including its exception for an invalid pattern. Matching is an abstract predicate.
- `async`/`await` and `setTimeout`: a sleep is a recorded `Sleep(30000)` event, not real time.
- The unbounded `while (true)`: the model consumes a finite sequence of fetch responses. Running out of them gives the ending `StillPolling`, which stands for a run that has not ended yet.
- The `error instanceof Error` guard before `setFailed`. Every error raised here (the configuration error, a failing check, a fetch error) is an `Error`, so the model always reaches `setFailed`.
- All `core.info` and `core.debug` output, and the timestamped log lines the unit tests expect, which `src/main.ts` does not produce.
- `created_at`: carried in the record and never read. No ordering or deduplication by time is modelled, since the code has none.
- The whitespace trimming that `core.getInput` applies before `run()` sees the value: the model starts from the string `run()` receives.
- `JsParseInt.ParseInt10`: does not model JavaScript's double rounding of integers above 2^53, nor the sign of zero ("-0" gives -0 in JavaScript and 0 here). Neither changes which inputs the `< 1` guard accepts. Rounding changes only the accepted value, and only for integers beyond 2^53.
