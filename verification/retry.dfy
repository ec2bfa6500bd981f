/**
 `genericGet` and `shouldRetry`: at most three attempts at one URL, exponential
 backoff with jitter before every attempt but the first, and a classification of
 each attempt's outcome into "return", "try again" and "give up".

 The network, the response body and `json.Unmarshal` are outside the model: what
 each attempt yields is given as an `Attempt` value, and what the clock reads before
 each attempt is given as a number of nanoseconds. Durations are in nanoseconds.
 */
module Retry {
  import opened Wrappers
  import opened Strings

  /** `maxRetries`: the number of attempts, the first one included. */
  const MaxRetries: nat := 3

  /** `time.Millisecond`, in nanoseconds. */
  const Millisecond: int := 1_000_000

  /** `baseDelay`: 800 ms. */
  const BaseDelay: int := 800 * Millisecond

  // ---------------------------------------------------------------------------
  // Classification and backoff
  // ---------------------------------------------------------------------------

  /** The statuses worth another attempt: 429 and every 5xx. */
  predicate TransientStatus(status: int) {
    status == 429 || 500 <= status <= 599
  }

  /**
   `shouldRetry(status, attempt)`: a transient status is retried unless `attempt` is
   the last one. A retry therefore always has an attempt left to run.
   */
  function ShouldRetry(status: int, attempt: int): (r: bool)
    ensures r ==> attempt + 1 < MaxRetries
    ensures r ==> !(200 <= status < 300)
  {
    if attempt >= MaxRetries - 1 then false
    else status == 429 || (500 <= status <= 599)
  }

  /** The statuses `shouldRetry` is checked against, with what it answers on a first attempt. */
  lemma ShouldRetryTable()
    ensures ShouldRetry(429, 0) && ShouldRetry(500, 0) && ShouldRetry(502, 0)
    ensures ShouldRetry(503, 0) && ShouldRetry(504, 0)
    ensures !ShouldRetry(400, 0) && !ShouldRetry(401, 0) && !ShouldRetry(403, 0)
    ensures !ShouldRetry(404, 0) && !ShouldRetry(422, 0)
  {
  }

  /**
   Exactly the transient statuses are retried, and only while an attempt is left: the
   last attempt is never retried, and no other status ever is.
   */
  lemma ShouldRetryIff(status: int, attempt: nat)
    ensures ShouldRetry(status, attempt) <==> TransientStatus(status) && attempt + 1 < MaxRetries
  {
  }

  /** `a / b` as Go computes it for integers: the quotient truncated toward zero. */
  function GoQuo(a: int, b: int): int
    requires b > 0
  {
    if a >= 0 then a / b else -((-a) / b)
  }

  /**
   `a % b` as Go computes it for integers: it has the sign of `a`, so a clock before
   1970 gives a negative remainder.
   */
  function GoRem(a: int, b: int): (r: int)
    requires b > 0
    ensures a == b * GoQuo(a, b) + r
    ensures a >= 0 ==> 0 <= r < b
    ensures a < 0 ==> -b < r <= 0
  {
    if a >= 0 then a % b else -((-a) % b)
  }

  /** `1 << n`. */
  function Pow2(n: nat): (r: nat)
    ensures r >= 1
  {
    if n == 0 then 1 else 2 * Pow2(n - 1)
  }

  /** `time.Duration(clock % 100) * time.Millisecond`: up to 99 ms, negative only before 1970. */
  function Jitter(clockNanos: int): (r: int)
    ensures -100 * Millisecond < r < 100 * Millisecond
    ensures clockNanos >= 0 ==> 0 <= r < 100 * Millisecond
    ensures r % Millisecond == 0
  {
    GoRem(clockNanos, 100) * Millisecond
  }

  /** The sleep before attempt `attempt`: `baseDelay * 2^attempt` plus the jitter. */
  function Backoff(attempt: nat, clockNanos: int): (d: int)
    ensures clockNanos >= 0 ==> BaseDelay * Pow2(attempt) <= d < BaseDelay * Pow2(attempt) + 100 * Millisecond
    ensures d > 0
  {
    BaseDelay * Pow2(attempt) + Jitter(clockNanos)
  }

  /** The second attempt waits 1.6 s and the third 3.2 s, plus under 100 ms of jitter. */
  lemma BackoffSchedule(clock: int)
    requires clock >= 0
    ensures 1_600 * Millisecond <= Backoff(1, clock) < 1_700 * Millisecond
    ensures 3_200 * Millisecond <= Backoff(2, clock) < 3_300 * Millisecond
  {
    assert Pow2(1) == 2 && Pow2(2) == 4;
  }

  // ---------------------------------------------------------------------------
  // Attempts
  // ---------------------------------------------------------------------------

  /**
   What `json.Unmarshal(body, &result)` does to `result`: `into` maps the value `result`
   held before to the value it holds after. Decoding writes only what the body names,
   so struct fields and map keys the body leaves out keep what they held. It succeeds
   (`Decoded`) or fails (`Undecodable`); a failure may still have written part of the
   body into `result`, and a body that is not JSON leaves it alone.
   */
  datatype Decode<!T> = Decoded(into: T -> T) | Undecodable(into: T -> T, reason: GoString)

  /** What one attempt yields. */
  datatype Attempt<!T> =
    | TransportFailed(reason: GoString)
    | ReadFailed(reason: GoString)
    | Response(status: int, body: GoString, decode: Decode<T>)

  predicate Success2xx(status: int) {
    200 <= status < 300
  }

  /** The attempt ends the call with the decoded value. */
  predicate Succeeds<T>(a: Attempt<T>) {
    a.Response? && Success2xx(a.status) && a.decode.Decoded?
  }

  /** The loop goes on to the next attempt after `a`, made as attempt number `attempt`. */
  predicate Continues<T>(a: Attempt<T>, attempt: nat) {
    match a
    case TransportFailed(_) => true
    case ReadFailed(_) => true
    case Response(status, _, decode) =>
      if !Success2xx(status) then ShouldRetry(status, attempt) else decode.Undecodable?
  }

  /** `"status code: %d, %s"`. */
  function StatusMessage(status: int, body: GoString): (m: GoString)
    ensures "status code: " <= m
  {
    "status code: " + Itoa(status) + ", " + body
  }

  /**
   A status error carries both the status and the body: after the prefix, the text up
   to the first `,` reads back as the status, and the text after `", "` is the body.
   */
  lemma StatusMessageReadsBack(status: int, body: GoString)
    ensures var m := StatusMessage(status, body);
            && |m| >= 13
            && m[..13] == "status code: "
            && var (code, rest, found) := Cut(m[13..], ',');
               && found
               && Atoi(code) == Some(status)
               && rest == " " + body
  {
    var p := "status code: ";
    var n := Itoa(status);
    var m := StatusMessage(status, body);
    assert m == p + (n + [','] + (" " + body));
    assert m[13..] == n + [','] + (" " + body);
    ItoaWithout(status, ',');
    CutAt(n, ',', " " + body);
    AtoiItoa(status);
  }

  /** The error an attempt that does not succeed records as `lastErr`. */
  function Cause<T>(a: Attempt<T>): GoString
    requires !Succeeds(a)
  {
    match a
    case TransportFailed(reason) => reason
    case ReadFailed(reason) => "read body failed: " + reason
    case Response(status, body, decode) =>
      if !Success2xx(status) then StatusMessage(status, body)
      else "json unmarshal failed: " + decode.reason
  }

  /**
   The value `result` holds after `a`, when it held `result` before: only a 2xx
   response reaches `json.Unmarshal`.
   */
  function Fill<T>(a: Attempt<T>, result: T): T {
    if a.Response? && Success2xx(a.status) then a.decode.into(result) else result
  }

  /** What `result` holds after attempts `lo` up to `hi`, when it held `result` before them. */
  function Held<T>(outcomes: seq<Attempt<T>>, result: T, lo: nat, hi: nat): T
    requires lo <= hi <= |outcomes|
    decreases hi - lo
  {
    if lo == hi then result else Held(outcomes, Fill(outcomes[lo], result), lo + 1, hi)
  }

  /** One attempt more: what it fills in, over what the earlier ones left. */
  lemma {:induction false} HeldLast<T>(outcomes: seq<Attempt<T>>, result: T, lo: nat, hi: nat)
    requires lo <= hi < |outcomes|
    ensures Held(outcomes, result, lo, hi + 1) == Fill(outcomes[hi], Held(outcomes, result, lo, hi))
    decreases hi - lo
  {
    if lo < hi {
      HeldLast(outcomes, Fill(outcomes[lo], result), lo + 1, hi);
    }
  }

  // ---------------------------------------------------------------------------
  // The loop
  // ---------------------------------------------------------------------------

  /** How the loop ended: an early return, a `break` or running out of attempts. */
  datatype Stop = Returned | Broke | Exhausted

  /**
   What the loop did: how it ended, how many attempts it made, the sleeps it took,
   the last error it recorded and the value `result` held at the end.
   */
  datatype Run<T> = Run(stop: Stop, made: nat, delays: seq<int>, lastErr: Option<GoString>, result: T)

  /**
   The `for` loop of `genericGet` from attempt `attempt` on, with `result`, `lastErr`
   and the sleeps so far carried along.
   */
  function RunFrom<T>(outcomes: seq<Attempt<T>>, clocks: seq<int>, attempt: nat,
                      result: T, lastErr: Option<GoString>, delays: seq<int>): (r: Run<T>)
    requires |outcomes| == MaxRetries && |clocks| == MaxRetries && attempt <= MaxRetries
    ensures attempt <= r.made <= MaxRetries
    ensures attempt < MaxRetries ==> attempt < r.made
    ensures r.stop == Exhausted ==> r.made == MaxRetries
    ensures r.stop != Returned && (attempt < MaxRetries || lastErr.Some?) ==> r.lastErr.Some?
    ensures r.stop == Returned ==> Succeeds(outcomes[r.made - 1])
    ensures r.result == Held(outcomes, result, attempt, r.made)
    decreases MaxRetries - attempt
  {
    if attempt == MaxRetries then Run(Exhausted, attempt, delays, lastErr, result)
    else
      var delays := if attempt > 0 then delays + [Backoff(attempt, clocks[attempt])] else delays;
      var a := outcomes[attempt];
      if Succeeds(a) then Run(Returned, attempt + 1, delays, lastErr, Fill(a, result))
      else if !Continues(a, attempt) then Run(Broke, attempt + 1, delays, Some(Cause(a)), Fill(a, result))
      else RunFrom(outcomes, clocks, attempt + 1, Fill(a, result), Some(Cause(a)), delays)
  }

  /** The whole loop, starting from the zero value of `T` and no error. */
  function RunAll<T>(zero: T, outcomes: seq<Attempt<T>>, clocks: seq<int>): Run<T>
    requires |outcomes| == MaxRetries && |clocks| == MaxRetries
  {
    RunFrom(outcomes, clocks, 0, zero, None, [])
  }

  // ---------------------------------------------------------------------------
  // An independent reading of the loop: where it stops
  // ---------------------------------------------------------------------------

  /** The first attempt from `from` on that does not continue, or the attempt count when all do. */
  function FirstStop<T>(outcomes: seq<Attempt<T>>, from: nat): (k: nat)
    requires from <= |outcomes|
    ensures from <= k <= |outcomes|
    ensures forall i | from <= i < k :: Continues(outcomes[i], i)
    ensures k < |outcomes| ==> !Continues(outcomes[k], k)
    decreases |outcomes| - from
  {
    if from == |outcomes| then from
    else if !Continues(outcomes[from], from) then from
    else FirstStop(outcomes, from + 1)
  }

  /** The sleeps before attempts `lo` up to `hi`. */
  function Sleeps(clocks: seq<int>, lo: nat, hi: nat): (r: seq<int>)
    requires lo <= hi <= |clocks|
    ensures |r| == hi - lo
    ensures forall i | 0 <= i < |r| :: (r[i] == Backoff(lo + i, clocks[lo + i]))
    decreases hi - lo
  {
    if lo == hi then [] else [Backoff(lo, clocks[lo])] + Sleeps(clocks, lo + 1, hi)
  }

  /** The first attempt that sleeps is the second one, so sleeps are counted from attempt 1. */
  function SleepsFrom(n: nat): (r: nat)
    ensures r >= 1 && r >= n
  {
    if n == 0 then 1 else n
  }

  lemma {:induction false} SleepsSplit(clocks: seq<int>, lo: nat, hi: nat)
    requires lo < hi <= |clocks|
    ensures Sleeps(clocks, lo, hi) == [Backoff(lo, clocks[lo])] + Sleeps(clocks, lo + 1, hi)
  {
  }

  /**
   The loop stops at the first attempt that does not continue, or after the last
   attempt; it returns exactly when that attempt succeeds.
   */
  lemma {:induction false} RunStops<T>(outcomes: seq<Attempt<T>>, clocks: seq<int>, attempt: nat,
                                      result: T, lastErr: Option<GoString>, delays: seq<int>)
    requires |outcomes| == MaxRetries && |clocks| == MaxRetries && attempt <= MaxRetries
    ensures var r := RunFrom(outcomes, clocks, attempt, result, lastErr, delays);
            var k := FirstStop(outcomes, attempt);
            && r.made == (if k < MaxRetries then k + 1 else MaxRetries)
            && (r.stop == Returned <==> k < MaxRetries && Succeeds(outcomes[k]))
            && (r.stop == Exhausted <==> k == MaxRetries)
    decreases MaxRetries - attempt
  {
    if attempt < MaxRetries && Continues(outcomes[attempt], attempt) {
      var a := outcomes[attempt];
      var delays' := if attempt > 0 then delays + [Backoff(attempt, clocks[attempt])] else delays;
      RunStops(outcomes, clocks, attempt + 1, Fill(a, result), Some(Cause(a)), delays');
    }
  }

  /** Before every attempt `i` it makes after the first, the loop sleeps `Backoff(i, clock)`. */
  lemma {:induction false} RunSleeps<T>(outcomes: seq<Attempt<T>>, clocks: seq<int>, attempt: nat,
                                       result: T, lastErr: Option<GoString>, delays: seq<int>)
    requires |outcomes| == MaxRetries && |clocks| == MaxRetries && attempt <= MaxRetries
    ensures var r := RunFrom(outcomes, clocks, attempt, result, lastErr, delays);
            r.delays == delays + Sleeps(clocks, SleepsFrom(attempt), SleepsFrom(r.made))
    decreases MaxRetries - attempt
  {
    if attempt < MaxRetries && Continues(outcomes[attempt], attempt) {
      var a := outcomes[attempt];
      var delays' := if attempt > 0 then delays + [Backoff(attempt, clocks[attempt])] else delays;
      RunSleeps(outcomes, clocks, attempt + 1, Fill(a, result), Some(Cause(a)), delays');
      var r := RunFrom(outcomes, clocks, attempt + 1, Fill(a, result), Some(Cause(a)), delays');
      if attempt > 0 {
        SleepsShift(delays, clocks, attempt, r.made);
      }
    } else {
      assert delays + [] == delays;
    }
  }

  /** Sleeping before attempt `lo` and then before the rest is sleeping before all of them. */
  lemma SleepsShift(delays: seq<int>, clocks: seq<int>, lo: nat, hi: nat)
    requires lo < hi <= |clocks|
    ensures (delays + [Backoff(lo, clocks[lo])]) + Sleeps(clocks, lo + 1, hi) == delays + Sleeps(clocks, lo, hi)
  {
    SleepsSplit(clocks, lo, hi);
  }

  /** When the loop does not return, the error it carries out is the cause of its last attempt. */
  lemma {:induction false} LastErrIsLastCause<T>(outcomes: seq<Attempt<T>>, clocks: seq<int>, attempt: nat,
                                                result: T, lastErr: Option<GoString>, delays: seq<int>)
    requires |outcomes| == MaxRetries && |clocks| == MaxRetries && attempt < MaxRetries
    ensures var r := RunFrom(outcomes, clocks, attempt, result, lastErr, delays);
            r.stop != Returned ==> r.lastErr == Some(Cause(outcomes[r.made - 1]))
    decreases MaxRetries - attempt
  {
    var a := outcomes[attempt];
    var r := RunFrom(outcomes, clocks, attempt, result, lastErr, delays);
    if Succeeds(a) {
    } else if !Continues(a, attempt) || attempt + 1 == MaxRetries {
      assert r.made == attempt + 1 && r.lastErr == Some(Cause(a));
    } else {
      var delays' := if attempt > 0 then delays + [Backoff(attempt, clocks[attempt])] else delays;
      LastErrIsLastCause(outcomes, clocks, attempt + 1, Fill(a, result), Some(Cause(a)), delays');
    }
  }

  /** The whole loop, read through `FirstStop`. */
  lemma RunAllStops<T>(zero: T, outcomes: seq<Attempt<T>>, clocks: seq<int>)
    requires |outcomes| == MaxRetries && |clocks| == MaxRetries
    ensures var r := RunAll(zero, outcomes, clocks);
            var k := FirstStop(outcomes, 0);
            && r.made == (if k < MaxRetries then k + 1 else MaxRetries)
            && (r.stop == Returned <==> k < MaxRetries && Succeeds(outcomes[k]))
            && (r.stop == Exhausted <==> k == MaxRetries)
            && r.delays == Sleeps(clocks, 1, r.made)
            && (r.stop != Returned ==> r.lastErr == Some(Cause(outcomes[r.made - 1])))
  {
    var r := RunAll(zero, outcomes, clocks);
    RunStops(outcomes, clocks, 0, zero, None, []);
    RunSleeps(outcomes, clocks, 0, zero, None, []);
    LastErrIsLastCause(outcomes, clocks, 0, zero, None, []);
    assert [] + Sleeps(clocks, 1, r.made) == Sleeps(clocks, 1, r.made);
  }

  // ---------------------------------------------------------------------------
  // genericGet
  // ---------------------------------------------------------------------------

  /** What `genericGet` hands back: the value and the error, `None` standing for `nil`. */
  datatype Reply<T> = Reply(value: T, err: Option<GoString>)

  /** `" (after %d attempts)"`. */
  function AttemptsSuffix(n: int): GoString {
    " (after " + Itoa(n) + " attempts)"
  }

  /** The error put in place of a missing `lastErr`. */
  function UnknownReason(): GoString {
    "request failed after " + Itoa(MaxRetries) + " attempts (unknown reason)"
  }

  function Describe(lastErr: Option<GoString>): GoString {
    if lastErr.Some? then lastErr.value else UnknownReason()
  }

  /**
   `genericGet` as written. `requestErr` is the error `http.NewRequest` gives for the
   URL, if any: it depends on the URL alone, so it fails the first attempt or none.
   `result` is declared once, before the loop, so every attempt decodes into what the
   earlier ones left; the reply carries whatever it holds at the end, and a failure
   always names `maxRetries` attempts.
   */
  function GenericGetAsWritten<T>(zero: T, requestErr: Option<GoString>,
                                  outcomes: seq<Attempt<T>>, clocks: seq<int>): (r: Reply<T>)
    requires |outcomes| == MaxRetries && |clocks| == MaxRetries
    ensures requestErr.Some? ==> r == Reply(zero, Some("create request failed: " + requestErr.value))
    ensures requestErr.None? ==> (r.err.None? <==> RunAll(zero, outcomes, clocks).stop == Returned)
    ensures r.err.Some? && requestErr.None? ==> r.err.value == RunAll(zero, outcomes, clocks).lastErr.value + AttemptsSuffix(MaxRetries)
  {
    if requestErr.Some? then Reply(zero, Some("create request failed: " + requestErr.value))
    else
      var run := RunAll(zero, outcomes, clocks);
      if run.stop == Returned then Reply(run.result, None)
      else Reply(run.result, Some(Describe(run.lastErr) + AttemptsSuffix(MaxRetries)))
  }

  /**
   The corrected `genericGet` (the findings of the README): each attempt decodes into a
   fresh zero value, a failed call hands back the zero value, and the error names the
   number of attempts actually made.
   */
  function GenericGet<T>(zero: T, requestErr: Option<GoString>,
                         outcomes: seq<Attempt<T>>, clocks: seq<int>): (r: Reply<T>)
    requires |outcomes| == MaxRetries && |clocks| == MaxRetries
    ensures r.err.Some? ==> r.value == zero
    ensures requestErr.Some? ==> r.err == Some("create request failed: " + requestErr.value)
    ensures requestErr.None? ==> (r.err.None? <==> RunAll(zero, outcomes, clocks).stop == Returned)
    ensures r.err.Some? && requestErr.None? ==>
      var run := RunAll(zero, outcomes, clocks);
      r.err.value == run.lastErr.value + AttemptsSuffix(run.made)
    ensures r.err.None? ==>
      var run := RunAll(zero, outcomes, clocks);
      run.made >= 1 && r.value == outcomes[run.made - 1].decode.into(zero)
  {
    if requestErr.Some? then Reply(zero, Some("create request failed: " + requestErr.value))
    else
      var run := RunAll(zero, outcomes, clocks);
      if run.stop == Returned then Reply(Fill(outcomes[run.made - 1], zero), None)
      else Reply(zero, Some(Describe(run.lastErr) + AttemptsSuffix(run.made)))
  }

  /**
   The call succeeds exactly when the first attempt that does not continue is a 2xx
   response that decodes, and then it hands back what that body decodes to on its own.
   Otherwise the error is the cause of the last attempt made, followed by how many
   there were.
   */
  lemma GenericGetMeaning<T>(zero: T, outcomes: seq<Attempt<T>>, clocks: seq<int>)
    requires |outcomes| == MaxRetries && |clocks| == MaxRetries
    ensures var r := GenericGet(zero, None, outcomes, clocks);
            var k := FirstStop(outcomes, 0);
            var made := if k < MaxRetries then k + 1 else MaxRetries;
            && (r.err.None? <==> k < MaxRetries && Succeeds(outcomes[k]))
            && (r.err.None? ==> r.value == outcomes[k].decode.into(zero))
            && (r.err.Some? ==> r.err == Some(Cause(outcomes[made - 1]) + AttemptsSuffix(made)))
  {
    RunAllStops(zero, outcomes, clocks);
  }

  /**
   The call as written succeeds under the same condition, but what it hands back, on
   success or failure, is what every attempt made wrote into the one `result` in turn:
   on success, the stopping body decoded over what the earlier attempts left.
   */
  lemma GenericGetAsWrittenMeaning<T>(zero: T, outcomes: seq<Attempt<T>>, clocks: seq<int>)
    requires |outcomes| == MaxRetries && |clocks| == MaxRetries
    ensures var r := GenericGetAsWritten(zero, None, outcomes, clocks);
            var k := FirstStop(outcomes, 0);
            var made := if k < MaxRetries then k + 1 else MaxRetries;
            && (r.err.None? <==> k < MaxRetries && Succeeds(outcomes[k]))
            && r.value == Held(outcomes, zero, 0, made)
            && (r.err.None? ==> r.value == outcomes[k].decode.into(Held(outcomes, zero, 0, k)))
            && (r.err.Some? ==> r.err == Some(Cause(outcomes[made - 1]) + AttemptsSuffix(MaxRetries)))
  {
    RunAllStops(zero, outcomes, clocks);
    var k := FirstStop(outcomes, 0);
    if k < MaxRetries {
      HeldLast(outcomes, zero, 0, k);
    }
  }

  /**
   Both readings agree when the call succeeds and the attempts before the one that
   succeeded left `result` at the zero value.
   */
  lemma AgreeOnSuccess<T>(zero: T, requestErr: Option<GoString>, outcomes: seq<Attempt<T>>, clocks: seq<int>)
    requires |outcomes| == MaxRetries && |clocks| == MaxRetries
    requires GenericGet(zero, requestErr, outcomes, clocks).err.None?
    requires Held(outcomes, zero, 0, FirstStop(outcomes, 0)) == zero
    ensures GenericGetAsWritten(zero, requestErr, outcomes, clocks) == GenericGet(zero, requestErr, outcomes, clocks)
  {
    GenericGetMeaning(zero, outcomes, clocks);
    GenericGetAsWrittenMeaning(zero, outcomes, clocks);
  }

  /** A status that is not worth retrying ends the call after the attempt that got it. */
  lemma GiveUpAtOnce<T>(zero: T, outcomes: seq<Attempt<T>>, clocks: seq<int>)
    requires |outcomes| == MaxRetries && |clocks| == MaxRetries
    requires outcomes[0].Response? && !Success2xx(outcomes[0].status) && !TransientStatus(outcomes[0].status)
    ensures RunAll(zero, outcomes, clocks).made == 1
    ensures RunAll(zero, outcomes, clocks).delays == []
    ensures GenericGet(zero, None, outcomes, clocks).err
         == Some(StatusMessage(outcomes[0].status, outcomes[0].body) + AttemptsSuffix(1))
  {
  }

  /** A server that answers 503 every time is asked three times, with two sleeps in between. */
  lemma AlwaysUnavailable<T>(zero: T, body: GoString, decode: Decode<T>, clocks: seq<int>)
    requires |clocks| == MaxRetries
    ensures var outcomes := [Response(503, body, decode), Response(503, body, decode), Response(503, body, decode)];
            var run := RunAll(zero, outcomes, clocks);
            && run.made == 3
            && run.delays == [Backoff(1, clocks[1]), Backoff(2, clocks[2])]
            && GenericGetAsWritten(zero, None, outcomes, clocks).err
               == Some(StatusMessage(503, body) + AttemptsSuffix(3))
  {
  }

  /** Different attempt counts give different suffixes. */
  lemma AttemptsSuffixInjective(m: int, n: int)
    requires m != n
    ensures AttemptsSuffix(m) != AttemptsSuffix(n)
  {
    var sm := AttemptsSuffix(m);
    var sn := AttemptsSuffix(n);
    if sm == sn {
      var p := " (after ";
      var t := " attempts)";
      assert sm == p + Itoa(m) + t;
      assert sm[|p|..|sm| - |t|] == Itoa(m);
      assert sn[|p|..|sn| - |t|] == Itoa(n);
      AtoiItoa(m);
      AtoiItoa(n);
      assert false;
    }
  }

  // ---------------------------------------------------------------------------
  // Counterexamples for the code as written
  // ---------------------------------------------------------------------------

  /**
   A 404 on the first attempt ends the call after one attempt, yet the error says
   three were made.
   */
  lemma OneAttemptReportedAsThree(clocks: seq<int>)
    requires |clocks| == MaxRetries
    ensures var outcomes: seq<Attempt<int>> := [Response(404, "not found", Decoded((x: int) => 0)), TransportFailed(""), TransportFailed("")];
            && RunAll(0, outcomes, clocks).made == 1
            && GenericGetAsWritten(0, None, outcomes, clocks).err
               == Some(StatusMessage(404, "not found") + AttemptsSuffix(3))
            && GenericGetAsWritten(0, None, outcomes, clocks).err
               != Some(StatusMessage(404, "not found") + AttemptsSuffix(1))
  {
    var m := StatusMessage(404, "not found");
    AttemptsSuffixInjective(3, 1);
    assert (m + AttemptsSuffix(3))[|m|..] == AttemptsSuffix(3);
    assert (m + AttemptsSuffix(1))[|m|..] == AttemptsSuffix(1);
  }

  /**
   A 2xx body that `json.Unmarshal` decodes only in part, followed by a 404, fails the
   call, yet the value handed back is the partly filled one and not the zero value.
   Decoding `[1,"x"]` into a `[]int` stores `1`, records a type error for `"x"` and
   leaves that element at `0`.
   */
  lemma PartialResultLeaks(clocks: seq<int>)
    requires |clocks| == MaxRetries
    ensures var outcomes: seq<Attempt<seq<int>>> :=
              [Response(200, "[1,\"x\"]", Undecodable((s: seq<int>) => [1, 0], "cannot unmarshal string into Go value of type int")),
               Response(404, "", Decoded((s: seq<int>) => s)), TransportFailed("")];
            && GenericGetAsWritten([], None, outcomes, clocks).err.Some?
            && GenericGetAsWritten([], None, outcomes, clocks).value == [1, 0]
            && GenericGet([], None, outcomes, clocks).value == []
  {
  }

  /** The string fields of a tag, as `json.Unmarshal` fills them by name. */
  datatype TagFields = TagFields(id: GoString, slug: GoString, tagLabel: GoString)

  /**
   A field that an undecodable 2xx body wrote survives into a later successful reply:
   the first body sets `id` and fails on `label`, the second sets only `slug`. The
   call succeeds with the stale `id`, where decoding the second body alone leaves it
   empty.
   */
  lemma StaleFieldLeaks(clocks: seq<int>)
    requires |clocks| == MaxRetries
    ensures var empty := TagFields("", "", "");
            var outcomes: seq<Attempt<TagFields>> :=
              [Response(200, "{\"id\":\"7\",\"label\":5}",
                        Undecodable((t: TagFields) => t.(id := "7"), "cannot unmarshal number into Go struct field of type string")),
               Response(200, "{\"slug\":\"s\"}", Decoded((t: TagFields) => t.(slug := "s"))),
               TransportFailed("")];
            && GenericGetAsWritten(empty, None, outcomes, clocks) == Reply(TagFields("7", "s", ""), None)
            && GenericGet(empty, None, outcomes, clocks) == Reply(TagFields("", "s", ""), None)
  {
  }
}
