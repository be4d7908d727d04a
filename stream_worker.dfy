/**
  The worker that keeps one streaming subscription alive: it parses the
  measurement id, forwards what the stream delivers to the shared result
  channel, and reconnects after a failure or a dropped connection, waiting
  an exponentially growing, jittered delay between attempts.

  The random draw of `rand.Int63n(n)` is the parameter `draw`, reduced to
  `draw % n`; every value in `[0, n)` is such a draw. A context
  cancellation, the success of the client library's subscribe call and the
  stream's events are inputs as well.
 */
module StreamWorker {
  import opened Wrappers
  import opened Results
  import opened Strconv
  import opened GoStrings
  import opened GoTime

  const MinRetryDelay: int := 1 * Second
  const MaxRetryDelay: int := 60 * Second

  /** The parse-error prefix by which the client library reports a disconnect. */
  const DisconnectPrefix: string := "c.On(disconnect)"

  // ---------------------------------------------------------------------
  // The retry delay

  function Pow2(k: nat): (p: nat)
    ensures p >= 1
  {
    if k == 0 then 1 else 2 * Pow2(k - 1)
  }

  lemma {:induction false} Pow2Monotone(a: nat, b: nat)
    requires a <= b
    ensures Pow2(a) <= Pow2(b)
    decreases b
  {
    if a < b {
      Pow2Monotone(a, b - 1);
    }
  }

  lemma {:induction false} Pow2Add(a: nat, b: nat)
    ensures Pow2(a + b) == Pow2(a) * Pow2(b)
    decreases a
  {
    if a > 0 {
      Pow2Add(a - 1, b);
    }
  }

  /** Doubling from 2^5 = 32 to 2^6 = 64 is where one second passes one minute. */
  lemma Pow2AroundSix(k: nat)
    ensures k < 6 ==> Pow2(k) <= 32
    ensures k >= 6 ==> Pow2(k) >= 64
  {
    Pow2Values();
    if k < 6 {
      Pow2Monotone(k, 5);
    } else {
      Pow2Monotone(6, k);
    }
  }

  lemma Pow2Small()
    ensures Pow2(5) == 32 && Pow2(6) == 64 && Pow2(8) == 256
  {
    assert Pow2(1) == 2;
    assert Pow2(2) == 4;
    assert Pow2(3) == 8;
    assert Pow2(4) == 16;
    assert Pow2(5) == 32;
    assert Pow2(6) == 64;
    assert Pow2(7) == 128;
  }

  lemma Pow2ThirtyTwo()
    ensures Pow2(32) == 0x1_0000_0000
  {
    Pow2Small();
    Pow2Add(8, 8);
    assert Pow2(16) == 0x1_0000;
    Pow2Add(16, 16);
  }

  lemma Pow2Values()
    ensures Pow2(5) == 32 && Pow2(6) == 64
    ensures Pow2(33) == 0x2_0000_0000 && Pow2(34) == 0x4_0000_0000
    ensures Pow2(64) == 0x1_0000_0000_0000_0000
  {
    Pow2Small();
    Pow2ThirtyTwo();
    Pow2Add(32, 32);
    assert Pow2(33) == 2 * Pow2(32);
  }

  /**
    The exponential part of the delay for retry count `k`: one second
    doubled `k` times, but never more than a minute. From six retries on it
    is the full minute.
   */
  function BaseDelay(k: nat): (d: int)
    ensures MinRetryDelay <= d <= MaxRetryDelay
    ensures k < 6 ==> d == Pow2(k) * Second
    ensures k >= 6 ==> d == MaxRetryDelay
  {
    Pow2AroundSix(k);
    var raw := MinRetryDelay * Pow2(k);
    if raw > MaxRetryDelay then MaxRetryDelay else raw
  }

  /**
    The delay actually waited: the base delay `d` plus a jitter in
    `[0, d/2)` minus `d/4`, so between three quarters and five quarters of
    `d`. Durations are positive here, so Go's truncating division agrees
    with Dafny's.
   */
  function RetryDelay(k: nat, draw: nat): (r: int)
    ensures BaseDelay(k) - BaseDelay(k) / 4 <= r < BaseDelay(k) + BaseDelay(k) / 2 - BaseDelay(k) / 4
    ensures 750_000_000 <= r < 75 * Second
  {
    var d := BaseDelay(k);
    d + draw % (d / 2) - d / 4
  }

  /** Every jitter in `[0, d/2)` is reached by some draw, and gives `d + j - d/4`. */
  lemma JitterIsTheDraw(k: nat, j: nat)
    requires j < BaseDelay(k) / 2
    ensures RetryDelay(k, j) == BaseDelay(k) + j - BaseDelay(k) / 4
  {
    ModBelow(j, BaseDelay(k) / 2);
  }

  lemma ModBelow(j: nat, n: nat)
    requires j < n
    ensures j % n == j
  {
  }

  // The delay as written, in 64-bit arithmetic

  /** A Go int64 result: the integer congruent to `x` modulo 2^64 in the int64 range. */
  function WrapInt64(x: int): (r: int)
    ensures MinInt64 <= r <= MaxInt64
    ensures (r - x) % 0x1_0000_0000_0000_0000 == 0
    ensures MinInt64 <= x <= MaxInt64 ==> r == x
  {
    (x - MinInt64) % 0x1_0000_0000_0000_0000 + MinInt64
  }

  /** Go's `/` on integers: the quotient truncated toward zero. */
  function GoQuo(a: int, b: int): int
    requires b > 0
  {
    if a >= 0 then a / b else -((-a) / b)
  }

  /**
    The capped exponential delay exactly as the worker computes it: the
    shift and the multiplication by one second both wrap around in int64
    before the cap is applied.
   */
  function DelayAsWritten(k: nat): int {
    var raw := WrapInt64(MinRetryDelay * WrapInt64(Pow2(k)));
    if raw > MaxRetryDelay then MaxRetryDelay else raw
  }

  /**
    The delay returned as written, or None where `rand.Int63n` panics
    because its bound `delay / 2` is not positive.
   */
  function RetryDelayAsWritten(k: nat, draw: nat): Option<int> {
    var d := DelayAsWritten(k);
    var n := GoQuo(d, 2);
    if n <= 0 then None
    else Some(WrapInt64(WrapInt64(d + draw % n) - GoQuo(d, 4)))
  }

  /** Up to 33 retries nothing wraps, and the delay as written is the intended one. */
  lemma AsWrittenAgreesBelowOverflow(k: nat, draw: nat)
    requires k <= 33
    ensures DelayAsWritten(k) == BaseDelay(k)
    ensures RetryDelayAsWritten(k, draw) == Some(RetryDelay(k, draw))
  {
    Pow2Monotone(k, 33);
    Pow2Values();
  }

  /**
    At 34 retries, one second times 2^34 exceeds the int64 range and wraps
    to a negative duration; the cap does not catch it and `rand.Int63n`
    panics, whatever the draw.
   */
  lemma OverflowAtThirtyFour(draw: nat)
    ensures DelayAsWritten(34) == -1266874889709551616
    ensures RetryDelayAsWritten(34, draw) == None
  {
    Pow2Values();
  }

  /**
    From 55 retries on the delay as written is zero: one second is
    1953125 * 2^9 ns, so one second times 2^k is a multiple of 2^64 once
    k + 9 >= 64 (from 64 retries on the shift itself is already zero).
   */
  lemma ZeroFromFiftyFive(k: nat, draw: nat)
    requires k >= 55
    ensures DelayAsWritten(k) == 0
    ensures RetryDelayAsWritten(k, draw) == None
  {
    Pow2Values();
    if k >= 64 {
      Pow2Add(64, k - 64);
      WrapOfMultiple(Pow2(k - 64));
    } else {
      SecondTimesPow2(k);
    }
  }

  /** At 54 retries one second times 2^54 is an odd multiple of 2^63 and wraps to MinInt64. */
  lemma MinAtFiftyFour(draw: nat)
    ensures DelayAsWritten(54) == MinInt64
    ensures RetryDelayAsWritten(54, draw) == None
  {
    Pow2FiftyFive();
    assert Pow2(55) == 2 * Pow2(54);
    var p := Pow2(54);
    assert p * 1024 == 0x1_0000_0000_0000_0000;
    assert WrapInt64(p) == p;
    assert MinRetryDelay * p == 0x1_0000_0000_0000_0000 * 976562 + 0x8000_0000_0000_0000;
    WrapOfOddHalf(976562);
  }

  /** An odd multiple of 2^63 wraps to MinInt64. */
  lemma WrapOfOddHalf(x: int)
    ensures WrapInt64(0x1_0000_0000_0000_0000 * x + 0x8000_0000_0000_0000) == MinInt64
  {
    var m := 0x1_0000_0000_0000_0000;
    var y := m * x + m;
    var q, r := y / m, y % m;
    assert y == m * q + r && 0 <= r < m;
    assert m * (q - x - 1) == -r;
    assert r == 0;
  }

  /** Below 64 retries and from 55 on, one second times the wrapped shift wraps to zero. */
  lemma SecondTimesPow2(k: nat)
    requires 55 <= k < 64
    ensures WrapInt64(MinRetryDelay * WrapInt64(Pow2(k))) == 0
  {
    Pow2FiftyFive();
    if k == 63 {
      SecondTimesPow2At63(Pow2(55));
    } else {
      Pow2Add(55, k - 55);
      Pow2Monotone(k, 62);
      Pow2Add(62, 1);
      Pow2Values();
      SecondTimesMultiple(Pow2(k), Pow2(55), Pow2(k - 55));
    }
  }

  /** 2^55 * 2^9 = 2^64. */
  lemma Pow2FiftyFive()
    ensures Pow2(55) * 512 == 0x1_0000_0000_0000_0000
  {
    Pow2Values();
    Pow2Add(55, 9);
    Pow2Small();
    assert Pow2(9) == 512;
  }

  /** 2^63 wraps to MinInt64, and one second times it to zero. */
  lemma SecondTimesPow2At63(p55: nat)
    requires p55 * 512 == 0x1_0000_0000_0000_0000 && Pow2(55) == p55
    ensures WrapInt64(MinRetryDelay * WrapInt64(Pow2(63))) == 0
  {
    Pow2Values();
    Pow2Add(63, 1);
    assert Pow2(63) == 0x8000_0000_0000_0000;
    assert WrapInt64(Pow2(63)) == MinInt64;
    assert MinRetryDelay * MinInt64 == 0x1_0000_0000_0000_0000 * (-1953125 * 256);
    WrapOfMultiple(-1953125 * 256);
  }

  /** A shift that fits in int64 and is a multiple of 2^55 gives one second times it a multiple of 2^64. */
  lemma SecondTimesMultiple(p: nat, p55: nat, rest: nat)
    requires p55 * 512 == 0x1_0000_0000_0000_0000 && p == p55 * rest && p <= MaxInt64
    ensures WrapInt64(MinRetryDelay * WrapInt64(p)) == 0
  {
    assert WrapInt64(p) == p;
    calc {
      MinRetryDelay * p;
      1953125 * 512 * (p55 * rest);
      { MulRegroup(1953125, 512, p55, rest); }
      1953125 * rest * (p55 * 512);
      0x1_0000_0000_0000_0000 * (1953125 * rest);
    }
    WrapOfMultiple(1953125 * rest);
  }

  /** Products of four factors regroup freely. */
  lemma MulRegroup(a: int, b: int, c: int, d: int)
    ensures a * b * (c * d) == a * d * (c * b)
  {
  }

  /** A multiple of 2^64 wraps to zero. */
  lemma WrapOfMultiple(x: int)
    ensures WrapInt64(0x1_0000_0000_0000_0000 * x) == 0
  {
    var m := 0x1_0000_0000_0000_0000;
    var y := m * x + 0x8000_0000_0000_0000;
    var q, r := y / m, y % m;
    assert y == m * q + r && 0 <= r < m;
    assert m * (q - x) == 0x8000_0000_0000_0000 - r;
    assert r == 0x8000_0000_0000_0000;
  }

  // ---------------------------------------------------------------------
  // The stream

  /** What a receive on the stream, or on the context, yields. */
  datatype StreamEvent =
    | Received(m: Option<Result>)   // a value from the channel; None is a nil result
    | Closed                        // the channel was closed
    | Cancelled                     // the context was done

  /** How `listenForResults` returned. */
  datatype Ending = Exhausted | StreamClosed | Disconnected | ContextDone

  /** A result by which the client library reports that the stream disconnected. */
  predicate IsDisconnect(m: Result) {
    m.parseError.Some? && HasPrefix(m.parseError.value, DisconnectPrefix)
  }

  /**
    What the listener forwards: every non-nil result in arrival order, up to
    the first close, cancellation or disconnect result, which is not
    forwarded itself.
   */
  function Listen(events: seq<StreamEvent>): seq<Result> {
    if events == [] then []
    else match events[0]
      case Closed => []
      case Cancelled => []
      case Received(None) => Listen(events[1..])
      case Received(Some(m)) => if IsDisconnect(m) then [] else [m] + Listen(events[1..])
  }

  /** Why the listener stopped; Exhausted means the events so far did not stop it. */
  function EndingOf(events: seq<StreamEvent>): Ending {
    if events == [] then Exhausted
    else match events[0]
      case Closed => StreamClosed
      case Cancelled => ContextDone
      case Received(None) => EndingOf(events[1..])
      case Received(Some(m)) => if IsDisconnect(m) then Disconnected else EndingOf(events[1..])
  }

  /** Whether an event makes the listener return. */
  predicate Stops(e: StreamEvent) {
    e.Closed? || e.Cancelled? || (e.Received? && e.m.Some? && IsDisconnect(e.m.value))
  }

  /** The results delivered by the events, with nil results dropped. */
  function Delivered(events: seq<StreamEvent>): seq<Result> {
    if events == [] then []
    else if events[0].Received? && events[0].m.Some? then [events[0].m.value] + Delivered(events[1..])
    else Delivered(events[1..])
  }

  /** Nothing forwarded is a disconnect report. */
  lemma {:induction false} ListenNeverForwardsDisconnect(events: seq<StreamEvent>)
    ensures forall i :: 0 <= i < |Listen(events)| ==> !IsDisconnect(Listen(events)[i])
    decreases |events|
  {
    if events != [] {
      ListenNeverForwardsDisconnect(events[1..]);
    }
  }

  /**
    While nothing stops the listener, it forwards every delivered result,
    unchanged and in order, including results with other parse errors.
   */
  lemma {:induction false} ListenForwardsAll(events: seq<StreamEvent>)
    requires forall i :: 0 <= i < |events| ==> !Stops(events[i])
    ensures Listen(events) == Delivered(events)
    ensures EndingOf(events) == Exhausted
    decreases |events|
  {
    if events != [] {
      assert !Stops(events[0]);
      ListenForwardsAll(events[1..]);
    }
  }

  /** Nothing after the event that stops the listener is forwarded. */
  lemma {:induction false} ListenIgnoresAfterStop(before: seq<StreamEvent>, stop: StreamEvent, after: seq<StreamEvent>)
    requires forall i :: 0 <= i < |before| ==> !Stops(before[i])
    requires Stops(stop)
    ensures Listen(before + [stop] + after) == Delivered(before)
    ensures EndingOf(before + [stop] + after) != Exhausted
    decreases |before|
  {
    var es := before + [stop] + after;
    if before == [] {
      assert es[0] == stop;
    } else {
      assert es[0] == before[0] && !Stops(before[0]);
      assert es[1..] == before[1..] + [stop] + after;
      ListenIgnoresAfterStop(before[1..], stop, after);
    }
  }

  /** The listener's results are a prefix of what the stream delivered. */
  lemma {:induction false} ListenIsPrefixOfDelivered(events: seq<StreamEvent>)
    ensures |Listen(events)| <= |Delivered(events)|
    ensures Listen(events) == Delivered(events)[..|Listen(events)|]
    decreases |events|
  {
    if events != [] {
      ListenIsPrefixOfDelivered(events[1..]);
    }
  }

  // ---------------------------------------------------------------------
  // Reconnecting

  /**
    One pass of the worker's loop: whether the client library's subscribe
    call succeeds, the events of the stream if it does, the random draw of
    the delay and whether the context is done when the worker waits.
   */
  datatype Round = Round(streamOk: bool, events: seq<StreamEvent>, draw: nat, cancelled: bool)

  /** Whether `subscribe` succeeds for this id in this round. */
  predicate Subscribed(id: string, r: Round) {
    Atoi(id).Some? && r.streamOk
  }

  /**
    The retry counter after one round: a failure counts one more attempt; a
    connection resets it and then counts the reconnection, so it is 1.
   */
  function NextAttempt(k: nat, subscribed: bool): nat {
    if subscribed then 1 else k + 1
  }

  /** Whether the worker returns after this round. */
  predicate RoundEnds(id: string, r: Round) {
    r.cancelled || (Subscribed(id, r) && EndingOf(r.events) == ContextDone)
  }

  /** What a run leaves behind: the delays waited, the final counter and the results sent. */
  datatype Trace = Trace(delays: seq<int>, attempt: nat, sent: seq<Result>)

  /**
    The worker's loop over the rounds from counter `k`: each round computes
    a delay from the counter it leaves, and the run ends at the first round
    in which the context is done.
   */
  function Run(id: string, k: nat, rounds: seq<Round>): Trace
    decreases |rounds|
  {
    if rounds == [] then Trace([], k, [])
    else
      var r := rounds[0];
      var k' := NextAttempt(k, Subscribed(id, r));
      var out := if Subscribed(id, r) then Listen(r.events) else [];
      var d := RetryDelay(k', r.draw);
      if RoundEnds(id, r) then Trace([d], k', out)
      else
        var rest := Run(id, k', rounds[1..]);
        Trace([d] + rest.delays, rest.attempt, out + rest.sent)
  }

  /** One round of `Run`: its delay and sent results, then either the end or the rest of the rounds. */
  lemma RunStep(id: string, k: nat, rounds: seq<Round>)
    requires rounds != []
    ensures var r := rounds[0];
      var k' := NextAttempt(k, Subscribed(id, r));
      var out := if Subscribed(id, r) then Listen(r.events) else [];
      var d := RetryDelay(k', r.draw);
      var rest := Run(id, k', rounds[1..]);
      Run(id, k, rounds) == if RoundEnds(id, r) then Trace([d], k', out)
        else Trace([d] + rest.delays, rest.attempt, out + rest.sent)
  {
  }

  /**
    A measurement id that is not a decimal integer fails every subscribe:
    nothing is ever sent, the counter grows by one per round, and the i-th
    delay is computed from counter `k + i + 1`.
   */
  lemma {:induction false} RunWithUnparsableId(id: string, k: nat, rounds: seq<Round>)
    requires Atoi(id).None?
    requires forall i :: 0 <= i < |rounds| ==> !rounds[i].cancelled
    ensures Run(id, k, rounds).attempt == k + |rounds|
    ensures Run(id, k, rounds).sent == []
    ensures |Run(id, k, rounds).delays| == |rounds|
    ensures forall i :: 0 <= i < |rounds| ==> Run(id, k, rounds).delays[i] == RetryDelay(k + i + 1, rounds[i].draw)
    decreases |rounds|
  {
    if rounds != [] {
      var r := rounds[0];
      var rest := Run(id, k + 1, rounds[1..]);
      RunWithUnparsableId(id, k + 1, rounds[1..]);
      assert !Subscribed(id, r) && !RoundEnds(id, r);
      RunStep(id, k, rounds);
      var t := Run(id, k, rounds);
      assert t == Trace([RetryDelay(k + 1, r.draw)] + rest.delays, rest.attempt, [] + rest.sent);
      forall i | 1 <= i < |rounds|
        ensures t.delays[i] == RetryDelay(k + i + 1, rounds[i].draw)
      {
        assert t.delays[i] == rest.delays[i - 1];
        assert rounds[1..][i - 1] == rounds[i];
      }
    }
  }

  /**
    The 34th consecutive failure from a fresh counter is where the delay as
    written panics: the worker of an unparsable id crashes the process after
    33 waits.
   */
  lemma UnparsableIdReachesOverflow(id: string, rounds: seq<Round>)
    requires Atoi(id).None?
    requires |rounds| >= 34
    requires forall i :: 0 <= i < |rounds| ==> !rounds[i].cancelled
    ensures |Run(id, 0, rounds).delays| == |rounds|
    ensures Run(id, 0, rounds).delays[33] == RetryDelay(34, rounds[33].draw)
    ensures RetryDelayAsWritten(34, rounds[33].draw) == None
    ensures forall i :: 0 <= i < 33 ==> RetryDelayAsWritten(i + 1, rounds[i].draw) == Some(Run(id, 0, rounds).delays[i])
  {
    RunWithUnparsableId(id, 0, rounds);
    OverflowAtThirtyFour(rounds[33].draw);
    forall i | 0 <= i < 33
      ensures RetryDelayAsWritten(i + 1, rounds[i].draw) == Some(Run(id, 0, rounds).delays[i])
    {
      AsWrittenAgreesBelowOverflow(i + 1, rounds[i].draw);
    }
  }

  /**
    After a connection the next delay is computed from counter 1, whatever
    the counter was before, and the listener's results are sent.
   */
  lemma AfterConnection(id: string, k: nat, r: Round, rest: seq<Round>)
    requires Subscribed(id, r) && !RoundEnds(id, r)
    ensures Run(id, k, [r] + rest).delays[0] == RetryDelay(1, r.draw)
    ensures Run(id, k, [r] + rest) == Run(id, 0, [r] + rest)
    ensures Run(id, k, [r] + rest).sent == Listen(r.events) + Run(id, 1, rest).sent
  {
    assert ([r] + rest)[0] == r && ([r] + rest)[1..] == rest;
  }

  /** A cancelled context ends the run in that round, after one more delay is computed. */
  lemma CancelledEndsRun(id: string, k: nat, r: Round, rest: seq<Round>)
    requires r.cancelled
    ensures |Run(id, k, [r] + rest).delays| == 1
    ensures Run(id, k, [r] + rest) == Run(id, k, [r])
  {
    assert ([r] + rest)[0] == r && [r][1..] == [];
  }

  /** The worker of one configured measurement. */
  class Worker {
    const measurementId: string
    var retryAttempt: nat
    /** Every result sent to the shared result channel, in order. */
    var sent: seq<Result>

    constructor (measurementId: string)
      ensures this.measurementId == measurementId
      ensures retryAttempt == 0 && sent == []
    {
      this.measurementId := measurementId;
      retryAttempt := 0;
      sent := [];
    }

    /**
      `subscribe`: the numeric measurement id when the id is a decimal
      integer and the client library's subscribe call succeeds.
     */
    method Subscribe(streamOk: bool) returns (msm: Option<int>)
      ensures msm.Some? <==> Atoi(measurementId).Some? && streamOk
      ensures msm.Some? ==> msm == Atoi(measurementId)
    {
      var parsed := Atoi(measurementId);
      if parsed.None? {
        return None;
      }
      if !streamOk {
        return None;
      }
      msm := parsed;
    }

    /** `listenForResults`: forwards the stream's results until it stops. */
    method ListenForResults(events: seq<StreamEvent>) returns (ending: Ending)
      modifies this
      ensures sent == old(sent) + Listen(events)
      ensures ending == EndingOf(events)
      ensures retryAttempt == old(retryAttempt)
    {
      var i := 0;
      while i < |events|
        invariant 0 <= i <= |events|
        invariant old(sent) + Listen(events) == sent + Listen(events[i..])
        invariant EndingOf(events[i..]) == EndingOf(events)
        invariant retryAttempt == old(retryAttempt)
      {
        assert events[i..][1..] == events[i + 1..];
        match events[i] {
          case Closed =>
            return StreamClosed;
          case Cancelled =>
            return ContextDone;
          case Received(None) =>
          case Received(Some(m)) =>
            if m.parseError.Some? && HasPrefix(m.parseError.value, DisconnectPrefix) {
              return Disconnected;
            }
            sent := sent + [m];
        }
        i := i + 1;
      }
      return Exhausted;
    }

    /**
      One pass of `run`'s loop: subscribe, listen if subscribed, count the
      attempt, compute the delay; `done` tells whether the context is done
      when the worker would wait.
     */
    method RunOnce(r: Round) returns (delay: int, done: bool)
      modifies this
      ensures retryAttempt == NextAttempt(old(retryAttempt), Subscribed(measurementId, r))
      ensures sent == old(sent) + (if Subscribed(measurementId, r) then Listen(r.events) else [])
      ensures delay == RetryDelay(retryAttempt, r.draw)
      ensures done == RoundEnds(measurementId, r)
    {
      var msm := Subscribe(r.streamOk);
      var ending := Exhausted;
      if msm.None? {
        retryAttempt := retryAttempt + 1;
      } else {
        retryAttempt := 0;
        ending := ListenForResults(r.events);
        retryAttempt := retryAttempt + 1;
      }
      delay := RetryDelay(retryAttempt, r.draw);
      done := r.cancelled || ending == ContextDone;
    }

    /**
      `run`: subscribes, listens, counts the attempt and waits, round after
      round, until the context is done; `delays` are the delays waited or
      computed, one per round.
     */
    method RunRounds(rounds: seq<Round>) returns (delays: seq<int>)
      modifies this
      ensures var t := Run(measurementId, old(retryAttempt), rounds);
        delays == t.delays && retryAttempt == t.attempt && sent == old(sent) + t.sent
    {
      ghost var t := Run(measurementId, retryAttempt, rounds);
      ghost var sent0 := sent;
      delays := [];
      var todo := rounds;
      while todo != []
        invariant t.delays == delays + Run(measurementId, retryAttempt, todo).delays
        invariant t.attempt == Run(measurementId, retryAttempt, todo).attempt
        invariant sent0 + t.sent == sent + Run(measurementId, retryAttempt, todo).sent
        decreases |todo|
      {
        RunStep(measurementId, retryAttempt, todo);
        var delay, done := RunOnce(todo[0]);
        delays := delays + [delay];
        if done {
          return;
        }
        todo := todo[1..];
      }
    }
  }
}
