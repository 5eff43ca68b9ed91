/** The circuit breaker with every method as one atomic step. The failure counter is a 32-bit
    integer, time and durations are integers (nanoseconds). */
module Breaker {
  import opened Prelude

  datatype Phase = Closed | Open | HalfOpen

  /** The breaker's fields, and the two metrics its state-change callback maintains. */
  datatype Circuit = Circuit(phase: Phase, failures: int, lastOpen: int, cooldown: int, trips: nat, gauge: bool)

  datatype Event =
    | Failure(now: int)
    | Success
    | Probe(now: int)
    | SetCooldown(cooldown: int)

  /** 32-bit wrap-around of a sum that overflows by at most one. */
  function Wrap32(x: int): int {
    if x >= 0x8000_0000 then x - 0x1_0000_0000
    else if x < -0x8000_0000 then x + 0x1_0000_0000
    else x
  }

  predicate Int32(x: int) {
    -0x8000_0000 <= x < 0x8000_0000
  }

  function Initial(cooldown: int): Circuit {
    Circuit(Closed, 0, 0, cooldown, 0, false)
  }

  ghost function Tripped(c: Circuit, now: int): Circuit {
    c.(phase := Open, lastOpen := now, failures := 0, trips := c.trips + 1, gauge := true)
  }

  ghost function Step(threshold: int, c: Circuit, e: Event): Circuit {
    match e
    case Failure(now) =>
      var n := Wrap32(c.failures + 1);
      if c.phase == HalfOpen || (c.phase == Closed && n >= threshold) then Tripped(c, now)
      else c.(failures := n)
    case Success =>
      if c.phase == HalfOpen then c.(phase := Closed, failures := 0, gauge := false)
      else if c.phase == Closed && c.failures > 0 then c.(failures := c.failures - 1)
      else c
    case Probe(now) =>
      if c.phase == Open && now - c.lastOpen > c.cooldown then c.(phase := HalfOpen) else c
    case SetCooldown(d) => c.(cooldown := d)
  }

  ghost function After(threshold: int, cooldown: int, h: seq<Event>): Circuit {
    if h == [] then Initial(cooldown)
    else Step(threshold, After(threshold, cooldown, h[..|h| - 1]), h[|h| - 1])
  }

  class CircuitBreaker {
    const threshold: int
    ghost const firstCooldown: int
    var state: Phase
    var failures: int
    var lastOpen: int
    var cooldown: int
    var trips: nat
    var gauge: bool
    ghost var history: seq<Event>

    ghost function Value(): Circuit
      reads this
    {
      Circuit(state, failures, lastOpen, cooldown, trips, gauge)
    }

    ghost predicate Valid()
      reads this
    {
      1 <= threshold && Int32(threshold) && Value() == After(threshold, firstCooldown, history)
    }

    constructor (threshold: int, cooldown: int)
      requires 1 <= threshold && Int32(threshold)
      ensures Valid() && history == [] && state == Closed && this.threshold == threshold
    {
      this.threshold := threshold;
      firstCooldown, this.cooldown := cooldown, cooldown;
      state, failures, lastOpen, trips, gauge := Closed, 0, 0, 0, false;
      history := [];
    }

    /** From `Closed`, a failure trips exactly when some run of recent outcomes, this one
        included, has `threshold` more failures than successes. */
    method RecordFailure(now: int)
      requires Valid()
      modifies this
      ensures Valid() && history == old(history) + [Failure(now)]
      ensures old(state) == Closed ==>
                (state == Open <==> HasBadRun(threshold, old(SinceClosed(threshold, firstCooldown, history)) + [true]))
      ensures old(state) != Closed ==> state == Open
      ensures trips - old(trips) == if state == Open && old(state) != Open then 1 else 0
      ensures state == Open && old(state) != Open ==> failures == 0 && lastOpen == now
      ensures state == old(state) ==> failures == Wrap32(old(failures) + 1) && lastOpen == old(lastOpen)
    {
      if state == Closed {
        TripsOnBadRun(threshold, firstCooldown, history, Failure(now));
      }
      var n := Wrap32(failures + 1);
      failures := n;
      var prev := state;
      if prev == HalfOpen || (prev == Closed && n >= threshold) {
        state := Open;
        lastOpen := now;
        failures := 0;
        trips, gauge := trips + 1, true;
      }
      history := history + [Failure(now)];
      assert history[..|history| - 1] == old(history);
    }

    /** A success closes a half-open breaker, forgives one failure of a closed one, and means
        nothing to an open one. */
    method RecordSuccess()
      requires Valid()
      modifies this
      ensures Valid() && history == old(history) + [Success]
      ensures state == if old(state) == HalfOpen then Closed else old(state)
      ensures old(state) == Open ==> Value() == old(Value())
      ensures old(state) == HalfOpen ==> failures == 0
      ensures old(state) == Closed ==> failures == Max(0, old(failures) - 1)
    {
      ClosedIsNonNegative(threshold, firstCooldown, history);
      match state {
        case HalfOpen =>
          state, failures, gauge := Closed, 0, false;
        case Closed =>
          if failures > 0 {
            failures := failures - 1;
          }
        case Open =>
      }
      history := history + [Success];
      assert history[..|history| - 1] == old(history);
    }

    method IsOpen() returns (r: bool)
      requires Valid()
      ensures r <==> gauge
    {
      ClosedMeansWorstRun(threshold, firstCooldown, history);
      r := state == Open || state == HalfOpen;
    }

    /** A probe is let through only by an open breaker, more than the cooldown after it tripped. */
    method TryProbe(now: int) returns (ok: bool)
      requires Valid()
      modifies this
      ensures Valid() && history == old(history) + [Probe(now)]
      ensures ok <==>
                && old(state) == Open
                && var t := LastTrip(threshold, firstCooldown, old(history)); t.Some? && now - t.value > cooldown
      ensures state == if ok then HalfOpen else old(state)
      ensures failures == old(failures) && cooldown == old(cooldown) && trips == old(trips)
    {
      LastOpenIsLastTrip(threshold, firstCooldown, history);
      ok := false;
      if state == Open && !(now - lastOpen <= cooldown) {
        state := HalfOpen;
        ok := true;
      }
      history := history + [Probe(now)];
      assert history[..|history| - 1] == old(history);
    }

    method ChangeCooldown(d: int)
      requires Valid()
      modifies this
      ensures Valid() && history == old(history) + [SetCooldown(d)]
      ensures Value() == old(Value()).(cooldown := d)
    {
      cooldown := d;
      history := history + [SetCooldown(d)];
      assert history[..|history| - 1] == old(history);
    }
  }

  // ----- What trips the breaker -----

  /** Failures minus successes; `true` stands for a failure. */
  function Balance(s: seq<bool>): int {
    if s == [] then 0 else Balance(s[..|s| - 1]) + (if s[|s| - 1] then 1 else -1)
  }

  /** The reference rule: some suffix of the outcomes has a balance of `n` or more. */
  ghost predicate HasBadRun(n: int, s: seq<bool>) {
    exists i :: 0 <= i <= |s| && Balance(s[i..]) >= n
  }

  /** The leaky counter. */
  ghost function WorstRun(s: seq<bool>): nat {
    if s == [] then 0
    else Max(0, WorstRun(s[..|s| - 1]) + (if s[|s| - 1] then 1 else -1))
  }

  lemma BalanceOfSuffix(s: seq<bool>, i: nat)
    requires i < |s|
    ensures Balance(s[i..]) == Balance(s[..|s| - 1][i..]) + (if s[|s| - 1] then 1 else -1)
  {
    assert s[i..][..|s| - 1 - i] == s[..|s| - 1][i..];
  }

  lemma {:induction false} BalanceAtMostWorstRun(s: seq<bool>, i: nat)
    requires i <= |s|
    ensures Balance(s[i..]) <= WorstRun(s)
  {
    if i < |s| {
      BalanceOfSuffix(s, i);
      BalanceAtMostWorstRun(s[..|s| - 1], i);
    }
  }

  lemma {:induction false} WorstRunIsReached(s: seq<bool>) returns (i: nat)
    ensures i <= |s| && Balance(s[i..]) == WorstRun(s)
  {
    i := |s|;
    if s != [] && WorstRun(s) > 0 {
      i := WorstRunIsReached(s[..|s| - 1]);
      BalanceOfSuffix(s, i);
    }
  }

  /** The leaky counter is the largest balance of any suffix. */
  lemma WorstRunIsLargestBalance(s: seq<bool>, n: int)
    ensures n <= WorstRun(s) <==> HasBadRun(n, s)
  {
    if n <= WorstRun(s) {
      var i := WorstRunIsReached(s);
    }
    if i :| 0 <= i <= |s| && Balance(s[i..]) >= n {
      BalanceAtMostWorstRun(s, i);
    }
  }

  /** The outcomes recorded since the breaker last became closed. */
  ghost function SinceClosed(threshold: int, cooldown: int, h: seq<Event>): seq<bool> {
    if h == [] then []
    else
      var before := h[..|h| - 1];
      Extended(After(threshold, cooldown, before), SinceClosed(threshold, cooldown, before), h[|h| - 1])
  }

  ghost function Extended(c: Circuit, s: seq<bool>, e: Event): seq<bool> {
    if c.phase != Closed then []
    else if e.Failure? then s + [true]
    else if e.Success? then s + [false]
    else s
  }

  ghost predicate CountsWorstRun(threshold: int, c: Circuit, s: seq<bool>) {
    && c.gauge == (c.phase != Closed)
    && (c.phase == Closed ==> 0 <= c.failures == WorstRun(s) < threshold)
  }

  lemma StepCountsWorstRun(threshold: int, c: Circuit, s: seq<bool>, e: Event)
    requires 1 <= threshold && Int32(threshold) && CountsWorstRun(threshold, c, s)
    ensures CountsWorstRun(threshold, Step(threshold, c, e), Extended(c, s, e))
  {
    assert (s + [true])[..|s|] == s && (s + [false])[..|s|] == s;
  }

  /** In every run: while closed, the counter is below the threshold and equals the worst
      recent run of outcomes; and the gauge says whether the breaker is closed. */
  lemma {:induction false} ClosedMeansWorstRun(threshold: int, cooldown: int, h: seq<Event>)
    requires 1 <= threshold && Int32(threshold)
    ensures CountsWorstRun(threshold, After(threshold, cooldown, h), SinceClosed(threshold, cooldown, h))
  {
    if h != [] {
      var before := h[..|h| - 1];
      ClosedMeansWorstRun(threshold, cooldown, before);
      StepCountsWorstRun(threshold, After(threshold, cooldown, before), SinceClosed(threshold, cooldown, before), h[|h| - 1]);
    }
  }

  lemma ClosedIsNonNegative(threshold: int, cooldown: int, h: seq<Event>)
    requires 1 <= threshold && Int32(threshold)
    ensures After(threshold, cooldown, h).phase == Closed ==> After(threshold, cooldown, h).failures >= 0
  {
    ClosedMeansWorstRun(threshold, cooldown, h);
  }

  /** In every run, an event takes a closed breaker out of `Closed` exactly when it is a
      failure that gives the outcomes since the breaker closed a bad run; and then it opens. */
  lemma TripsOnBadRun(threshold: int, cooldown: int, h: seq<Event>, e: Event)
    requires 1 <= threshold && Int32(threshold)
    requires After(threshold, cooldown, h).phase == Closed
    ensures var next, s := Step(threshold, After(threshold, cooldown, h), e).phase, SinceClosed(threshold, cooldown, h);
            && next != HalfOpen
            && (next == Open <==> e.Failure? && HasBadRun(threshold, s + [true]))
  {
    ClosedMeansWorstRun(threshold, cooldown, h);
    StepFromClosed(threshold, After(threshold, cooldown, h), SinceClosed(threshold, cooldown, h), e);
  }

  lemma StepFromClosed(threshold: int, c: Circuit, s: seq<bool>, e: Event)
    requires Int32(threshold) && c.phase == Closed && c.failures == WorstRun(s) < threshold
    ensures Step(threshold, c, e).phase == if e.Failure? && HasBadRun(threshold, s + [true]) then Open else Closed
  {
    assert Wrap32(c.failures + 1) == c.failures + 1;
    assert WorstRun(s + [true]) == WorstRun(s) + 1 by {
      assert (s + [true])[..|s|] == s;
    }
    WorstRunIsLargestBalance(s + [true], threshold);
  }

  /** When the breaker last entered `Open`. */
  ghost function LastTrip(threshold: int, cooldown: int, h: seq<Event>): Option<int> {
    if h == [] then None
    else
      var before, e := h[..|h| - 1], h[|h| - 1];
      var c := After(threshold, cooldown, before);
      if e.Failure? && c.phase != Open && Step(threshold, c, e).phase == Open then Some(e.now)
      else LastTrip(threshold, cooldown, before)
  }

  lemma {:induction false} LastOpenIsLastTrip(threshold: int, cooldown: int, h: seq<Event>)
    ensures var c := After(threshold, cooldown, h);
            c.phase != Closed ==> LastTrip(threshold, cooldown, h) == Some(c.lastOpen)
  {
    if h != [] {
      LastOpenIsLastTrip(threshold, cooldown, h[..|h| - 1]);
    }
  }

  /** In every run, whatever the event that starts a probe, it comes more than the cooldown
      after the latest trip. */
  lemma ProbesWaitForCooldown(threshold: int, cooldown: int, h: seq<Event>, e: Event)
    ensures var c, t := After(threshold, cooldown, h), LastTrip(threshold, cooldown, h);
            c.phase != HalfOpen && Step(threshold, c, e).phase == HalfOpen ==>
              e.Probe? && c.phase == Open && t.Some? && e.now - t.value > c.cooldown
  {
    LastOpenIsLastTrip(threshold, cooldown, h);
  }

  // ----- The documented rule: "consecutive failures" -----

  ghost predicate EndsInFailures(n: nat, s: seq<bool>) {
    n <= |s| && forall i :: |s| - n <= i < |s| ==> s[i]
  }

  /** Outcomes during which a freshly closed breaker stayed closed. */
  ghost predicate Untripped(threshold: int, s: seq<bool>) {
    forall k :: 0 <= k <= |s| ==> WorstRun(s[..k]) < threshold
  }

  lemma {:induction false} BalanceOfFailures(s: seq<bool>)
    requires forall i :: 0 <= i < |s| ==> s[i]
    ensures Balance(s) == |s|
  {
    if s != [] {
      BalanceOfFailures(s[..|s| - 1]);
    }
  }

  /** `threshold` failures in a row always trip. */
  lemma ConsecutiveFailuresTrip(threshold: nat, s: seq<bool>)
    requires EndsInFailures(threshold, s)
    ensures HasBadRun(threshold, s)
  {
    BalanceOfFailures(s[|s| - threshold..]);
  }

  /** One success among `threshold` failures: the breaker trips after two in a row. */
  ghost function NearMiss(threshold: nat): seq<bool>
    requires 2 <= threshold
  {
    seq(threshold - 1, i => true) + [false, true]
  }

  lemma {:induction false} WorstRunOfFailures(n: nat)
    ensures WorstRun(seq(n, i => true)) == n
  {
    if n > 0 {
      WorstRunOfFailures(n - 1);
      assert seq(n, i => true)[..n - 1] == seq(n - 1, i => true);
    }
  }

  lemma NearMissTrips(threshold: nat)
    requires 3 <= threshold
    ensures var s := NearMiss(threshold);
            && Untripped(threshold, s) && WorstRun(s + [true]) == threshold
            && !EndsInFailures(threshold, s + [true])
  {
    var s := NearMiss(threshold);
    var n := threshold - 1;
    forall k | 0 <= k <= |s|
      ensures WorstRun(s[..k]) == if k <= n then k else if k == n + 1 then n - 1 else n
    {
      WorstRunOfFailures(Min(k, n));
      if k <= n {
        assert s[..k] == seq(k, i => true);
      } else {
        var f := seq(n, i => true);
        assert s[..n + 1][..n] == f;
        assert s[..n + 2][..n + 1] == s[..n + 1];
      }
    }
    assert (s + [true])[..|s|] == s && s[..|s|] == s;
    assert !(s + [true])[n];
  }

  lemma SmallThresholds(threshold: nat, s: seq<bool>)
    requires 1 <= threshold <= 2 && Untripped(threshold, s)
    ensures WorstRun(s + [true]) >= threshold ==> EndsInFailures(threshold, s + [true])
  {
    assert (s + [true])[..|s|] == s && s[..|s|] == s;
    if threshold == 2 && s != [] && !s[|s| - 1] {
      assert WorstRun(s[..|s| - 1]) < threshold;
    }
  }

  /** The rule in the documentation is the code's rule exactly for thresholds one and two:
      from three on, a success in between takes back only one failure. */
  lemma DocumentedRuleExactWhenSmall(threshold: nat)
    requires 1 <= threshold
    ensures (forall s :: Untripped(threshold, s) ==>
              (HasBadRun(threshold, s + [true]) <==> EndsInFailures(threshold, s + [true])))
            <==> threshold <= 2
  {
    if threshold <= 2 {
      forall s | Untripped(threshold, s)
        ensures HasBadRun(threshold, s + [true]) <==> EndsInFailures(threshold, s + [true])
      {
        WorstRunIsLargestBalance(s + [true], threshold);
        SmallThresholds(threshold, s);
        if EndsInFailures(threshold, s + [true]) {
          ConsecutiveFailuresTrip(threshold, s + [true]);
        }
      }
    } else {
      var s := NearMiss(threshold);
      NearMissTrips(threshold);
      WorstRunIsLargestBalance(s + [true], threshold);
    }
  }
}
