/** The breaker together with the queries it gates. A query that is let through reports one outcome,
    unless its context is done or has no time left: then it reports nothing. This says what that
    does to a probe. Breaker methods are atomic. */
module Probes {
  import opened Prelude
  import opened Breaker

  datatype Action =
    | PassClosed(t: nat)                   // the gate read Closed
    | TryGate(t: nat, now: int)            // the gate read Open or HalfOpen earlier and tries to probe
    | PassUngated(t: nat)                  // a stored name is asked past the gate
    | GiveUp(t: nat)                       // no time left: the query ends without an outcome
    | Tell(t: nat, ok: bool, now: int)     // the query reports its outcome
    | Configure(cooldown: int)

  /** The breaker, the queries started so far and those that have yet to report. */
  datatype Traffic = Traffic(circuit: Circuit, started: set<nat>, pending: set<nat>)

  ghost predicate Enabled(s: Traffic, a: Action) {
    match a
    case PassClosed(t) => t !in s.started && s.circuit.phase == Closed
    case TryGate(t, _) => t !in s.started
    case PassUngated(t) => t !in s.started
    case GiveUp(t) => t in s.pending
    case Tell(t, _, _) => t in s.pending
    case Configure(_) => true
  }

  ghost function LetThrough(s: Traffic, t: nat): Traffic {
    s.(started := s.started + {t}, pending := s.pending + {t})
  }

  /** A probe at `now` wins the swap. */
  ghost predicate Wins(s: Traffic, now: int) {
    s.circuit.phase == Open && now - s.circuit.lastOpen > s.circuit.cooldown
  }

  ghost function Do(threshold: int, s: Traffic, a: Action): Traffic {
    match a
    case PassClosed(t) => LetThrough(s, t)
    case TryGate(t, now) =>
      var next := s.(circuit := Step(threshold, s.circuit, Probe(now)));
      if Wins(s, now) then LetThrough(next, t) else next.(started := s.started + {t})
    case PassUngated(t) => LetThrough(s, t)
    case GiveUp(t) => s.(pending := s.pending - {t})
    case Tell(t, ok, now) =>
      s.(circuit := Step(threshold, s.circuit, if ok then Success else Failure(now)), pending := s.pending - {t})
    case Configure(d) => s.(circuit := Step(threshold, s.circuit, SetCooldown(d)))
  }

  ghost function Reached(threshold: int, cooldown: int, run: seq<Action>): Traffic {
    if run == [] then Traffic(Initial(cooldown), {}, {})
    else Do(threshold, Reached(threshold, cooldown, run[..|run| - 1]), run[|run| - 1])
  }

  ghost predicate Runs(threshold: int, cooldown: int, run: seq<Action>) {
    run != [] ==>
      && Runs(threshold, cooldown, run[..|run| - 1])
      && Enabled(Reached(threshold, cooldown, run[..|run| - 1]), run[|run| - 1])
  }

  ghost predicate PendingStarted(s: Traffic) {
    s.pending <= s.started
  }

  lemma {:induction false} PendingWereStarted(threshold: int, cooldown: int, run: seq<Action>)
    requires Runs(threshold, cooldown, run)
    ensures PendingStarted(Reached(threshold, cooldown, run))
  {
    if run != [] {
      PendingWereStarted(threshold, cooldown, run[..|run| - 1]);
    }
  }

  /** What can happen to a half-open breaker: any outcome ends it; nobody gets through the gate; a
      query leaves without an outcome only by giving up. */
  lemma StepWhileHalfOpen(threshold: int, s: Traffic, a: Action)
    requires Enabled(s, a) && PendingStarted(s) && s.circuit.phase == HalfOpen
    ensures Do(threshold, s, a).circuit.phase == HalfOpen <==> !a.Tell?
    ensures !a.Tell? ==>
              Do(threshold, s, a).pending == (if a.GiveUp? then s.pending - {a.t}
                                              else if a.PassUngated? then s.pending + {a.t}
                                              else s.pending)
  {
  }

  lemma StepIntoHalfOpen(threshold: int, s: Traffic, a: Action)
    requires Enabled(s, a) && s.circuit.phase != HalfOpen && Do(threshold, s, a).circuit.phase == HalfOpen
    ensures a.TryGate? && Wins(s, a.now) && a.t in Do(threshold, s, a).pending && a.t in Do(threshold, s, a).started
  {
  }

  /** The last time the breaker became half-open, in a run that ends half-open: at step `i`, for
      the probe of caller `t`. */
  ghost predicate ProbedAt(threshold: int, cooldown: int, run: seq<Action>, i: nat, t: nat) {
    && i < |run| && run[i].TryGate? && run[i].t == t
    && Wins(Reached(threshold, cooldown, run[..i]), run[i].now)
    && forall k :: i < k < |run| ==> !run[k].Tell?
  }

  ghost predicate GaveUpAfter(run: seq<Action>, i: nat, t: nat) {
    exists k :: i < k < |run| && run[k] == GiveUp(t)
  }

  /** In every run that ends half-open there is one probe the breaker waits for, no outcome was
      reported since, and that probe is still to report exactly unless it ran out of time. */
  lemma {:induction false} HalfOpenWaitsForProbe(threshold: int, cooldown: int, run: seq<Action>) returns (i: nat, t: nat)
    requires Runs(threshold, cooldown, run) && Reached(threshold, cooldown, run).circuit.phase == HalfOpen
    ensures ProbedAt(threshold, cooldown, run, i, t) && t in Reached(threshold, cooldown, run).started
    ensures t in Reached(threshold, cooldown, run).pending <==> !GaveUpAfter(run, i, t)
  {
    var before, a := run[..|run| - 1], run[|run| - 1];
    var s := Reached(threshold, cooldown, before);
    PendingWereStarted(threshold, cooldown, before);
    if s.circuit.phase == HalfOpen {
      i, t := HalfOpenWaitsForProbe(threshold, cooldown, before);
      StepWhileHalfOpen(threshold, s, a);
      LongerRun(threshold, cooldown, run, i, t);
    } else {
      StepIntoHalfOpen(threshold, s, a);
      i, t := |before|, a.t;
    }
  }

  lemma LongerRun(threshold: int, cooldown: int, run: seq<Action>, i: nat, t: nat)
    requires run != [] && ProbedAt(threshold, cooldown, run[..|run| - 1], i, t) && !run[|run| - 1].Tell?
    ensures ProbedAt(threshold, cooldown, run, i, t)
    ensures GaveUpAfter(run, i, t) <==> GaveUpAfter(run[..|run| - 1], i, t) || run[|run| - 1] == GiveUp(t)
  {
    var before := run[..|run| - 1];
    assert before[..i] == run[..i];
    if k :| i < k < |before| && before[k] == GiveUp(t) {
      assert run[k] == GiveUp(t);
    }
    if k :| i < k < |run| && run[k] == GiveUp(t) {
      assert k < |before| ==> before[k] == GiveUp(t);
    }
  }

  /** In every run: the breaker is half-open with nobody left to report only if its probe ran out
      of time; and if its probe ran out of time while nobody else was to report, it is. */
  lemma StuckExactlyIfProbeGaveUp(threshold: int, cooldown: int, run: seq<Action>) returns (i: nat, t: nat)
    requires Runs(threshold, cooldown, run) && Reached(threshold, cooldown, run).circuit.phase == HalfOpen
    ensures ProbedAt(threshold, cooldown, run, i, t)
    ensures var s := Reached(threshold, cooldown, run);
            s.pending == {} <==> GaveUpAfter(run, i, t) && s.pending <= {t}
  {
    i, t := HalfOpenWaitsForProbe(threshold, cooldown, run);
  }

  /** From then on no gated query gets through, however long the cooldown has been over, until some
      query past the gate reports. */
  lemma {:induction false} StuckUntilSomebodyTells(threshold: int, cooldown: int, run: seq<Action>, more: seq<Action>)
    requires Runs(threshold, cooldown, run + more) && Reached(threshold, cooldown, run).circuit.phase == HalfOpen
    requires forall k :: 0 <= k < |more| ==> !more[k].Tell?
    ensures var s, s' := Reached(threshold, cooldown, run), Reached(threshold, cooldown, run + more);
            && s'.circuit.phase == HalfOpen
            && forall t :: t in s'.pending && t !in s.pending ==> PassUngated(t) in more
  {
    var all := run + more;
    if more == [] {
      assert all == run;
    } else {
      var before, a := more[..|more| - 1], more[|more| - 1];
      assert all[..|all| - 1] == run + before && all[|all| - 1] == a;
      StuckUntilSomebodyTells(threshold, cooldown, run, before);
      PendingWereStarted(threshold, cooldown, run + before);
      StepWhileHalfOpen(threshold, Reached(threshold, cooldown, run + before), a);
    }
  }
}
