/** The circuit breaker under concurrency: any number of callers, each inside one of the
    breaker's methods, interleaved at every single atomic load, store, add and compare-and-swap
    and at every reading of the clock. */
module BreakerSteps {
  import opened Prelude
  import opened Breaker

  /** What a caller does next. */
  datatype Pc =
    | Idle
    | FailLoad(n: int)        // recordFailure: `failures.Add` returned n
    | FailSwap(prev: Phase)   // ... about to swap prev for Open
    | FailClock               // ... swap won, about to read the clock
    | FailStamp(at: int)      // ... about to store lastOpen
    | FailReset               // ... about to store failures = 0
    | FailReport              // ... callback, about to count the trip
    | FailGauge               // ... callback, about to raise the gauge
    | OkSwap                  // recordSuccess: loaded HalfOpen, about to swap it for Closed
    | OkReset                 // ... swap won, about to store failures = 0
    | OkReport                // ... callback, about to lower the gauge
    | OkCheck                 // recordSuccess: loaded Closed, about to load failures
    | OkForgive               // ... saw a positive counter, about to decrement it
    | GateLoad                // isOpen said yes, about to load the state in tryProbe
    | ProbeStamp              // tryProbe: loaded Open, about to load lastOpen
    | ProbeClock(stamp: int)  // ... about to read the clock
    | ProbeWait(elapsed: int) // ... about to load the cooldown and compare
    | ProbeSwap               // ... cooldown over, about to swap Open for HalfOpen

  /** How a gated query got through. */
  datatype Admission = ByClosed | ByProbe(epoch: nat)

  /** The won swaps so far, by kind, and the queries let through. An epoch is a number of trips. */
  datatype Log = Log(tripsFromClosed: nat, tripsFromHalfOpen: nat, probes: nat, closes: nat, admissions: seq<Admission>) {
    ghost function Trips(): nat {
      tripsFromClosed + tripsFromHalfOpen
    }
  }

  /** Shared memory, the metrics, what happened so far, and where every caller stands. */
  datatype World = World(
    phase: Phase, failures: int, lastOpen: int, cooldown: int, reported: nat, gauge: bool, log: Log, pcs: map<nat, Pc>)
  {
    ghost function At(t: nat): Pc {
      if t in pcs then pcs[t] else Idle
    }

    ghost function Goto(t: nat, pc: Pc): World {
      this.(pcs := pcs[t := pc])
    }
  }

  ghost function Admit(log: Log, a: Admission): Log {
    log.(admissions := log.admissions + [a], probes := log.probes + (if a.ByProbe? then 1 else 0))
  }

  ghost predicate Init(w: World) {
    && w.phase == Closed && w.failures == 0 && !w.gauge
    && w.log == Log(0, 0, 0, 0, []) && w.reported == 0 && w.pcs == map[]
  }

  /** A caller that is idle starts one of the operations. */
  ghost predicate Start(w: World, w': World, t: nat) {
    || (var n := Wrap32(w.failures + 1); w' == w.(failures := n).Goto(t, FailLoad(n)))
    || (match w.phase
        case HalfOpen => w' == w.Goto(t, OkSwap)
        case Closed => w' == w.Goto(t, OkCheck)
        case Open => w' == w)
    || (if w.phase == Closed then w' == w.(log := Admit(w.log, ByClosed))
        else w' == w.Goto(t, GateLoad))
    || (exists d :: w' == w.(cooldown := d))
  }

  /** One atomic action of caller `t`, with the clock showing `now`. */
  ghost predicate Step(threshold: int, w: World, w': World, t: nat, now: int) {
    match w.At(t)
    case Idle => Start(w, w', t)
    case FailLoad(n) =>
      if w.phase == HalfOpen || (w.phase == Closed && n >= threshold) then w' == w.Goto(t, FailSwap(w.phase))
      else w' == w.Goto(t, Idle)
    case FailSwap(prev) =>
      if w.phase != prev then w' == w.Goto(t, Idle)
      else if prev == HalfOpen then
        w' == w.(phase := Open, log := w.log.(tripsFromHalfOpen := w.log.tripsFromHalfOpen + 1)).Goto(t, FailClock)
      else
        w' == w.(phase := Open, log := w.log.(tripsFromClosed := w.log.tripsFromClosed + 1)).Goto(t, FailClock)
    case FailClock => w' == w.Goto(t, FailStamp(now))
    case FailStamp(at) => w' == w.(lastOpen := at).Goto(t, FailReset)
    case FailReset => w' == w.(failures := 0).Goto(t, FailReport)
    case FailReport => w' == w.(reported := w.reported + 1).Goto(t, FailGauge)
    case FailGauge => w' == w.(gauge := true).Goto(t, Idle)
    case OkSwap =>
      if w.phase == HalfOpen then w' == w.(phase := Closed, log := w.log.(closes := w.log.closes + 1)).Goto(t, OkReset)
      else w' == w.Goto(t, Idle)
    case OkReset => w' == w.(failures := 0).Goto(t, OkReport)
    case OkReport => w' == w.(gauge := false).Goto(t, Idle)
    case OkCheck => w' == w.Goto(t, if w.failures > 0 then OkForgive else Idle)
    case OkForgive => w' == w.(failures := Wrap32(w.failures - 1)).Goto(t, Idle)
    case GateLoad => w' == w.Goto(t, if w.phase == Open then ProbeStamp else Idle)
    case ProbeStamp => w' == w.Goto(t, ProbeClock(w.lastOpen))
    case ProbeClock(stamp) => w' == w.Goto(t, ProbeWait(now - stamp))
    case ProbeWait(elapsed) => w' == w.Goto(t, if elapsed > w.cooldown then ProbeSwap else Idle)
    case ProbeSwap =>
      if w.phase == Open then
        w' == w.(phase := HalfOpen, log := Admit(w.log, ByProbe(w.log.Trips()))).Goto(t, Idle)
      else w' == w.Goto(t, Idle)
  }

  ghost predicate Next(threshold: int, w: World, w': World) {
    exists t, now :: Step(threshold, w, w', t, now)
  }

  ghost predicate Run(threshold: int, ws: seq<World>) {
    && ws != [] && Init(ws[0])
    && forall i: nat :: i + 1 < |ws| ==> StepsAt(threshold, ws, i)
  }

  ghost predicate StepsAt(threshold: int, ws: seq<World>, i: nat)
    requires i + 1 < |ws|
  {
    Next(threshold, ws[i], ws[i + 1])
  }

  function ProbesAmong(admissions: seq<Admission>): nat {
    if admissions == [] then 0
    else ProbesAmong(admissions[..|admissions| - 1]) + (if admissions[|admissions| - 1].ByProbe? then 1 else 0)
  }

  /** The callers that have tripped the breaker and not yet reported it. */
  ghost function Unreported(w: World): set<nat> {
    LateCallers(w.pcs)
  }

  ghost function LateCallers(pcs: map<nat, Pc>): set<nat> {
    set t | t in pcs && Late(pcs[t])
  }

  ghost predicate Late(pc: Pc) {
    pc.FailClock? || pc.FailStamp? || pc.FailReset? || pc.FailReport?
  }

  /** A failure is about to swap only a phase it saw, and `Open` is never one of them. */
  ghost predicate SwapsAreLegal(w: World) {
    forall t :: t in w.pcs && w.pcs[t].FailSwap? ==> w.pcs[t].prev != Open
  }

  /** Every trip is undone by one probe, every probe ends in one trip or one close. */
  ghost predicate Balanced(phase: Phase, log: Log) {
    && log.Trips() - log.probes == (if phase == Open then 1 else 0)
    && log.probes == log.tripsFromHalfOpen + log.closes + (if phase == HalfOpen then 1 else 0)
    && log.tripsFromClosed == log.closes + (if phase == Closed then 0 else 1)
  }

  /** The winning probes are numbered by their epochs, in order and without repetition. */
  ghost predicate OneProbePerEpoch(log: Log) {
    && ProbesAmong(log.admissions) == log.probes
    && (forall i :: 0 <= i < |log.admissions| && log.admissions[i].ByProbe? ==> 1 <= log.admissions[i].epoch <= log.probes)
    && (forall i, j :: 0 <= i < j < |log.admissions| && log.admissions[i].ByProbe? && log.admissions[j].ByProbe? ==>
          log.admissions[i].epoch < log.admissions[j].epoch)
  }

  ghost predicate Inv(w: World) {
    && SwapsAreLegal(w) && Balanced(w.phase, w.log) && OneProbePerEpoch(w.log)
    && w.reported + |Unreported(w)| == w.log.Trips()
  }

  /** The only steps that change the phase or the log: four kinds of won swap, and reading `Closed`. */
  ghost predicate Moves(phase: Phase, log: Log, phase': Phase, log': Log) {
    || (phase' == phase && log' == log)
    || (phase == phase' == Closed && log' == Admit(log, ByClosed))
    || (phase == Closed && phase' == Open && log' == log.(tripsFromClosed := log.tripsFromClosed + 1))
    || (phase == HalfOpen && phase' == Open && log' == log.(tripsFromHalfOpen := log.tripsFromHalfOpen + 1))
    || (phase == HalfOpen && phase' == Closed && log' == log.(closes := log.closes + 1))
    || (phase == Open && phase' == HalfOpen && log' == Admit(log, ByProbe(log.Trips())))
  }

  lemma StepMoves(threshold: int, w: World, w': World, t: nat, now: int)
    requires Step(threshold, w, w', t, now) && SwapsAreLegal(w)
    ensures Moves(w.phase, w.log, w'.phase, w'.log)
  {
  }

  lemma LateCallersAfter(pcs: map<nat, Pc>, t: nat, pc: Pc)
    ensures |LateCallers(pcs[t := pc])| - |LateCallers(pcs)| ==
            (if Late(pc) then 1 else 0) - (if t in pcs && Late(pcs[t]) then 1 else 0)
  {
    var before, after := LateCallers(pcs), LateCallers(pcs[t := pc]);
    assert after == if Late(pc) then before + {t} else before - {t};
  }

  lemma AdmissionsAfter(log: Log, a: Admission)
    requires OneProbePerEpoch(log)
    requires a.ByProbe? ==> a.epoch == log.probes + 1
    ensures OneProbePerEpoch(Admit(log, a))
  {
    var all := log.admissions + [a];
    assert all[..|log.admissions|] == log.admissions;
  }

  lemma MoveKeepsLog(phase: Phase, log: Log, phase': Phase, log': Log)
    requires Moves(phase, log, phase', log') && Balanced(phase, log) && OneProbePerEpoch(log)
    ensures Balanced(phase', log') && OneProbePerEpoch(log')
  {
    if log' == Admit(log, ByClosed) {
      AdmissionsAfter(log, ByClosed);
    } else if phase' == HalfOpen && phase == Open {
      AdmissionsAfter(log, ByProbe(log.Trips()));
    }
  }

  lemma StepKeepsLegalSwaps(threshold: int, w: World, w': World, t: nat, now: int)
    requires Step(threshold, w, w', t, now) && SwapsAreLegal(w)
    ensures SwapsAreLegal(w')
  {
  }

  lemma StepMovesOneCaller(threshold: int, w: World, w': World, t: nat, now: int)
    requires Step(threshold, w, w', t, now)
    ensures w'.pcs == w.pcs || w'.pcs == w.pcs[t := w'.At(t)]
  {
  }

  lemma StepReports(threshold: int, w: World, w': World, t: nat, now: int)
    requires Step(threshold, w, w', t, now)
    ensures (w'.log.Trips() - w'.reported) - (w.log.Trips() - w.reported) ==
            (if Late(w'.At(t)) then 1 else 0) - (if Late(w.At(t)) then 1 else 0)
  {
  }

  lemma StepKeepsReports(threshold: int, w: World, w': World, t: nat, now: int)
    requires Step(threshold, w, w', t, now) && w.reported + |Unreported(w)| == w.log.Trips()
    ensures w'.reported + |Unreported(w')| == w'.log.Trips()
  {
    StepMovesOneCaller(threshold, w, w', t, now);
    StepReports(threshold, w, w', t, now);
    LateCallersAfter(w.pcs, t, w'.At(t));
  }

  lemma {:induction false} InvHolds(threshold: int, ws: seq<World>, i: nat)
    requires Run(threshold, ws) && i < |ws|
    ensures Inv(ws[i])
  {
    if i == 0 {
      assert Unreported(ws[0]) == {};
    } else {
      InvHolds(threshold, ws, i - 1);
      assert StepsAt(threshold, ws, i - 1);
      var t, now :| Step(threshold, ws[i - 1], ws[i], t, now);
      StepKeepsLegalSwaps(threshold, ws[i - 1], ws[i], t, now);
      StepMoves(threshold, ws[i - 1], ws[i], t, now);
      MoveKeepsLog(ws[i - 1].phase, ws[i - 1].log, ws[i].phase, ws[i].log);
      StepKeepsReports(threshold, ws[i - 1], ws[i], t, now);
    }
  }

  /** Under every interleaving: trips exceed winning probes by one exactly while open, every
      probe but the one in progress was followed by one trip or one close, and once no caller
      is on its way to the callback the trips metric is exact. */
  lemma TripsAndProbesAlternate(threshold: int, ws: seq<World>, i: nat)
    requires Run(threshold, ws) && i < |ws|
    ensures var w, log := ws[i], ws[i].log;
            && log.Trips() - log.probes == (if w.phase == Open then 1 else 0)
            && log.probes == log.tripsFromHalfOpen + log.closes + (if w.phase == HalfOpen then 1 else 0)
            && (Unreported(w) == {} ==> w.reported == log.Trips())
  {
    InvHolds(threshold, ws, i);
  }

  /** Under every interleaving: an open epoch admits at most one probe. */
  lemma AtMostOneProbePerEpoch(threshold: int, ws: seq<World>, n: nat, i: nat, j: nat)
    requires Run(threshold, ws) && n < |ws|
    requires var passed := ws[n].log.admissions;
             i < |passed| && j < |passed| && passed[i].ByProbe? && passed[i] == passed[j]
    ensures i == j
  {
    InvHolds(threshold, ws, n);
  }

  /** Under every interleaving: a query that gets through the gate either read `Closed` at that
      very step, or won the swap that ends an open epoch in which nobody had won before. */
  lemma WhoGetsThrough(threshold: int, ws: seq<World>, i: nat)
    requires Run(threshold, ws) && i + 1 < |ws|
    requires ws[i].log.admissions != ws[i + 1].log.admissions
    ensures var w, w' := ws[i], ws[i + 1];
            || (w.phase == Closed && w'.log == Admit(w.log, ByClosed))
            || (&& w.phase == Open && w'.phase == HalfOpen
                && w'.log == Admit(w.log, ByProbe(w.log.Trips()))
                && ByProbe(w.log.Trips()) !in w.log.admissions)
  {
    InvHolds(threshold, ws, i);
    assert StepsAt(threshold, ws, i);
    var t, now :| Step(threshold, ws[i], ws[i + 1], t, now);
    StepMoves(threshold, ws[i], ws[i + 1], t, now);
  }
}
