/** The failure counter under concurrency. A success that saw a positive counter decrements it in
    a second step, so the counter can be lowered in between; this says exactly when that takes it
    below zero. */
module BreakerCounter {
  import opened Prelude
  import opened BreakerSteps
  import Breaker

  /** The actions that lower or reset the counter. */
  ghost predicate Lowers(pc: Pc) {
    pc == OkForgive || Resets(pc)
  }

  ghost predicate Resets(pc: Pc) {
    pc == OkReset || pc == FailReset
  }

  ghost predicate FailureBegins(w: World, w': World, t: nat) {
    w.At(t) == Idle && w'.At(t).FailLoad?
  }

  ghost predicate SomeFailureBegins(w: World, w': World) {
    exists t :: FailureBegins(w, w', t)
  }

  /** Caller `t` moves, and its action lowers or resets the counter. */
  ghost predicate LoweredBy(threshold: int, w: World, w': World, t: nat) {
    Lowers(w.At(t)) && exists now :: Step(threshold, w, w', t, now)
  }

  ghost predicate LoweredByOther(threshold: int, w: World, w': World, t: nat) {
    exists u :: u != t && LoweredBy(threshold, w, w', u)
  }

  ghost predicate Lowered(threshold: int, w: World, w': World) {
    exists t :: LoweredBy(threshold, w, w', t)
  }

  /** How an action changes the counter, and who is where afterwards. */
  lemma StepChangesCounter(threshold: int, w: World, w': World, t: nat, now: int)
    requires Step(threshold, w, w', t, now)
    ensures forall u :: u != t ==> w'.At(u) == w.At(u)
    ensures w'.failures == (if w.At(t) == OkForgive then Breaker.Wrap32(w.failures - 1)
                            else if Resets(w.At(t)) then 0
                            else if FailureBegins(w, w', t) then Breaker.Wrap32(w.failures + 1)
                            else w.failures)
    ensures w'.At(t) == OkForgive ==> w.At(t) == OkCheck && w.failures > 0
  {
  }

  // ----- Over whole runs -----

  /** How many failures were reported in the first `k` steps. */
  ghost function FailuresIn(ws: seq<World>, k: nat): nat
    requires k < |ws|
  {
    if k == 0 then 0
    else FailuresIn(ws, k - 1) + if SomeFailureBegins(ws[k - 1], ws[k]) then 1 else 0
  }

  /** While caller `t` is about to decrement a counter it saw positive, step `j` is another
      caller's decrement or reset. */
  ghost predicate Disturbs(threshold: int, ws: seq<World>, j: nat, t: nat)
    requires j + 1 < |ws|
  {
    ws[j].At(t) == OkForgive && LoweredByOther(threshold, ws[j], ws[j + 1], t)
  }

  /** Between no caller's test and its decrement does another one lower or reset the counter. */
  ghost predicate Undisturbed(threshold: int, ws: seq<World>) {
    forall j: nat, t: nat :: j + 1 < |ws| ==> !Disturbs(threshold, ws, j, t)
  }

  ghost predicate NeverNegative(ws: seq<World>, k: nat)
    requires k < |ws|
  {
    forall i :: 0 <= i <= k ==> ws[i].failures >= 0
  }

  lemma StepOf(threshold: int, ws: seq<World>, k: nat) returns (t: nat, now: int)
    requires Run(threshold, ws) && k + 1 < |ws|
    ensures Step(threshold, ws[k], ws[k + 1], t, now)
  {
    assert StepsAt(threshold, ws, k);
    t, now :| Step(threshold, ws[k], ws[k + 1], t, now);
  }

  lemma {:induction false} CounterIsBounded(threshold: int, ws: seq<World>, k: nat)
    requires Run(threshold, ws) && k < |ws| && NeverNegative(ws, k) && FailuresIn(ws, k) < 0x8000_0000
    ensures ws[k].failures <= FailuresIn(ws, k)
  {
    if k > 0 {
      CounterIsBounded(threshold, ws, k - 1);
      var t, now := StepOf(threshold, ws, k - 1);
      StepChangesCounter(threshold, ws[k - 1], ws[k], t, now);
    }
  }

  /** A caller about to decrement tested the counter at an earlier step and has been about to
      decrement ever since. */
  ghost predicate Window(ws: seq<World>, i: nat, k: nat, t: nat) {
    && i < k < |ws| && ws[i].At(t) == OkCheck && ws[i + 1].failures > 0
    && forall m :: i < m <= k ==> ws[m].At(t) == OkForgive
  }

  lemma {:induction false} WindowOpened(threshold: int, ws: seq<World>, k: nat, t: nat) returns (i: nat)
    requires Run(threshold, ws) && k < |ws| && ws[k].At(t) == OkForgive
    ensures Window(ws, i, k, t)
  {
    assert k > 0;
    var u, now := StepOf(threshold, ws, k - 1);
    StepChangesCounter(threshold, ws[k - 1], ws[k], u, now);
    if u == t {
      i := k - 1;
    } else {
      i := WindowOpened(threshold, ws, k - 1, t);
    }
  }

  lemma UndisturbedStep(threshold: int, w: World, w': World, t: nat, u: nat, now: int)
    requires Step(threshold, w, w', u, now) && w.At(t) == w'.At(t) == OkForgive && !LoweredByOther(threshold, w, w', t)
    requires 0 < w.failures && (SomeFailureBegins(w, w') ==> w.failures + 1 < 0x8000_0000)
    ensures w'.failures > 0
  {
    StepChangesCounter(threshold, w, w', u, now);
    if u != t && Lowers(w.At(u)) {
      assert LoweredBy(threshold, w, w', u);
    }
  }

  ghost predicate Calm(threshold: int, ws: seq<World>, i: nat, k: nat, t: nat)
    requires k < |ws|
  {
    forall j: nat :: i < j < k ==> !Disturbs(threshold, ws, j, t)
  }

  lemma CalmStep(threshold: int, ws: seq<World>, k: nat, t: nat)
    requires Run(threshold, ws) && k + 1 < |ws| && NeverNegative(ws, k) && FailuresIn(ws, k + 1) < 0x8000_0000
    requires ws[k].At(t) == ws[k + 1].At(t) == OkForgive && !Disturbs(threshold, ws, k, t) && ws[k].failures > 0
    ensures ws[k + 1].failures > 0
  {
    FailuresGrow(ws, k, k + 1);
    CounterIsBounded(threshold, ws, k);
    var u, now := StepOf(threshold, ws, k);
    UndisturbedStep(threshold, ws[k], ws[k + 1], t, u, now);
  }

  /** In an undisturbed window the counter stays positive. */
  lemma {:induction false} WindowStaysPositive(threshold: int, ws: seq<World>, i: nat, k: nat, t: nat)
    requires Run(threshold, ws) && Window(ws, i, k, t) && NeverNegative(ws, k) && FailuresIn(ws, k) < 0x8000_0000
    requires Calm(threshold, ws, i, k, t)
    ensures ws[k].failures > 0
    decreases k
  {
    if i + 1 < k {
      FailuresGrow(ws, k - 1, k);
      assert Window(ws, i, k - 1, t) && NeverNegative(ws, k - 1) && Calm(threshold, ws, i, k - 1, t);
      WindowStaysPositive(threshold, ws, i, k - 1, t);
      assert !Disturbs(threshold, ws, k - 1, t);
      CalmStep(threshold, ws, k - 1, t);
    }
  }

  /** In every run: the step that first takes the counter below zero is the decrement of a success
      between whose test and decrement another caller decremented or reset the counter. */
  lemma NegativeMeansDisturbed(threshold: int, ws: seq<World>, k: nat) returns (t: nat, i: nat, j: nat)
    requires Run(threshold, ws) && k + 1 < |ws| && FailuresIn(ws, k + 1) < 0x8000_0000
    requires NeverNegative(ws, k) && ws[k + 1].failures < 0
    ensures ws[k].failures == 0 && ws[k + 1].failures == -1
    ensures Window(ws, i, k, t) && ws[k + 1].At(t) != OkForgive
    ensures i < j < k && Disturbs(threshold, ws, j, t)
  {
    var now;
    t, now := StepOf(threshold, ws, k);
    StepChangesCounter(threshold, ws[k], ws[k + 1], t, now);
    CounterIsBounded(threshold, ws, k);
    i := WindowOpened(threshold, ws, k, t);
    if Calm(threshold, ws, i, k, t) {
      WindowStaysPositive(threshold, ws, i, k, t);
    }
    j :| i < j < k && Disturbs(threshold, ws, j, t);
  }

  lemma {:induction false} FailuresGrow(ws: seq<World>, j: nat, k: nat)
    requires j <= k < |ws|
    ensures FailuresIn(ws, j) <= FailuresIn(ws, k)
  {
    if j < k {
      FailuresGrow(ws, j, k - 1);
    }
  }

  /** In every run in which no window is disturbed, and with fewer than 2^31 failures, the counter
      is never negative. */
  lemma {:induction false} UndisturbedNeverNegative(threshold: int, ws: seq<World>, k: nat)
    requires Run(threshold, ws) && Undisturbed(threshold, ws) && k < |ws| && FailuresIn(ws, k) < 0x8000_0000
    ensures NeverNegative(ws, k)
  {
    if k > 0 {
      FailuresGrow(ws, k - 1, k);
      UndisturbedNeverNegative(threshold, ws, k - 1);
      if ws[k].failures < 0 {
        var t, i, j := NegativeMeansDisturbed(threshold, ws, k - 1);
      }
    }
  }

  // ----- From one moment on -----

  ghost function Forgiving(w: World): set<nat> {
    set t | t in w.pcs && w.pcs[t] == OkForgive
  }

  ghost function Resetting(w: World): set<nat> {
    set t | t in w.pcs && Resets(w.pcs[t])
  }

  /** Callers that are about to decrement or reset the counter do so, in any order, and nobody
      else moves. */
  ghost predicate Finishing(threshold: int, ws: seq<World>) {
    && ws != []
    && forall i :: 0 <= i < |ws| - 1 ==> Lowered(threshold, ws[i], ws[i + 1])
  }

  ghost predicate CanDip(threshold: int, w: World) {
    exists ws: seq<World> :: Finishing(threshold, ws) && ws[0] == w && ws[|ws| - 1].failures < 0
  }

  /** Nobody's decrement is in danger: there are no more of them than the counter shows, and no
      reset is on its way; or there is none. */
  ghost predicate Covered(w: World) {
    w.failures >= 0 && (Forgiving(w) == {} || (|Forgiving(w)| <= w.failures && Resetting(w) == {}))
  }

  lemma FinishingMoves(threshold: int, w: World, w': World, t: nat, now: int)
    requires Lowers(w.At(t)) && Step(threshold, w, w', t, now)
    ensures Forgiving(w') == Forgiving(w) - {t} && Resetting(w') == Resetting(w) - {t}
    ensures t in Forgiving(w) <==> w.At(t) == OkForgive
    ensures t in Resetting(w) <==> Resets(w.At(t))
  {
  }

  lemma StepStaysCovered(threshold: int, w: World, w': World, t: nat, now: int)
    requires Lowers(w.At(t)) && Step(threshold, w, w', t, now) && Covered(w) && Breaker.Int32(w.failures)
    ensures Covered(w') && Breaker.Int32(w'.failures)
  {
    FinishingMoves(threshold, w, w', t, now);
    StepChangesCounter(threshold, w, w', t, now);
  }

  lemma {:induction false} CoveredNeverDips(threshold: int, ws: seq<World>, k: nat)
    requires Finishing(threshold, ws) && Covered(ws[0]) && Breaker.Int32(ws[0].failures) && k < |ws|
    ensures Covered(ws[k]) && Breaker.Int32(ws[k].failures)
  {
    if k > 0 {
      CoveredNeverDips(threshold, ws, k - 1);
      assert Lowered(threshold, ws[k - 1], ws[k - 1 + 1]);
      var t :| LoweredBy(threshold, ws[k - 1], ws[k], t);
      var now :| Step(threshold, ws[k - 1], ws[k], t, now);
      StepStaysCovered(threshold, ws[k - 1], ws[k], t, now);
    }
  }

  lemma DipsLater(threshold: int, w: World, w': World)
    requires Lowered(threshold, w, w') && CanDip(threshold, w')
    ensures CanDip(threshold, w)
  {
    var ws: seq<World> :| Finishing(threshold, ws) && ws[0] == w' && ws[|ws| - 1].failures < 0;
    var all := [w] + ws;
    forall i | 0 <= i < |all| - 1
      ensures Lowered(threshold, all[i], all[i + 1])
    {
      if i > 0 {
        assert Lowered(threshold, ws[i - 1], ws[i - 1 + 1]);
      }
    }
    assert Finishing(threshold, all) && all[0] == w && all[|all| - 1] == ws[|ws| - 1];
  }

  lemma LowersNext(threshold: int, w: World, w': World, t: nat)
    requires Lowers(w.At(t)) && Step(threshold, w, w', t, 0)
    ensures Lowered(threshold, w, w')
  {
    assert LoweredBy(threshold, w, w', t);
  }

  lemma DipsNow(threshold: int, w: World)
    requires w.failures < 0
    ensures CanDip(threshold, w)
  {
    assert Finishing(threshold, [w]) && [w][0] == w;
  }

  /** More decrements on their way than the counter shows. */
  lemma {:induction false} TooManyForgive(threshold: int, w: World)
    requires 0 <= w.failures < |Forgiving(w)| && Breaker.Int32(w.failures)
    ensures CanDip(threshold, w)
    decreases w.failures
  {
    var t :| t in Forgiving(w);
    var w' := w.(failures := w.failures - 1).Goto(t, Idle);
    FinishingMoves(threshold, w, w', t, 0);
    if w.failures == 0 {
      DipsNow(threshold, w');
    } else {
      TooManyForgive(threshold, w');
    }
    LowersNext(threshold, w, w', t);
    DipsLater(threshold, w, w');
  }

  /** A reset on its way next to a decrement. */
  lemma ResetThenForgive(threshold: int, w: World, t: nat, r: nat)
    requires t in Forgiving(w) && r in Resetting(w)
    ensures CanDip(threshold, w)
  {
    var next := if w.At(r) == OkReset then OkReport else FailReport;
    var w' := w.(failures := 0).Goto(r, next);
    var w'' := w'.(failures := -1).Goto(t, Idle);
    DipsNow(threshold, w'');
    LowersNext(threshold, w', w'', t);
    DipsLater(threshold, w', w'');
    LowersNext(threshold, w, w', r);
    DipsLater(threshold, w, w');
  }

  /** From any moment with a counter that is not negative, the decrements and resets on their way
      can take it below zero exactly when there are more decrements than it shows, or at least
      one of each. */
  lemma DipsExactlyIf(threshold: int, w: World)
    requires 0 <= w.failures && Breaker.Int32(w.failures)
    ensures CanDip(threshold, w) <==>
            |Forgiving(w)| > w.failures || (Forgiving(w) != {} && Resetting(w) != {})
  {
    if |Forgiving(w)| > w.failures {
      TooManyForgive(threshold, w);
    } else if t, r :| t in Forgiving(w) && r in Resetting(w) {
      ResetThenForgive(threshold, w, t, r);
    } else if CanDip(threshold, w) {
      var ws: seq<World> :| Finishing(threshold, ws) && ws[0] == w && ws[|ws| - 1].failures < 0;
      CoveredNeverDips(threshold, ws, |ws| - 1);
    }
  }

  // ----- Both ways of going below zero happen -----

  lemma Extend(threshold: int, ws: seq<World>, w: World, t: nat)
    requires Run(threshold, ws) && Step(threshold, ws[|ws| - 1], w, t, 0)
    ensures Run(threshold, ws + [w])
  {
    var all := ws + [w];
    forall i: nat | i + 1 < |all|
      ensures StepsAt(threshold, all, i)
    {
      if i + 1 < |ws| {
        assert StepsAt(threshold, ws, i);
      }
    }
  }

  ghost predicate GoesNegative(threshold: int, w: World) {
    exists ws: seq<World> :: Run(threshold, ws) && ws[0] == w && ws[|ws| - 1].failures == -1
  }

  /** One more step of a run. */
  lemma Then(threshold: int, ws: seq<World>, w: World, t: nat) returns (all: seq<World>)
    requires Run(threshold, ws) && Step(threshold, ws[|ws| - 1], w, t, 0)
    ensures Run(threshold, all) && all[0] == ws[0] && all[|all| - 1] == w
  {
    Extend(threshold, ws, w, t);
    all := ws + [w];
  }

  /** Whatever the threshold: two successes both see a counter of one. */
  lemma RacingSuccesses(threshold: int, start: World)
    requires Init(start)
    ensures GoesNegative(threshold, start)
  {
    var w := start.(failures := 1).Goto(0, FailLoad(1));
    var ws := Then(threshold, [start], w, 0);
    w := w.Goto(1, OkCheck);
    ws := Then(threshold, ws, w, 1);
    w := w.Goto(2, OkCheck);
    ws := Then(threshold, ws, w, 2);
    ws := BothForgive(threshold, ws, w);
  }

  lemma BothForgive(threshold: int, ws: seq<World>, w: World) returns (all: seq<World>)
    requires Run(threshold, ws) && w == ws[|ws| - 1]
    requires w.At(1) == w.At(2) == OkCheck && w.failures == 1
    ensures Run(threshold, all) && all[0] == ws[0] && all[|all| - 1].failures == -1
  {
    var w1 := w.Goto(1, OkForgive);
    all := Then(threshold, ws, w1, 1);
    var w2 := w1.Goto(2, OkForgive);
    all := Then(threshold, all, w2, 2);
    var w3 := w2.(failures := 0).Goto(1, Idle);
    all := Then(threshold, all, w3, 1);
    all := Then(threshold, all, w3.(failures := -1).Goto(2, Idle), 2);
  }

  /** With a threshold of one, a single success and a failure that trips the breaker. */
  lemma SuccessRacesTrip(threshold: int, start: World)
    requires Init(start) && threshold <= 1
    ensures GoesNegative(threshold, start)
  {
    var w := start.(failures := 1).Goto(0, FailLoad(1));
    var ws := Then(threshold, [start], w, 0);
    w := w.Goto(1, OkCheck);
    ws := Then(threshold, ws, w, 1);
    w := w.Goto(1, OkForgive);
    ws := Then(threshold, ws, w, 1);
    ws := TripThenForgive(threshold, ws, w);
  }

  lemma TripThenForgive(threshold: int, ws: seq<World>, w: World) returns (all: seq<World>)
    requires Run(threshold, ws) && w == ws[|ws| - 1]
    requires w.At(0) == FailLoad(1) && threshold <= 1 && w.At(1) == OkForgive && w.phase == Breaker.Closed
    ensures Run(threshold, all) && all[0] == ws[0] && all[|all| - 1].failures == -1
  {
    var w1 := w.Goto(0, FailSwap(Breaker.Closed));
    all := Then(threshold, ws, w1, 0);
    var w2 := w1.(phase := Breaker.Open, log := w1.log.(tripsFromClosed := w1.log.tripsFromClosed + 1)).Goto(0, FailClock);
    all := Then(threshold, all, w2, 0);
    all := ResetBeforeForgive(threshold, all, w2);
  }

  lemma ResetBeforeForgive(threshold: int, ws: seq<World>, w: World) returns (all: seq<World>)
    requires Run(threshold, ws) && w == ws[|ws| - 1] && w.At(0) == FailClock && w.At(1) == OkForgive
    ensures Run(threshold, all) && all[0] == ws[0] && all[|all| - 1].failures == -1
  {
    var w1 := w.Goto(0, FailStamp(0));
    all := Then(threshold, ws, w1, 0);
    var w2 := w1.(lastOpen := 0).Goto(0, FailReset);
    all := Then(threshold, all, w2, 0);
    var w3 := w2.(failures := 0).Goto(0, FailReport);
    all := Then(threshold, all, w3, 0);
    all := Then(threshold, all, w3.(failures := -1).Goto(1, Idle), 1);
  }
}
