/** The process-wide token bucket. Capacity and refill rate are both `maxRPS`. Token amounts
    are reals and the clock is an explicit parameter. A history keeps the time of each call on
    the refill clock, in tokens (seconds times rate), which keeps the arithmetic linear. */
module GlobalLimiter {

  /** One call of `Allow` on an enabled limiter: when it happened and what it answered. */
  datatype Call = Call(at: real, admitted: bool)

  function Admitted(calls: seq<Call>): nat {
    if calls == [] then 0
    else Admitted(calls[..|calls| - 1]) + (if calls[|calls| - 1].admitted then 1 else 0)
  }

  ghost predicate Ordered(calls: seq<Call>) {
    forall i, j :: 0 <= i < j < |calls| ==> calls[i].at <= calls[j].at
  }

  /** The reference rule, with no bucket in it: `x` more requests fit if, for every earlier
      call, the requests admitted since that call plus these stay within one burst plus the
      refill of the time elapsed. */
  ghost predicate Fits(burst: real, calls: seq<Call>, now: real, x: real) {
    forall j :: 0 <= j < |calls| ==>
      Admitted(calls[j..]) as real + x <= burst + (now - calls[j].at)
  }

  ghost predicate Justified(burst: real, calls: seq<Call>, k: nat)
    requires k < |calls|
  {
    calls[k].admitted <==> Fits(burst, calls[..k], calls[k].at, 1.0)
  }

  /** Every decision of a history follows the reference rule. */
  ghost predicate FollowsRule(burst: real, calls: seq<Call>) {
    Ordered(calls) && forall k: nat :: k < |calls| ==> Justified(burst, calls, k)
  }

  function Min(a: real, b: real): real {
    if a <= b then a else b
  }

  function Cost(c: Call): real {
    if c.admitted then 1.0 else 0.0
  }

  /** The tokens a bucket holds at `now`, after the refill and before the decision. */
  ghost function Level(burst: real, calls: seq<Call>, now: real): real {
    if calls == [] then burst
    else
      var last := calls[|calls| - 1];
      Min(burst, Level(burst, calls[..|calls| - 1], last.at) - Cost(last) + (now - last.at))
  }

  /** The tokens left right after the last call. */
  ghost function Left(burst: real, calls: seq<Call>): real {
    if calls == [] then burst
    else
      var last := calls[|calls| - 1];
      Level(burst, calls[..|calls| - 1], last.at) - Cost(last)
  }

  class Limiter {
    const maxRPS: real
    var tokens: real
    var last: real
    ghost var calls: seq<Call>

    /** The fields of an enabled limiter are those of a bucket that saw `calls`, and every
        answer given so far followed the reference rule. */
    ghost predicate Valid()
      reads this
    {
      maxRPS > 0.0 ==> IsBucket() && (calls != [] ==> calls[|calls| - 1].at == last * maxRPS)
    }

    ghost predicate IsBucket()
      reads this`tokens, this`calls
    {
      1.0 <= maxRPS && FollowsRule(maxRPS, calls) && tokens == Left(maxRPS, calls)
    }

    constructor (rps: int, now: real)
      ensures Valid() && calls == [] && last == now
      ensures maxRPS == rps as real && tokens == rps as real
    {
      maxRPS, tokens, last := rps as real, rps as real, now;
      calls := [];
    }

    /** Admits exactly the requests that fit, and records the call; a limiter built with a
        rate of zero or less admits everything and keeps no state. */
    method Allow(now: real) returns (ok: bool)
      requires Valid() && last <= now
      modifies this
      ensures Valid()
      ensures maxRPS <= 0.0 ==> ok && tokens == old(tokens) && last == old(last) && calls == old(calls)
      ensures maxRPS > 0.0 ==>
                && (ok <==> Fits(maxRPS, old(calls), now * maxRPS, 1.0))
                && calls == old(calls) + [Call(now * maxRPS, ok)]
                && last == now
    {
      if maxRPS <= 0.0 {
        return true;
      }
      var refill, tick := Refill(now);
      last := now;
      ok := Spend(refill, tick);
    }

    /** What has dripped into the bucket since the last call. */
    method Refill(now: real) returns (refill: real, ghost tick: real)
      requires 0.0 < maxRPS && last <= now
      requires calls != [] ==> calls[|calls| - 1].at == last * maxRPS
      ensures tick == now * maxRPS && 0.0 <= refill && (calls != [] ==> refill == tick - calls[|calls| - 1].at)
    {
      tick := now * maxRPS;
      var elapsed := now - last;
      refill := elapsed * maxRPS;
      RefillOfElapsed(maxRPS, last, now);
    }

    /** Refills, then takes one token if there is one. */
    method Spend(refill: real, ghost tick: real) returns (ok: bool)
      requires IsBucket() && 0.0 <= refill && (calls != [] ==> refill == tick - calls[|calls| - 1].at)
      modifies this`tokens, this`calls
      ensures IsBucket()
      ensures ok <==> Fits(maxRPS, old(calls), tick, 1.0)
      ensures calls == old(calls) + [Call(tick, ok)]
    {
      BucketStep(maxRPS, calls, tick, refill);
      tokens := Min(maxRPS, tokens + refill);
      if tokens >= 1.0 {
        tokens := tokens - 1.0;
        ok := true;
      } else {
        ok := false;
      }
      calls := calls + [Call(tick, ok)];
    }
  }

  /** One refill and one decision of a bucket that followed the rule so far. */
  lemma BucketStep(burst: real, calls: seq<Call>, tick: real, refill: real)
    requires FollowsRule(burst, calls) && 1.0 <= burst && 0.0 <= refill
    requires calls != [] ==> refill == tick - calls[|calls| - 1].at
    ensures var level := Min(burst, Left(burst, calls) + refill);
            && (level >= 1.0 <==> Fits(burst, calls, tick, 1.0))
            && FollowsRule(burst, calls + [Call(tick, level >= 1.0)])
            && Left(burst, calls + [Call(tick, level >= 1.0)]) == level - (if level >= 1.0 then 1.0 else 0.0)
  {
    var level := Min(burst, Left(burst, calls) + refill);
    assert level == Level(burst, calls, tick);
    LevelIsTightestWindow(burst, calls, tick, 1.0);
    var all := calls + [Call(tick, level >= 1.0)];
    ExtendHistory(burst, calls, Call(tick, level >= 1.0));
    assert all[..|all| - 1] == calls;
  }

  lemma RefillOfElapsed(rate: real, last: real, now: real)
    requires 0.0 < rate && last <= now
    ensures (now - last) * rate == now * rate - last * rate >= 0.0
  {
  }

  /** Recording one more call that follows the rule keeps the whole history on the rule. */
  lemma ExtendHistory(burst: real, calls: seq<Call>, c: Call)
    requires FollowsRule(burst, calls)
    requires calls != [] ==> calls[|calls| - 1].at <= c.at
    requires c.admitted <==> Fits(burst, calls, c.at, 1.0)
    ensures FollowsRule(burst, calls + [c])
  {
    var all := calls + [c];
    forall k: nat | k < |all|
      ensures Justified(burst, all, k)
    {
      if k < |calls| {
        assert Justified(burst, calls, k) && all[..k] == calls[..k];
      } else {
        assert all[..k] == calls;
      }
    }
  }

  lemma ShortenHistory(burst: real, calls: seq<Call>)
    requires FollowsRule(burst, calls) && calls != []
    ensures FollowsRule(burst, calls[..|calls| - 1])
  {
    var before := calls[..|calls| - 1];
    forall k: nat | k < |before|
      ensures Justified(burst, before, k)
    {
      assert Justified(burst, calls, k) && before[..k] == calls[..k];
    }
  }

  lemma {:induction false} AdmittedSplit(a: seq<Call>, b: seq<Call>)
    ensures Admitted(a + b) == Admitted(a) + Admitted(b)
  {
    if b == [] {
      assert a + b == a;
    } else {
      var b' := b[..|b| - 1];
      assert (a + b)[..|a + b| - 1] == a + b';
      AdmittedSplit(a, b');
    }
  }

  lemma AdmittedFrom(calls: seq<Call>, j: nat)
    requires j < |calls|
    ensures Admitted(calls[j..]) as real ==
            Admitted(calls[..|calls| - 1][j..]) as real + Cost(calls[|calls| - 1])
  {
    var before := calls[..|calls| - 1];
    assert calls[j..][..|calls| - 1 - j] == before[j..];
  }

  /** The bucket's level is the slack of the tightest window that ends now: an amount `x` is
      in the bucket exactly when it fits the capacity and every window. */
  lemma {:induction false} LevelIsTightestWindow(burst: real, calls: seq<Call>, now: real, x: real)
    ensures x <= Level(burst, calls, now) <==> x <= burst && Fits(burst, calls, now, x)
    decreases |calls|
  {
    if calls != [] {
      var before, last := calls[..|calls| - 1], calls[|calls| - 1];
      var y := x + Cost(last) - (now - last.at);
      LevelIsTightestWindow(burst, before, last.at, y);
      forall j | 0 <= j < |calls|
        ensures Admitted(calls[j..]) as real == Admitted(before[j..]) as real + Cost(last)
      {
        AdmittedFrom(calls, j);
      }
      assert before[|before|..] == [];
      if x <= burst && Fits(burst, calls, now, x) {
        assert Fits(burst, before, last.at, y);
      }
      if y <= burst && Fits(burst, before, last.at, y) {
        assert Fits(burst, calls, now, x);
      }
    }
  }

  /** The window since the limiter was made is never the tightest one. */
  lemma CreationWindowFollows(burst: real, calls: seq<Call>, created: real, now: real)
    requires 1.0 <= burst && created <= now && (calls != [] ==> created <= calls[0].at)
    requires Fits(burst, calls, now, 1.0)
    ensures Admitted(calls) as real + 1.0 <= burst + (now - created)
  {
    if calls != [] {
      assert calls[0..] == calls;
      assert Admitted(calls[0..]) as real + 1.0 <= burst + (now - calls[0].at);
    }
  }

  /** Admitted calls whose time lies in the closed interval. */
  function AdmittedIn(calls: seq<Call>, from: real, to: real): nat {
    if calls == [] then 0
    else
      var last := calls[|calls| - 1];
      AdmittedIn(calls[..|calls| - 1], from, to) +
      (if last.admitted && from <= last.at <= to then 1 else 0)
  }

  lemma {:induction false} AdmittedInSuffix(calls: seq<Call>, from: real, to: real, j: nat)
    requires j <= |calls| && forall i :: 0 <= i < j ==> calls[i].at < from
    ensures AdmittedIn(calls, from, to) <= Admitted(calls[j..])
  {
    if calls != [] {
      var before := calls[..|calls| - 1];
      if j == |calls| {
        AdmittedInSuffix(before, from, to, j - 1);
        assert before[j - 1..] == [];
      } else {
        AdmittedInSuffix(before, from, to, j);
        AdmittedFrom(calls, j);
      }
    }
  }

  /** The first call at or after `from`. */
  ghost function FirstAt(calls: seq<Call>, from: real): (j: nat)
    ensures j <= |calls| && forall i :: 0 <= i < j ==> calls[i].at < from
    ensures j < |calls| ==> from <= calls[j].at
  {
    if calls == [] || from <= calls[0].at then 0
    else
      var k := FirstAt(calls[1..], from);
      assert forall i :: 0 < i < k + 1 ==> calls[i] == calls[1..][i - 1];
      k + 1
  }

  lemma {:induction false} WindowBoundOnRefillClock(burst: real, calls: seq<Call>, from: real, to: real)
    requires 1.0 <= burst && FollowsRule(burst, calls) && from <= to
    ensures AdmittedIn(calls, from, to) as real <= burst + (to - from)
  {
    if calls != [] {
      var before, last := calls[..|calls| - 1], calls[|calls| - 1];
      ShortenHistory(burst, calls);
      WindowBoundOnRefillClock(burst, before, from, to);
      if last.admitted && from <= last.at <= to {
        var j := FirstAt(before, from);
        AdmittedInSuffix(before, from, to, j);
        assert Justified(burst, calls, |before|);
        assert j == |before| ==> before[j..] == [];
      }
    }
  }

  /** Burst plus rate: in any interval of seconds whatever, a limiter admits at most
      `rate + rate * length` requests. */
  lemma WindowBound(rate: real, calls: seq<Call>, from: real, to: real)
    requires 1.0 <= rate && FollowsRule(rate, calls) && from <= to
    ensures AdmittedIn(calls, from * rate, to * rate) as real <= rate + rate * (to - from)
  {
    assert to * rate - from * rate == rate * (to - from) && rate * (to - from) >= 0.0;
    WindowBoundOnRefillClock(rate, calls, from * rate, to * rate);
  }

  /** Any way of answering the calls that keeps every run of calls within burst plus rate. */
  ghost predicate WithinBudget(burst: real, calls: seq<Call>) {
    forall i, k :: 0 <= i < k <= |calls| ==>
      Admitted(calls[i..k]) as real <= burst + (calls[k - 1].at - calls[i].at)
  }

  ghost predicate SameTimes(a: seq<Call>, b: seq<Call>) {
    |a| == |b| && forall i :: 0 <= i < |a| ==> a[i].at == b[i].at
  }

  /** No request is denied unnecessarily: no other policy that respects the budget on the
      same arrivals has admitted more requests, at any point of the run. */
  lemma {:induction false} BucketIsOptimal(burst: real, calls: seq<Call>, other: seq<Call>, n: nat)
    requires FollowsRule(burst, calls)
    requires SameTimes(calls, other) && WithinBudget(burst, other)
    requires n <= |calls|
    ensures Admitted(other[..n]) <= Admitted(calls[..n])
    decreases n
  {
    if n > 0 {
      BucketIsOptimal(burst, calls, other, n - 1);
      assert calls[..n][..n - 1] == calls[..n - 1] && other[..n][..n - 1] == other[..n - 1];
      if other[n - 1].admitted && !calls[n - 1].admitted {
        var j := DenialWitness(burst, calls, n - 1);
        BucketIsOptimal(burst, calls, other, j);
        DenialCaughtUp(calls[..n - 1], other[..n], j);
        assert other[..n][j..] == other[j..n] && calls[..n - 1][..j] == calls[..j] && other[..n][..j] == other[..j];
        assert Admitted(other[j..n]) as real <= burst + (other[n - 1].at - other[j].at);
      }
    }
  }

  /** A denial comes with a window that has no room left. */
  lemma DenialWitness(burst: real, calls: seq<Call>, k: nat) returns (j: nat)
    requires FollowsRule(burst, calls) && k < |calls| && !calls[k].admitted
    ensures j < k && Admitted(calls[..k][j..]) as real + 1.0 > burst + (calls[k].at - calls[j].at)
  {
    assert Justified(burst, calls, k);
    j :| 0 <= j < k && Admitted(calls[..k][j..]) as real + 1.0 > burst + (calls[k].at - calls[..k][j].at);
  }

  lemma DenialCaughtUp(mine: seq<Call>, theirs: seq<Call>, j: nat)
    requires j < |mine| && j < |theirs|
    ensures Admitted(theirs[j..]) <= Admitted(mine[j..]) && Admitted(theirs[..j]) <= Admitted(mine[..j]) ==>
              Admitted(theirs) <= Admitted(mine)
  {
    AdmittedSplit(mine[..j], mine[j..]);
    assert mine[..j] + mine[j..] == mine;
    AdmittedSplit(theirs[..j], theirs[j..]);
    assert theirs[..j] + theirs[j..] == theirs;
  }

  /** The bucket itself is one of the policies that respect the budget, so its count is the
      largest possible one. */
  lemma BucketRespectsBudget(burst: real, calls: seq<Call>)
    requires 1.0 <= burst && FollowsRule(burst, calls)
    ensures WithinBudget(burst, calls)
  {
    forall i, k | 0 <= i < k <= |calls|
      ensures Admitted(calls[i..k]) as real <= burst + (calls[k - 1].at - calls[i].at)
    {
      RunWithinBudget(burst, calls, i, k);
    }
  }

  lemma {:induction false} RunWithinBudget(burst: real, calls: seq<Call>, i: nat, k: nat)
    requires 1.0 <= burst && FollowsRule(burst, calls)
    requires i < k <= |calls|
    ensures Admitted(calls[i..k]) as real <= burst + (calls[k - 1].at - calls[i].at)
    decreases k
  {
    var last := calls[k - 1];
    LastOfRun(calls, i, k);
    if i == k - 1 {
      assert calls[i..i] == [];
    } else if last.admitted {
      AdmissionFits(burst, calls, i, k - 1);
    } else {
      RunWithinBudget(burst, calls, i, k - 1);
      assert calls[k - 2].at <= last.at;
    }
  }

  lemma LastOfRun(calls: seq<Call>, i: nat, k: nat)
    requires i < k <= |calls|
    ensures Admitted(calls[i..k]) as real == Admitted(calls[i..k - 1]) as real + Cost(calls[k - 1])
  {
    assert calls[i..k][..k - 1 - i] == calls[i..k - 1];
  }

  /** An admission left room in every window. */
  lemma AdmissionFits(burst: real, calls: seq<Call>, j: nat, k: nat)
    requires FollowsRule(burst, calls) && j < k < |calls| && calls[k].admitted
    ensures Admitted(calls[j..k]) as real + 1.0 <= burst + (calls[k].at - calls[j].at)
  {
    assert Justified(burst, calls, k);
    assert calls[..k][j..] == calls[j..k];
  }
}
