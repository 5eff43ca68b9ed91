/** The per-client limiter: fixed windows kept in 16 shards, with stale clients swept away in
    the background. Times are integers (nanoseconds). */
module ClientLimiter {
  import opened Prelude

  const NUM_SHARDS := 16
  const WORD := 0x1_0000_0000_0000_0000

  /** A client's current window: when it opened and how many requests it has seen. */
  datatype Window = Window(start: int, count: nat)

  type Table = map<string, Window>

  /** The window a request at `now` falls in. */
  function Next(window: int, w: Option<Window>, now: int): Window {
    if w.Some? && now - w.value.start <= window then Window(w.value.start, w.value.count + 1)
    else Window(now, 1)
  }

  /** The unbounded polynomial hash. The program computes it in 64-bit words. */
  ghost function Hash(ip: string): nat {
    if ip == "" then 0 else Hash(ip[..|ip| - 1]) * 31 + ip[|ip| - 1] as nat
  }

  ghost function Shard(ip: string): nat {
    Hash(ip) % NUM_SHARDS
  }

  ghost function Lookup(shards: seq<Table>, ip: string): Option<Window>
    requires |shards| == NUM_SHARDS
  {
    Get(shards[Shard(ip)], ip)
  }

  /** What one request does to the tables. */
  ghost function Touch(window: int, shards: seq<Table>, ip: string, now: int): seq<Table>
    requires |shards| == NUM_SHARDS
  {
    var i := Shard(ip);
    shards[i := shards[i][ip := Next(window, Lookup(shards, ip), now)]]
  }

  /** A table without the clients whose window is more than two window lengths old. */
  ghost function Fresh(window: int, t: Table, at: int): Table {
    map ip | ip in t && at - t[ip].start <= 2 * window :: t[ip]
  }

  // ----- Runs -----

  /** What happens to a limiter over time: requests, and sweeps of one shard that work with a
      clock reading taken earlier, before the shard's lock was obtained. */
  datatype Event = Request(ip: string, now: int) | SweepShard(shard: nat, at: int, now: int)

  /** The sweeps of the first `k` shards, all with one reading of the clock. */
  ghost function Sweeps(at: int, now: int, k: nat): seq<Event> {
    seq(k, i requires 0 <= i < k => SweepShard(i, at, now))
  }

  ghost predicate NotAfter(h: seq<Event>, now: int) {
    h != [] ==> h[|h| - 1].now <= now
  }

  /** The clock never goes back, and sweeps use readings that are not in the future. */
  ghost predicate Timely(h: seq<Event>) {
    && (forall i, j :: 0 <= i < j < |h| ==> h[i].now <= h[j].now)
    && (forall i :: 0 <= i < |h| && h[i].SweepShard? ==> h[i].at <= h[i].now && h[i].shard < NUM_SHARDS)
  }

  /** The sharded, swept tables after a history. */
  ghost function Sharded(window: int, h: seq<Event>): (shards: seq<Table>)
    ensures |shards| == NUM_SHARDS
  {
    if h == [] then seq(NUM_SHARDS, i => map[])
    else
      var s := Sharded(window, h[..|h| - 1]);
      match h[|h| - 1]
      case Request(ip, now) => Touch(window, s, ip, now)
      case SweepShard(i, at, _) => if i < NUM_SHARDS then s[i := Fresh(window, s[i], at)] else s
  }

  /** The reference: the request times of one client, and nothing else. */
  ghost function TimesOf(h: seq<Event>, ip: string): seq<int> {
    if h == [] then []
    else
      var e := h[|h| - 1];
      TimesOf(h[..|h| - 1], ip) + (if e.Request? && e.ip == ip then [e.now] else [])
  }

  /** A client's window after its requests, with no shards, no sweeps and no other clients. */
  ghost function Alone(window: int, times: seq<int>): Option<Window> {
    if times == [] then None
    else Some(Next(window, Alone(window, times[..|times| - 1]), times[|times| - 1]))
  }

  /** A swept client is one whose window is over. */
  ghost predicate Agrees(window: int, kept: Option<Window>, full: Option<Window>, now: int) {
    kept == full || (kept == None && full.Some? && now - full.value.start > window)
  }

  /** Whether a client's next request is admitted, by its own requests alone. */
  ghost predicate Admits(maxRPS: int, window: int, times: seq<int>, now: int) {
    Next(window, Alone(window, times), now).count <= maxRPS
  }

  class Limiter {
    const maxRPS: int
    const window: int
    var shards: seq<Table>
    ghost var history: seq<Event>

    /** The tables are those of the history of an enabled limiter. */
    ghost predicate Valid()
      reads this
    {
      0 <= window && Timely(history) && shards == Sharded(window, history)
    }

    constructor (maxRPS: int)
      ensures Valid() && this.maxRPS == maxRPS && history == []
      ensures forall ip :: Lookup(shards, ip) == None
    {
      this.maxRPS := maxRPS;
      window := 1_000_000_000;
      shards := seq(NUM_SHARDS, i => map[]);
      history := [];
    }

    /** The hash wraps around at 64 bits, yet picks the shard of the unbounded hash. */
    method ShardFor(ip: string) returns (i: nat)
      ensures i == Shard(ip) < NUM_SHARDS
    {
      var h := 0;
      for k := 0 to |ip|
        invariant 0 <= h < WORD && h % NUM_SHARDS == Hash(ip[..k]) % NUM_SHARDS
      {
        assert ip[..k + 1][..k] == ip[..k];
        SameShard(h, Hash(ip[..k]), ip[k] as nat);
        h := (h * 31 % WORD + ip[k] as nat) % WORD;
      }
      assert ip[..|ip|] == ip;
      i := h % NUM_SHARDS;
    }

    /** One request: whatever other clients did and whenever the tables were swept, it is admitted
        exactly if its client's own requests allow it. */
    method Allow(ip: string, now: int) returns (ok: bool)
      requires Valid() && NotAfter(history, now)
      modifies this
      ensures Valid()
      ensures maxRPS <= 0 ==> ok && shards == old(shards) && history == old(history)
      ensures maxRPS > 0 ==>
                && history == old(history) + [Request(ip, now)]
                && (ok <==> Admits(maxRPS, window, TimesOf(old(history), ip), now))
    {
      if maxRPS <= 0 {
        return true;
      }
      SameAsAlone(maxRPS, window, history, ip, now);
      NextRequest(window, history, ip, now);
      ok := Count(ip, now);
      history := history + [Request(ip, now)];
    }

    /** Counts a request in its client's window; only the entry of its own client changes. */
    method Count(ip: string, now: int) returns (ok: bool)
      requires |shards| == NUM_SHARDS
      modifies this`shards
      ensures shards == Touch(window, old(shards), ip, now)
      ensures maxRPS > 0 ==> (ok <==> Next(window, Lookup(old(shards), ip), now).count <= maxRPS)
    {
      var i := ShardFor(ip);
      var clients := shards[i];
      if ip !in clients || now - clients[ip].start > window {
        shards := shards[i := clients[ip := Window(now, 1)]];
        return true;
      }
      var count := clients[ip].count + 1;
      shards := shards[i := clients[ip := Window(clients[ip].start, count)]];
      ok := count <= maxRPS;
    }

    /** One tick of the background sweep: shard by shard, with the clock reading `at` taken at the
        start, clients whose window is more than two window lengths old are deleted. */
    method Cleanup(at: int, now: int)
      requires Valid() && at <= now && NotAfter(history, now)
      modifies this
      ensures Valid() && history == old(history) + Sweeps(at, now, NUM_SHARDS)
      ensures forall i :: 0 <= i < NUM_SHARDS ==> shards[i] == Fresh(window, old(shards)[i], at)
    {
      for i := 0 to NUM_SHARDS
        invariant Valid() && history == old(history) + Sweeps(at, now, i)
        invariant forall k :: 0 <= k < i ==> shards[k] == Fresh(window, old(shards)[k], at)
        invariant forall k :: i <= k < NUM_SHARDS ==> shards[k] == old(shards)[k]
      {
        var swept := SweepTable(shards[i], at);
        shards := shards[i := swept];
        NextSweep(history, old(history), at, now, i);
        history := history + [SweepShard(i, at, now)];
      }
    }

    method SweepTable(t: Table, at: int) returns (r: Table)
      ensures r == Fresh(window, t, at)
    {
      r := t;
      var todo := t.Keys;
      while todo != {}
        invariant todo <= t.Keys
        invariant r == map ip | ip in t && (ip in todo || at - t[ip].start <= 2 * window) :: t[ip]
        decreases |todo|
      {
        var ip :| ip in todo;
        if at - r[ip].start > 2 * window {
          r := r - {ip};
        }
        todo := todo - {ip};
      }
    }
  }

  lemma NextRequest(window: int, h: seq<Event>, ip: string, now: int)
    requires Timely(h) && NotAfter(h, now)
    ensures var h' := h + [Request(ip, now)];
            Timely(h') && Sharded(window, h') == Touch(window, Sharded(window, h), ip, now)
  {
    var h' := h + [Request(ip, now)];
    assert h'[..|h'| - 1] == h;
  }

  lemma NextSweep(h: seq<Event>, before: seq<Event>, at: int, now: int, i: nat)
    requires h == before + Sweeps(at, now, i) && Timely(h) && NotAfter(before, now) && at <= now && i < NUM_SHARDS
    ensures var h' := h + [SweepShard(i, at, now)];
            h' == before + Sweeps(at, now, i + 1) && Timely(h') && h'[..|h'| - 1] == h
  {
    assert forall k :: |before| <= k < |h| ==> h[k].now == now;
    assert forall k :: 0 <= k < |before| ==> h[k] == before[k] && (k < |before| - 1 ==> h[k].now <= h[|before| - 1].now);
  }

  /** The number of shards divides the word size, so wrapping keeps the shard. */
  lemma SameShard(h: nat, x: nat, c: nat)
    requires h % NUM_SHARDS == x % NUM_SHARDS
    ensures (h * 31 % WORD + c) % WORD % NUM_SHARDS == (x * 31 + c) % NUM_SHARDS
  {
    var product := h * 31 % WORD;
    WrapKeepsShard(product + c);
    Shift(product + c, h * 31 + c, -0x1000_0000_0000_0000 * (h * 31 / WORD));
    Shift(h * 31 + c, x * 31 + c, 31 * (h / NUM_SHARDS - x / NUM_SHARDS));
  }

  lemma WrapKeepsShard(x: nat)
    ensures x % WORD % NUM_SHARDS == x % NUM_SHARDS
  {
    Shift(x % WORD, x, -0x1000_0000_0000_0000 * (x / WORD));
  }

  lemma Shift(a: nat, b: nat, k: int)
    requires a - b == NUM_SHARDS * k
    ensures a % NUM_SHARDS == b % NUM_SHARDS
  {
  }

  // ----- Sharding and sweeping change nothing -----

  lemma AfterRequest(window: int, s: seq<Table>, times: seq<int>, ip: string, client: string, t: int, now: int)
    requires |s| == NUM_SHARDS && 0 <= window && t <= now
    requires Agrees(window, Lookup(s, ip), Alone(window, times), t)
    ensures Agrees(window, Lookup(Touch(window, s, client, t), ip),
                   Alone(window, times + if client == ip then [t] else []), now)
  {
    if client == ip {
      assert (times + [t])[..|times|] == times;
    } else {
      assert times + [] == times;
    }
  }

  /** A sweep forgets exactly the clients whose window opened more than two window lengths ago. */
  lemma FreshMeans(window: int, t: Table, at: int, ip: string)
    ensures ip in Fresh(window, t, at) <==> ip in t && t[ip].start + window + window >= at
    ensures ip in Fresh(window, t, at) ==> Fresh(window, t, at)[ip] == t[ip]
  {
  }

  lemma AfterSweep(window: int, s: seq<Table>, full: Option<Window>, ip: string, i: nat, at: int, t: int, now: int)
    requires |s| == NUM_SHARDS && 0 <= window && i < NUM_SHARDS && at <= t <= now
    requires Agrees(window, Lookup(s, ip), full, t)
    ensures Agrees(window, Lookup(s[i := Fresh(window, s[i], at)], ip), full, now)
  {
  }

  lemma {:induction false} ShardedAgrees(window: int, h: seq<Event>, ip: string, now: int)
    requires 0 <= window && Timely(h) && NotAfter(h, now)
    ensures Agrees(window, Lookup(Sharded(window, h), ip), Alone(window, TimesOf(h, ip)), now)
  {
    if h != [] {
      var before, e := h[..|h| - 1], h[|h| - 1];
      ShardedAgrees(window, before, ip, e.now);
      var s, times := Sharded(window, before), TimesOf(before, ip);
      match e
      case Request(client, t) => AfterRequest(window, s, times, ip, client, t, now);
      case SweepShard(i, at, t) =>
        AfterSweep(window, s, Alone(window, times), ip, i, at, t, now);
        assert times + [] == times;
    }
  }

  /** Sharding, sweeping at arbitrary moments and the other clients' traffic change nothing:
      in every run the answer to a request is the one its client would get alone. */
  lemma SameAsAlone(maxRPS: int, window: int, h: seq<Event>, ip: string, now: int)
    requires 0 < maxRPS && 0 <= window && Timely(h) && NotAfter(h, now)
    ensures Next(window, Lookup(Sharded(window, h), ip), now).count <= maxRPS <==>
            Admits(maxRPS, window, TimesOf(h, ip), now)
  {
    ShardedAgrees(window, h, ip, now);
  }

  // ----- How much one client can get -----

  ghost predicate Sorted(times: seq<int>) {
    forall i, j :: 0 <= i < j < |times| ==> times[i] <= times[j]
  }

  /** How many of a client's requests in the closed interval were admitted. */
  ghost function AdmittedIn(maxRPS: int, window: int, times: seq<int>, from: int, to: int): nat {
    if times == [] then 0
    else
      var before, t := times[..|times| - 1], times[|times| - 1];
      AdmittedIn(maxRPS, window, before, from, to) +
      (if from <= t <= to && Admits(maxRPS, window, before, t) then 1 else 0)
  }

  lemma {:induction false} NoneBefore(maxRPS: int, window: int, times: seq<int>, from: int, to: int)
    requires forall i :: 0 <= i < |times| ==> times[i] < from
    ensures AdmittedIn(maxRPS, window, times, from, to) == 0
  {
    if times != [] {
      NoneBefore(maxRPS, window, times[..|times| - 1], from, to);
    }
  }

  lemma {:induction false} BoundByWindow(maxRPS: int, window: int, times: seq<int>, from: int, to: int)
    requires 0 < maxRPS && 0 <= window && to - from <= window
    requires Sorted(times) && times != []
    ensures var w, n := Alone(window, times).value, AdmittedIn(maxRPS, window, times, from, to);
            && w.start <= times[|times| - 1] && 1 <= w.count
            && n <= (if w.start < from then Min(w.count, maxRPS) - 1
                     else if w.start <= to then maxRPS - 1 + Min(w.count, maxRPS)
                     else 2 * maxRPS - 1)
  {
    var before, t := times[..|times| - 1], times[|times| - 1];
    if before == [] {
      assert Alone(window, before) == None;
    } else {
      BoundByWindow(maxRPS, window, before, from, to);
      if t < from {
        NoneBefore(maxRPS, window, before, from, to);
      }
    }
  }

  /** In any interval no longer than the window, a client gets at most twice its rate, less one. */
  lemma ClientBound(maxRPS: int, window: int, times: seq<int>, from: int, to: int)
    requires 0 < maxRPS && 0 <= window && to - from <= window && Sorted(times)
    ensures AdmittedIn(maxRPS, window, times, from, to) <= 2 * maxRPS - 1
  {
    if times != [] {
      BoundByWindow(maxRPS, window, times, from, to);
    }
  }

  /** A window has counted the client's latest requests, from the one that opened it. */
  lemma {:induction false} WindowIsSuffix(window: int, times: seq<int>)
    requires times != []
    ensures var w := Alone(window, times);
            w.Some? && 1 <= w.value.count <= |times| && times[|times| - w.value.count] == w.value.start
  {
    var before := times[..|times| - 1];
    if before != [] {
      WindowIsSuffix(window, before);
    }
  }

  /** A request is denied only to a client whose last `maxRPS` requests all lie within one window
      length. */
  lemma DeniedOnlyIfBusy(maxRPS: int, window: int, times: seq<int>, now: int)
    requires 0 < maxRPS && Sorted(times) && !Admits(maxRPS, window, times, now)
    ensures |times| >= maxRPS && now - times[|times| - maxRPS] <= window
  {
    if times != [] {
      WindowIsSuffix(window, times);
    }
  }

  lemma {:induction false} TimesAreSorted(h: seq<Event>, ip: string, now: int)
    requires Timely(h) && NotAfter(h, now)
    ensures Sorted(TimesOf(h, ip)) && forall i :: 0 <= i < |TimesOf(h, ip)| ==> TimesOf(h, ip)[i] <= now
  {
    if h != [] {
      TimesAreSorted(h[..|h| - 1], ip, h[|h| - 1].now);
    }
  }

  /** In every run of the limiter, sharded and swept as it is and whatever the other clients do, a
      client gets at most twice its rate, less one, in any interval no longer than the window. */
  lemma ClientBoundInEveryRun(maxRPS: int, window: int, h: seq<Event>, ip: string, from: int, to: int)
    requires 0 < maxRPS && 0 <= window && to - from <= window && Timely(h)
    ensures AdmittedIn(maxRPS, window, TimesOf(h, ip), from, to) <= 2 * maxRPS - 1
  {
    if h != [] {
      TimesAreSorted(h, ip, h[|h| - 1].now);
    }
    ClientBound(maxRPS, window, TimesOf(h, ip), from, to);
  }

  ghost function Repeat(t: int, k: nat): seq<int> {
    seq(k, i => t)
  }

  /** Requests that still fit in an open window are all admitted. */
  lemma {:induction false} FillWindow(maxRPS: int, window: int, times: seq<int>, t: int, k: nat, from: int, to: int)
    requires var w := Alone(window, times); w.Some? && t - w.value.start <= window && w.value.count + k <= maxRPS
    requires from <= t <= to
    ensures var w, all := Alone(window, times).value, times + Repeat(t, k);
            && Alone(window, all) == Some(Window(w.start, w.count + k))
            && AdmittedIn(maxRPS, window, all, from, to) == AdmittedIn(maxRPS, window, times, from, to) + k
  {
    if k == 0 {
      assert times + Repeat(t, 0) == times;
    } else {
      FillWindow(maxRPS, window, times, t, k - 1, from, to);
      var all := times + Repeat(t, k);
      assert all[..|all| - 1] == times + Repeat(t, k - 1);
    }
  }

  /** A burst around a window boundary: one early request, then the rest of that window at its
      last instant, then a whole new window right after. */
  ghost function BoundaryBurst(maxRPS: nat, window: int): seq<int>
    requires 0 < maxRPS
  {
    [0] + Repeat(window, maxRPS - 1) + [window + 1] + Repeat(window + 1, maxRPS - 1)
  }

  /** The bound is reached for every rate and window. */
  lemma ClientBoundIsTight(maxRPS: nat, window: int)
    requires 0 < maxRPS && 0 < window
    ensures Sorted(BoundaryBurst(maxRPS, window))
    ensures AdmittedIn(maxRPS, window, BoundaryBurst(maxRPS, window), window, 2 * window) == 2 * maxRPS - 1
  {
    var b := [0] + Repeat(window, maxRPS - 1);
    FirstWindow(maxRPS, window);
    OneMore(maxRPS, window, b, window + 1, window, 2 * window);
    FillWindow(maxRPS, window, b + [window + 1], window + 1, maxRPS - 1, window, 2 * window);
  }

  lemma FirstWindow(maxRPS: nat, window: int)
    requires 0 < maxRPS && 0 < window
    ensures var b := [0] + Repeat(window, maxRPS - 1);
            && Alone(window, b) == Some(Window(0, maxRPS))
            && AdmittedIn(maxRPS, window, b, window, 2 * window) == maxRPS - 1
  {
    OneMore(maxRPS, window, [], 0, window, 2 * window);
    assert [] + [0] == [0];
    FillWindow(maxRPS, window, [0], window, maxRPS - 1, window, 2 * window);
  }

  lemma OneMore(maxRPS: int, window: int, times: seq<int>, t: int, from: int, to: int)
    ensures Alone(window, times + [t]) == Some(Next(window, Alone(window, times), t))
    ensures AdmittedIn(maxRPS, window, times + [t], from, to) ==
            AdmittedIn(maxRPS, window, times, from, to) +
            (if from <= t <= to && Admits(maxRPS, window, times, t) then 1 else 0)
  {
    assert (times + [t])[..|times|] == times;
  }
}
