/** The cache over whole runs, with every lock taken separately: what a lookup can find. */
module CacheRuns {
  import opened Prelude
  import opened Dns
  import opened Cache

  datatype State = State(entries: Table, log: seq<Stored>, clock: int)

  datatype Config = Config(minTTL: nat, maxTTL: nat, maxEntries: int)

  /** What happens to the table: an effective `Set`, which evicts a victim when the table is
      full; the second lock of a lookup, at any time after its first; and background sweeps. */
  datatype Action =
    | Put(key: string, msg: Msg, now: int, victim: Option<string>)
    | DropExpired(key: string, now: int)
    | SweepAll(at: int, now: int)

  ghost predicate Full(c: Config, entries: Table) {
    c.maxEntries > 0 && |entries| >= c.maxEntries
  }

  /** Some iteration order makes the program choose this victim. */
  ghost predicate CanEvict(entries: Table, victim: string) {
    exists order :: Enumerates(order, entries) && Evictable(entries, order, victim)
  }

  ghost predicate Enabled(c: Config, s: State, a: Action) {
    && s.clock <= a.now
    && match a
       case Put(key, msg, _, victim) =>
         && key != "" && msg.rcode == SUCCESS && MinTTL(msg.answers) != 0
         && (if Full(c, s.entries) then
               victim.Some? && CanEvict(s.entries, victim.value)
             else victim == None)
       case DropExpired(_, _) => true
       case SweepAll(at, now) => at <= now
  }

  ghost function Expiry(c: Config, msg: Msg, now: int): int {
    now + Clamp(c.minTTL, c.maxTTL, MinTTL(msg.answers)) * SECOND
  }

  ghost function Do(c: Config, s: State, a: Action): State {
    match a
    case Put(key, msg, now, victim) =>
      var e := Entry(msg, Expiry(c, msg, now));
      State(WithoutVictim(s.entries, victim)[key := e], s.log + [Stored(key, now, e)], now)
    case DropExpired(key, now) =>
      State(if key in s.entries && now > s.entries[key].expires then s.entries - {key} else s.entries, s.log, now)
    case SweepAll(at, now) => State(Unexpired(s.entries, at), s.log, now)
  }

  ghost predicate Runs(c: Config, s: State, run: seq<Action>)
    decreases |run|
  {
    run == [] || (Enabled(c, s, run[0]) && Runs(c, Do(c, s, run[0]), run[1..]))
  }

  ghost function Exec(c: Config, s: State, run: seq<Action>): State
    decreases |run|
  {
    if run == [] then s else Exec(c, Do(c, s, run[0]), run[1..])
  }

  /** Every logged `Set` recorded the expiry its clamped TTL calls for. */
  ghost predicate LogClamped(c: Config, log: seq<Stored>) {
    forall i :: 0 <= i < |log| ==>
      MinTTL(log[i].entry.msg.answers) != 0 && log[i].entry.expires == Expiry(c, log[i].entry.msg, log[i].at)
  }

  ghost predicate Inv(c: Config, s: State) {
    Faithful(c.maxEntries, s.entries, s.log, s.clock) && WithinSize(c.maxEntries, s.entries) && LogClamped(c, s.log)
  }

  lemma PutIsFaithful(c: Config, s: State, a: Action)
    requires Enabled(c, s, a) && Inv(c, s) && a.Put?
    ensures Faithful(c.maxEntries, Do(c, s, a).entries, Do(c, s, a).log, a.now)
  {
    ClockMoves(c.maxEntries, s.entries, s.log, s.clock, a.now);
    if a.victim.Some? {
      ShrinkAny(c.maxEntries, s.entries, s.log, a.now, {a.victim.value});
    }
    StoreIsFaithful(c.maxEntries, WithoutVictim(s.entries, a.victim), s.log, a.now,
                    Stored(a.key, a.now, Entry(a.msg, Expiry(c, a.msg, a.now))));
  }

  lemma PutKeepsSize(c: Config, s: State, a: Action)
    requires Enabled(c, s, a) && WithinSize(c.maxEntries, s.entries) && a.Put?
    ensures WithinSize(c.maxEntries, Do(c, s, a).entries)
  {
    PutFits(WithoutVictim(s.entries, a.victim), a.key, Entry(a.msg, Expiry(c, a.msg, a.now)));
    if a.victim.Some? {
      MapLoses(s.entries, a.victim.value);
    }
  }

  lemma PutKeepsInv(c: Config, s: State, a: Action)
    requires Enabled(c, s, a) && Inv(c, s) && a.Put?
    ensures Inv(c, Do(c, s, a))
  {
    PutIsFaithful(c, s, a);
    PutKeepsSize(c, s, a);
  }

  lemma DropKeepsInv(c: Config, s: State, a: Action)
    requires Enabled(c, s, a) && Inv(c, s) && a.DropExpired?
    ensures Inv(c, Do(c, s, a)) && SameHits(Do(c, s, a).entries, s.entries, a.now)
  {
    ClockMoves(c.maxEntries, s.entries, s.log, s.clock, a.now);
    if a.key in s.entries && a.now > s.entries[a.key].expires {
      ShrinkExpired(c.maxEntries, s.entries, s.log, a.now, {a.key});
    }
  }

  lemma SweepKeepsInv(c: Config, s: State, a: Action)
    requires Enabled(c, s, a) && Inv(c, s) && a.SweepAll?
    ensures Inv(c, Do(c, s, a)) && SameHits(Do(c, s, a).entries, s.entries, a.now)
  {
    ClockMoves(c.maxEntries, s.entries, s.log, s.clock, a.now);
    SweepIsInvisible(c.maxEntries, s.entries, s.log, a.now, a.at);
  }

  lemma DoKeepsInv(c: Config, s: State, a: Action)
    requires Enabled(c, s, a) && Inv(c, s)
    ensures Inv(c, Do(c, s, a))
    ensures !a.Put? ==> SameHits(Do(c, s, a).entries, s.entries, a.now)
  {
    match a
    case Put(_, _, _, _) => PutKeepsInv(c, s, a);
    case DropExpired(_, _) => DropKeepsInv(c, s, a);
    case SweepAll(_, _) => SweepKeepsInv(c, s, a);
  }

  lemma {:induction false} ExecKeepsInv(c: Config, s: State, run: seq<Action>)
    requires Runs(c, s, run) && Inv(c, s)
    ensures Inv(c, Exec(c, s, run))
    decreases |run|
  {
    if run != [] {
      DoKeepsInv(c, s, run[0]);
      ExecKeepsInv(c, Do(c, s, run[0]), run[1..]);
    }
  }

  ghost function Empty(clock: int): State {
    State(map[], [], clock)
  }

  lemma InvHolds(c: Config, start: int, run: seq<Action>)
    requires Runs(c, Empty(start), run)
    ensures Inv(c, Exec(c, Empty(start), run))
  {
    ExecKeepsInv(c, Empty(start), run);
  }

  /** In every run: a hit at `t` is the last effective `Set` for the key, made no later than `t`, and
      still to be served at that age by its own answers and the limits; and the table never
      outgrows its limit. */
  lemma HitIsLatestSet(c: Config, start: int, run: seq<Action>, key: string, t: int)
    requires Runs(c, Empty(start), run) && Exec(c, Empty(start), run).clock <= t
    ensures var s := Exec(c, Empty(start), run);
            && (c.maxEntries > 0 ==> |s.entries| <= c.maxEntries)
            && (Hit(s.entries, key, t).Some? ==>
                  var l := Latest(s.log, key);
                  && l.Some? && l.value.entry.msg == Hit(s.entries, key, t).value
                  && l.value.at <= t && StillServed(c.minTTL, c.maxTTL, l.value.entry.msg.answers, t - l.value.at))
  {
    InvHolds(c, start, run);
    var s := Exec(c, Empty(start), run);
    FindsLatest(c.maxEntries, s.entries, s.log, s.clock, key, t);
    if Latest(s.log, key).Some? {
      AgeOfLatest(c, s.log, key, t);
    }
  }

  lemma AgeOfLatest(c: Config, log: seq<Stored>, key: string, t: int)
    requires LogClamped(c, log) && Latest(log, key).Some?
    ensures var l := Latest(log, key).value;
            t < l.entry.expires <==> StillServed(c.minTTL, c.maxTTL, l.entry.msg.answers, t - l.at)
  {
    LatestAt(log, key);
    var l := Latest(log, key).value;
    ServedUntil(c.minTTL, c.maxTTL, l.entry.msg.answers, t - l.at);
  }

  /** In every run without a size limit, a lookup finds the last effective `Set` exactly as long as
      that is to be served. */
  lemma CompleteWithoutLimit(c: Config, start: int, run: seq<Action>, key: string, t: int)
    requires Runs(c, Empty(start), run) && Exec(c, Empty(start), run).clock <= t && c.maxEntries <= 0
    ensures var s := Exec(c, Empty(start), run);
            var l := Latest(s.log, key);
            && (Hit(s.entries, key, t).Some? <==>
                  l.Some? && StillServed(c.minTTL, c.maxTTL, l.value.entry.msg.answers, t - l.value.at))
            && (Hit(s.entries, key, t).Some? ==> Hit(s.entries, key, t).value == l.value.entry.msg)
  {
    InvHolds(c, start, run);
    FoundWhileServed(c, Exec(c, Empty(start), run), key, t);
  }

  lemma FoundWhileServed(c: Config, s: State, key: string, t: int)
    requires Inv(c, s) && s.clock <= t && c.maxEntries <= 0
    ensures var l := Latest(s.log, key);
            && (Hit(s.entries, key, t).Some? <==>
                  l.Some? && StillServed(c.minTTL, c.maxTTL, l.value.entry.msg.answers, t - l.value.at))
            && (Hit(s.entries, key, t).Some? ==> Hit(s.entries, key, t).value == l.value.entry.msg)
  {
    FindsLatest(c.maxEntries, s.entries, s.log, s.clock, key, t);
    if Latest(s.log, key).Some? {
      AgeOfLatest(c, s.log, key, t);
    }
  }

  /** An effective `Set` of the cache object is a step of a run. */
  lemma SetIsPut(c: Config, s: State, key: string, msg: Msg, now: int, after: Table, order: seq<string>, victim: Option<string>)
    requires key != "" && msg.rcode == SUCCESS && MinTTL(msg.answers) != 0 && s.clock <= now
    requires Enumerates(order, s.entries) && "" !in s.entries
    requires Changes(c.maxEntries, s.entries, after, [Stored(key, now, Entry(msg, Expiry(c, msg, now)))], order, victim)
    ensures Enabled(c, s, Put(key, msg, now, victim)) && Do(c, s, Put(key, msg, now, victim)).entries == after
  {
    if Full(c, s.entries) {
      assert CanEvict(s.entries, victim.value);
    }
  }
}
