/** The TTL cache: a map with expiry times, sampled eviction, a background sweep, and a lookup
    that takes a read lock first and a write lock later. Times are integers (nanoseconds). */
module Cache {
  import opened Prelude
  import opened Dns
  import opened Messages

  const SECOND := 1_000_000_000
  const NO_TTL := 0xFFFF_FFFF
  const SAMPLE := 100

  datatype Entry = Entry(msg: Msg, expires: int)

  type Table = map<string, Entry>

  /** An entry as the cache keeps it, with a pointer to its message. */
  datatype Slot = Slot(msg: Message, expires: int)

  // ----- Time to live -----

  /** The least TTL of the answers; 0 when there is no answer or all carry the largest value. */
  ghost function MinTTL(answers: seq<RR>): nat {
    if Least(answers) == NO_TTL then 0 else Least(answers)
  }

  ghost function Least(answers: seq<RR>): nat {
    if answers == [] then NO_TTL
    else
      var t := Least(answers[..|answers| - 1]);
      if answers[|answers| - 1].ttl < t then answers[|answers| - 1].ttl else t
  }

  lemma {:induction false} LeastIsMinimum(answers: seq<RR>)
    ensures Least(answers) <= NO_TTL
    ensures forall i :: 0 <= i < |answers| ==> Least(answers) <= answers[i].ttl
    ensures Least(answers) < NO_TTL ==> exists i :: 0 <= i < |answers| && answers[i].ttl == Least(answers)
  {
    if answers != [] {
      var before := answers[..|answers| - 1];
      LeastIsMinimum(before);
      assert forall i :: 0 <= i < |before| ==> answers[i] == before[i];
    }
  }

  method ResponseMinTTL(answers: seq<RR>) returns (ttl: nat)
    ensures ttl == MinTTL(answers)
  {
    ttl := NO_TTL;
    for i := 0 to |answers|
      invariant ttl == Least(answers[..i])
    {
      assert answers[..i + 1][..i] == answers[..i];
      if answers[i].ttl < ttl {
        ttl := answers[i].ttl;
      }
    }
    assert answers[..|answers|] == answers;
    if ttl == NO_TTL {
      ttl := 0;
    }
  }

  /** The TTL of a response worth keeping: a success with answers. */
  ghost function TTLOf(resp: Msg): nat {
    if resp.rcode == SUCCESS then MinTTL(resp.answers) else 0
  }

  method UsableTTL(resp: Msg) returns (ttl: nat)
    ensures ttl == TTLOf(resp)
  {
    if resp.rcode != SUCCESS || resp.answers == [] {
      return 0;
    }
    ttl := ResponseMinTTL(resp.answers);
  }

  function Clamp(minTTL: nat, maxTTL: nat, ttl: nat): nat {
    var t := if ttl < minTTL then minTTL else ttl;
    if t > maxTTL then maxTTL else t
  }

  /** The clamped TTL lies between the limits, and is the TTL itself if that does. */
  lemma ClampMeans(minTTL: nat, maxTTL: nat, ttl: nat)
    ensures minTTL <= ttl <= maxTTL ==> Clamp(minTTL, maxTTL, ttl) == ttl
    ensures ttl < minTTL <= maxTTL ==> Clamp(minTTL, maxTTL, ttl) == minTTL
    ensures maxTTL < ttl || maxTTL < minTTL ==> Clamp(minTTL, maxTTL, ttl) == maxTTL
  {
  }

  /** How old, in nanoseconds, a stored message may be and still be served: younger than the upper
      limit, and younger than the TTL of each of its answers or than the lower limit, whichever
      is longer. */
  ghost predicate StillServed(minTTL: nat, maxTTL: nat, answers: seq<RR>, age: int) {
    && age < maxTTL * 1_000_000_000
    && forall i :: 0 <= i < |answers| ==> age < answers[i].ttl * 1_000_000_000 || age < minTTL * 1_000_000_000
  }

  lemma ServedUntil(minTTL: nat, maxTTL: nat, answers: seq<RR>, age: int)
    requires MinTTL(answers) != 0
    ensures age < Clamp(minTTL, maxTTL, MinTTL(answers)) * SECOND <==> StillServed(minTTL, maxTTL, answers, age)
  {
    LeastIsMinimum(answers);
    var i :| 0 <= i < |answers| && answers[i].ttl == Least(answers);
    ClampMeans(minTTL, maxTTL, answers[i].ttl);
  }

  /** A response has a usable TTL exactly if it is a success, no answer forbids caching and some answer
      sets a TTL at all. */
  lemma UsableTTLMeans(resp: Msg)
    ensures TTLOf(resp) != 0 <==>
            && resp.rcode == SUCCESS
            && (forall i :: 0 <= i < |resp.answers| ==> resp.answers[i].ttl > 0)
            && exists i :: 0 <= i < |resp.answers| && resp.answers[i].ttl < 0xFFFF_FFFF
  {
    LeastIsMinimum(resp.answers);
  }

  // ----- What the cache means -----

  /** One effective `Set`. */
  datatype Stored = Stored(key: string, at: int, entry: Entry)

  /** The reference: the last effective `Set` for a key. */
  ghost function Latest(log: seq<Stored>, key: string): Option<Stored> {
    if log == [] then None
    else if log[|log| - 1].key == key then Some(log[|log| - 1])
    else Latest(log[..|log| - 1], key)
  }

  /** What a lookup at time `t` finds. */
  ghost function Hit(entries: Table, key: string, t: int): Option<Msg> {
    if key in entries && t < entries[key].expires then Some(entries[key].msg) else None
  }

  /** No lookup from `from` on can tell the two tables apart. */
  ghost predicate SameHits(a: Table, b: Table, from: int) {
    forall k, t :: from <= t ==> Hit(a, k, t) == Hit(b, k, t)
  }

  ghost function Live(s: Option<Stored>, t: int): Option<Msg> {
    if s.Some? && t < s.value.entry.expires then Some(s.value.entry.msg) else None
  }

  ghost predicate Current(entries: Table, log: seq<Stored>, k: string) {
    k in entries ==> Latest(log, k).Some? && Latest(log, k).value.entry == entries[k]
  }

  ghost predicate OnlyExpiredMissing(entries: Table, log: seq<Stored>, clock: int, k: string) {
    Latest(log, k).Some? && k !in entries ==> Latest(log, k).value.entry.expires < clock
  }

  /** The table agrees with the log: what it holds is current; without a size limit, what it
      lacks has expired; with one, it is within the limit. */
  ghost predicate Faithful(maxEntries: int, entries: Table, log: seq<Stored>, clock: int) {
    && (forall i :: 0 <= i < |log| ==> log[i].at <= clock)
    && (forall k :: Current(entries, log, k))
    && (maxEntries <= 0 ==> forall k :: OnlyExpiredMissing(entries, log, clock, k))
  }

  ghost predicate WithinSize<V>(maxEntries: int, entries: map<string, V>) {
    maxEntries > 0 ==> |entries| <= maxEntries && "" !in entries
  }

  /** An iteration order of a map. */
  ghost predicate Enumerates<V>(order: seq<string>, entries: map<string, V>) {
    && (forall i :: 0 <= i < |order| ==> order[i] in entries)
    && (forall i, j :: 0 <= i < j < |order| ==> order[i] != order[j])
    && |order| == |entries|
  }

  /** The victim comes first to expire among the first hundred entries visited. */
  ghost predicate Evictable(entries: Table, order: seq<string>, victim: string) {
    var n := Min(SAMPLE, |order|);
    && victim in order[..n] && victim in entries
    && forall i :: 0 <= i < n && order[i] in entries ==> entries[victim].expires <= entries[order[i]].expires
  }

  ghost function WithoutVictim(entries: Table, victim: Option<string>): Table {
    if victim.Some? then entries - {victim.value} else entries
  }

  /** One victim from the sample if the table is full, none otherwise. */
  ghost predicate RightVictim(maxEntries: int, t: Table, order: seq<string>, victim: Option<string>) {
    if maxEntries > 0 && |t| >= maxEntries then victim.Some? && Evictable(t, order, victim.value) else victim == None
  }

  /** What an effective `Set` does to the table; any other leaves it alone. */
  ghost predicate Changes(maxEntries: int, before: Table, after: Table, effect: seq<Stored>,
                          order: seq<string>, victim: Option<string>) {
    if effect == [] then after == before
    else
      && after == WithoutVictim(before, victim)[effect[0].key := effect[0].entry]
      && ("" !in before ==> RightVictim(maxEntries, before, order, victim))
  }

  ghost predicate FirstToGo(t: Table, v: string) {
    v in t && forall k :: k in t ==> t[v].expires <= t[k].expires
  }

  /** The slots a sweep keeps. */
  ghost function Kept(slots: map<string, Slot>, at: int): map<string, Slot> {
    map k | k in slots && at <= slots[k].expires :: slots[k]
  }

  ghost function Expired(t: Table, at: int): set<string> {
    set k | k in t && t[k].expires < at
  }

  /** A table without the entries that have expired before `at`. */
  ghost function Unexpired(t: Table, at: int): Table {
    map k | k in t && at <= t[k].expires :: t[k]
  }

  class TTLCache {
    const types: TypeNames
    const minTTL: nat
    const maxTTL: nat
    const maxEntries: int
    var slots: map<string, Slot>
    ghost var table: Table
    ghost var log: seq<Stored>
    ghost var clock: int

    /** The messages that belong to the cache. */
    ghost function Owned(): set<Message>
      reads this
    {
      set k | k in slots :: slots[k].msg
    }

    /** The slots hold what the table says. */
    ghost predicate Holds()
      reads this, Owned()
    {
      && slots.Keys == table.Keys
      && forall k :: k in slots ==> slots[k].msg.value == table[k].msg && slots[k].expires == table[k].expires
    }

    /** The table, as values, agrees with the log. */
    ghost predicate Valid()
      reads this, Owned()
    {
      Holds() && Faithful(maxEntries, table, log, clock)
    }

    constructor (types: TypeNames, minTTL: nat, maxTTL: nat, maxEntries: int)
      ensures Valid() && WithinSize(maxEntries, slots) && slots == map[] && log == []
      ensures this.types == types && this.minTTL == minTTL && this.maxTTL == maxTTL && this.maxEntries == maxEntries
    {
      this.types, this.minTTL, this.maxTTL, this.maxEntries := types, minTTL, maxTTL, maxEntries;
      slots := map[];
      table, log, clock := map[], [], 0;
    }

    /** The first question's key, or "" for a request without one. */
    function MakeKey(req: Option<Request>): (key: string)
      ensures key != "" <==> req.Some? && req.value.questions != []
    {
      if req == None || req.value.questions == [] then "" else Key(types, req.value.questions[0])
    }

    /** Time passes. */
    ghost method Tick(now: int)
      requires Valid() && clock <= now
      modifies this`clock
      ensures Valid() && clock == now
    {
      ClockMoves(maxEntries, table, log, clock, now);
      clock := now;
    }

    /** Slots go away, which the log must allow. */
    method Shrink(rest: map<string, Slot>, ghost gone: set<string>)
      requires Valid() && rest == slots - gone && Faithful(maxEntries, table - gone, log, clock)
      modifies this`slots, this`table
      ensures Valid() && slots == rest && table == old(table) - gone && Owned() <= old(Owned())
      ensures WithinSize(maxEntries, old(slots)) ==> WithinSize(maxEntries, slots)
    {
      if WithinSize(maxEntries, slots) {
        FitsStill(maxEntries, slots, gone);
      }
      PartOf(slots, gone);
      slots, table := rest, table - gone;
    }

    /** A lookup at `now`; an expired entry is deleted under a second lock, at `later`. The
        answer is a copy of the last effective `Set` of the same key if that is still live, under
        the request's own ID. The cache keeps no pointer to the copy. */
    method Get(req: Option<Request>, now: int, later: int) returns (resp: Option<Message>)
      requires Valid() && clock <= now <= later
      modifies this
      ensures Valid() && log == old(log) && clock == later && Owned() <= old(Owned())
      ensures resp.Some? ==>
                && fresh(resp.value) && resp.value !in Owned()
                && req.Some? && req.value.questions != []
                && var s := Latest(log, MakeKey(req));
                   s.Some? && s.value.at <= now < s.value.entry.expires && resp.value.value == s.value.entry.msg.(id := req.value.id)
      ensures resp == None && maxEntries <= 0 && req.Some? && req.value.questions != [] ==>
                Live(Latest(log, MakeKey(req)), now) == None
      ensures SameHits(table, old(table), later)
      ensures resp == None && MakeKey(req) in slots && MakeKey(req) != "" ==> later <= slots[MakeKey(req)].expires
      ensures WithinSize(maxEntries, old(slots)) ==> WithinSize(maxEntries, slots)
    {
      var key := MakeKey(req);
      if key == "" {
        Tick(later);
        return None;
      }
      FindsLatest(maxEntries, table, log, clock, key, now);
      resp := CopyOf(key, req.value.id, now);
      Tick(later);
      if resp == None {
        DropIfExpired(key, later);
      }
    }

    /** Under the read lock: a copy of a live entry. */
    method CopyOf(key: string, id: nat, now: int) returns (resp: Option<Message>)
      requires Holds()
      ensures resp.Some? <==> Hit(table, key, now).Some?
      ensures resp.Some? ==> fresh(resp.value) && resp.value.value == Hit(table, key, now).value.(id := id)
    {
      if key in slots && now < slots[key].expires {
        var m := slots[key].msg.Copy();
        m.SetId(id);
        return Some(m);
      }
      resp := None;
    }

    /** Under the write lock: the entry goes if it has expired by now. */
    method DropIfExpired(key: string, now: int)
      requires Valid() && clock == now
      modifies this`slots, this`table
      ensures Valid() && Owned() <= old(Owned()) && SameHits(table, old(table), now)
      ensures key in slots ==> now <= slots[key].expires
      ensures WithinSize(maxEntries, old(slots)) ==> WithinSize(maxEntries, slots)
    {
      if key in slots && now > slots[key].expires {
        ShrinkExpired(maxEntries, table, log, clock, {key});
        Shrink(slots - {key}, {key});
      }
    }

    /** What storing a response adds to the log: nothing for failures, empty answers and answers
        without a TTL. */
    ghost function EffectOn(key: string, resp: Msg, now: int): seq<Stored> {
      if TTLOf(resp) != 0 then [Stored(key, now, Entry(resp, now + Clamp(minTTL, maxTTL, TTLOf(resp)) * SECOND))] else []
    }

    /** Exactly the successes with a usable TTL are stored, as they are, to be served from then on for
        as long as their answers and the limits say. */
    lemma EffectMeans(key: string, resp: Msg, now: int, t: int)
      ensures EffectOn(key, resp, now) != [] <==>
              && resp.rcode == SUCCESS
              && (forall i :: 0 <= i < |resp.answers| ==> resp.answers[i].ttl > 0)
              && exists i :: 0 <= i < |resp.answers| && resp.answers[i].ttl < 0xFFFF_FFFF
      ensures EffectOn(key, resp, now) != [] ==>
                var s := EffectOn(key, resp, now)[0];
                && EffectOn(key, resp, now) == [s] && s.key == key && s.at == now && s.entry.msg == resp
                && (t < s.entry.expires <==> StillServed(minTTL, maxTTL, resp.answers, t - now))
    {
      UsableTTLMeans(resp);
      if TTLOf(resp) != 0 {
        ServedUntil(minTTL, maxTTL, resp.answers, t - now);
      }
    }

    ghost function Effect(req: Option<Request>, resp: Msg, now: int): seq<Stored> {
      EffectOn(MakeKey(req), resp, now)
    }

    /** Stores a copy of a successful answer for its clamped TTL, evicting one entry first when
        full; failures, empty answers and answers without a TTL are not stored. */
    method Set(req: Option<Request>, resp: Option<Message>, now: int, order: seq<string>)
      returns (ghost victim: Option<string>)
      requires Valid() && clock <= now && Enumerates(order, slots)
      modifies this
      ensures Valid() && clock == now && fresh(Owned() - old(Owned()))
      ensures var effect := if resp.Some? then Effect(req, resp.value.value, now) else [];
              log == old(log) + effect && Changes(maxEntries, old(table), table, effect, order, victim)
      ensures MakeKey(req) != "" && WithinSize(maxEntries, old(slots)) ==> WithinSize(maxEntries, slots)
    {
      victim := None;
      Tick(now);
      if resp.Some? {
        victim := SetMessage(MakeKey(req), resp.value, now, order);
      }
    }

    method SetMessage(key: string, m: Message, now: int, order: seq<string>) returns (ghost victim: Option<string>)
      requires Valid() && clock == now && Enumerates(order, slots)
      modifies this`slots, this`table, this`log
      ensures Valid() && fresh(Owned() - old(Owned()))
      ensures log == old(log) + EffectOn(key, m.value, now)
      ensures Changes(maxEntries, old(table), table, EffectOn(key, m.value, now), order, victim)
      ensures key != "" && WithinSize(maxEntries, old(slots)) ==> WithinSize(maxEntries, slots)
    {
      var ttl := UsableTTL(m.value);
      if ttl == 0 {
        assert EffectOn(key, m.value, now) == [];
        return None;
      }
      var expires := now + Clamp(minTTL, maxTTL, ttl) * SECOND;
      assert EffectOn(key, m.value, now) == [Stored(key, now, Entry(m.value, expires))];
      victim := Insert(key, m, now, expires, order);
    }

    /** `Set`, whatever the order in which the program visits the entries when it evicts. */
    method Keep(req: Option<Request>, m: Message, now: int)
      requires Valid() && clock <= now
      modifies this
      ensures Valid() && clock == now && fresh(Owned() - old(Owned()))
      ensures log == old(log) + Effect(req, m.value, now)
    {
      var order := AnyOrder();
      var _ := Set(req, Some(m), now, order);
    }

    /** Makes room if the table is full, and stores a copy. */
    method Insert(key: string, m: Message, now: int, expires: int, order: seq<string>)
      returns (ghost victim: Option<string>)
      requires Valid() && clock == now && Enumerates(order, slots)
      modifies this`slots, this`table, this`log
      ensures Valid() && fresh(Owned() - old(Owned()))
      ensures var effect := [Stored(key, now, Entry(m.value, expires))];
              log == old(log) + effect && Changes(maxEntries, old(table), table, effect, order, victim)
      ensures key != "" && WithinSize(maxEntries, old(slots)) ==> WithinSize(maxEntries, slots)
    {
      victim := MakeRoom(order);
      var copy := m.Copy();
      PutFits(slots, key, Slot(copy, expires));
      Put(key, copy, now, expires);
    }

    /** Evicts one entry if the table is full. */
    method MakeRoom(order: seq<string>) returns (ghost victim: Option<string>)
      requires Valid() && Enumerates(order, slots)
      modifies this`slots, this`table
      ensures Valid() && Owned() <= old(Owned()) && table == WithoutVictim(old(table), victim)
      ensures "" !in old(table) ==> RightVictim(maxEntries, old(table), order, victim)
      ensures maxEntries > 0 && WithinSize(maxEntries, old(slots)) ==> |slots| < maxEntries && "" !in slots
    {
      victim := None;
      assert |slots| == |slots.Keys| && |table| == |table.Keys|;
      if maxEntries > 0 && |slots| >= maxEntries {
        ghost var v := EvictOne(order);
        victim := if v == "" then None else Some(v);
      }
    }

    /** A message of its own enters the table. */
    method Put(key: string, m: Message, now: int, expires: int)
      requires Valid() && clock == now && m !in Owned()
      modifies this`slots, this`table, this`log
      ensures Valid() && slots == old(slots)[key := Slot(m, expires)] && Owned() <= old(Owned()) + {m}
      ensures table == old(table)[key := Entry(m.value, expires)]
      ensures log == old(log) + [Stored(key, now, Entry(m.value, expires))]
    {
      ghost var s := Stored(key, now, Entry(m.value, expires));
      StoreIsFaithful(maxEntries, table, log, clock, s);
      slots, table := slots[key := Slot(m, expires)], table[key := s.entry];
      log := log + [s];
    }

    /** Removes one entry, the first to expire among the first hundred in the iteration order;
        if there are no more than a hundred, that is the first of all to expire. */
    method EvictOne(order: seq<string>) returns (ghost victim: string)
      requires Valid() && Enumerates(order, slots) && maxEntries > 0
      modifies this`slots, this`table
      ensures Valid() && Owned() <= old(Owned())
      ensures victim == "" ==> slots == old(slots) && table == old(table)
      ensures victim != "" ==>
                && victim in old(slots) && slots == old(slots) - {victim} && |slots| == |old(slots)| - 1
                && table == old(table) - {victim}
      ensures "" !in old(slots) && old(slots) != map[] ==>
                && victim != "" && Evictable(old(table), order, victim)
                && (|old(slots)| <= SAMPLE ==> FirstToGo(old(table), victim))
    {
      var oldest := FirstToExpire(order);
      victim := oldest;
      if oldest != "" {
        ShrinkAny(maxEntries, table, log, clock, {oldest});
        MapLoses(slots, oldest);
        EvictsFirst(slots, table, order, oldest);
        Shrink(slots - {oldest}, {oldest});
      }
    }

    /** The running minimum over the sample. */
    method FirstToExpire(order: seq<string>) returns (oldest: string)
      requires Enumerates(order, slots) && Holds()
      ensures oldest != "" ==> oldest in slots
      ensures "" !in slots && slots != map[] ==> oldest != "" && Evictable(table, order, oldest)
    {
      oldest := "";
      var expiry := 0;
      var n := Min(SAMPLE, |slots|);
      for i := 0 to n
        invariant "" !in slots && 0 < i ==>
                    && oldest in order[..i] && oldest in slots && expiry == slots[oldest].expires
                    && forall j :: 0 <= j < i ==> expiry <= slots[order[j]].expires
        invariant i == 0 ==> oldest == ""
        invariant oldest != "" ==> oldest in slots
      {
        assert order[..i + 1] == order[..i] + [order[i]];
        if oldest == "" || slots[order[i]].expires < expiry {
          oldest, expiry := order[i], slots[order[i]].expires;
        }
      }
    }

    /** Some order in which the program may visit the entries. */
    method AnyOrder() returns (order: seq<string>)
      ensures Enumerates(order, slots)
    {
      order := [];
      var todo := slots.Keys;
      while todo != {}
        invariant todo <= slots.Keys && |order| + |todo| == |slots|
        invariant forall i :: 0 <= i < |order| ==> order[i] in slots && order[i] !in todo
        invariant forall i, j :: 0 <= i < j < |order| ==> order[i] != order[j]
        decreases |todo|
      {
        var k :| k in todo;
        order := order + [k];
        todo := todo - {k};
      }
    }

    /** The background sweep, with a clock reading taken before the lock. No later lookup can
        tell whether it ran. */
    method Sweep(at: int, now: int)
      requires Valid() && at <= now && clock <= now
      modifies this
      ensures Valid() && log == old(log) && clock == now && Owned() <= old(Owned())
      ensures table == Unexpired(old(table), at)
      ensures SameHits(table, old(table), now)
      ensures WithinSize(maxEntries, old(slots)) ==> WithinSize(maxEntries, slots)
    {
      Tick(now);
      SweepDrops(slots, table, at);
      SweepIsInvisible(maxEntries, table, log, clock, at);
      var rest := SweepTable(slots, at);
      Shrink(rest, Expired(table, at));
    }

    method SweepTable(t: map<string, Slot>, at: int) returns (r: map<string, Slot>)
      ensures r == Kept(t, at)
    {
      r := t;
      var todo := t.Keys;
      while todo != {}
        invariant todo <= t.Keys
        invariant r == map k | k in t && (k in todo || at <= t[k].expires) :: t[k]
        decreases |todo|
      {
        var k :| k in todo;
        if at > r[k].expires {
          r := r - {k};
        }
        todo := todo - {k};
      }
    }
  }

  // ----- Steps of the table against the log -----

  lemma ClockMoves(maxEntries: int, entries: Table, log: seq<Stored>, clock: int, now: int)
    requires Faithful(maxEntries, entries, log, clock) && clock <= now
    ensures Faithful(maxEntries, entries, log, now)
  {
    forall k | maxEntries <= 0
      ensures OnlyExpiredMissing(entries, log, now, k)
    {
      assert OnlyExpiredMissing(entries, log, clock, k);
    }
  }

  lemma {:induction false} LatestAt(log: seq<Stored>, key: string)
    ensures Latest(log, key).Some? ==> Latest(log, key).value in log && Latest(log, key).value.key == key
  {
    if log != [] {
      LatestAt(log[..|log| - 1], key);
    }
  }

  /** A lookup finds the last effective `Set`, and without a size limit it finds it for sure. */
  lemma FindsLatest(maxEntries: int, entries: Table, log: seq<Stored>, clock: int, key: string, now: int)
    requires Faithful(maxEntries, entries, log, clock) && clock <= now
    ensures Hit(entries, key, now).Some? ==>
              var s := Latest(log, key);
              s.Some? && s.value.at <= now < s.value.entry.expires && Hit(entries, key, now).value == s.value.entry.msg
    ensures maxEntries <= 0 ==> Hit(entries, key, now) == Live(Latest(log, key), now)
  {
    LatestAt(log, key);
    assert Current(entries, log, key) && (maxEntries <= 0 ==> OnlyExpiredMissing(entries, log, clock, key));
  }

  /** Deleting expired entries keeps the agreement and is invisible to every later lookup. */
  lemma ShrinkExpired(maxEntries: int, entries: Table, log: seq<Stored>, clock: int, gone: set<string>)
    requires Faithful(maxEntries, entries, log, clock)
    requires forall k :: k in gone && k in entries ==> entries[k].expires < clock
    ensures Faithful(maxEntries, entries - gone, log, clock)
    ensures SameHits(entries - gone, entries, clock)
    ensures |entries - gone| <= |entries|
  {
    forall k
      ensures Current(entries - gone, log, k)
      ensures maxEntries <= 0 ==> OnlyExpiredMissing(entries - gone, log, clock, k)
    {
      assert Current(entries, log, k);
      assert maxEntries <= 0 ==> OnlyExpiredMissing(entries, log, clock, k);
    }
    Smaller(entries, gone);
  }

  lemma Smaller<V>(entries: map<string, V>, gone: set<string>)
    ensures |entries - gone| <= |entries|
  {
    assert (entries - gone).Keys == entries.Keys - gone;
    assert entries.Keys == (entries.Keys - gone) + entries.Keys * gone;
  }

  /** A sweep deletes exactly the entries that expired before its reading of the clock. */
  lemma UnexpiredMeans(t: Table, at: int, k: string)
    ensures k in Unexpired(t, at) <==> k in t && t[k].expires >= at
    ensures k in Unexpired(t, at) ==> Unexpired(t, at)[k] == t[k]
  {
  }

  /** What a sweep leaves is what is left without the expired entries. */
  lemma SweepDrops(slots: map<string, Slot>, entries: Table, at: int)
    requires slots.Keys == entries.Keys && forall k :: k in slots ==> slots[k].expires == entries[k].expires
    ensures Kept(slots, at) == slots - Expired(entries, at)
  {
  }

  lemma SweepIsInvisible(maxEntries: int, entries: Table, log: seq<Stored>, clock: int, at: int)
    requires Faithful(maxEntries, entries, log, clock) && at <= clock
    ensures Unexpired(entries, at) == entries - Expired(entries, at)
    ensures Faithful(maxEntries, Unexpired(entries, at), log, clock)
    ensures SameHits(Unexpired(entries, at), entries, clock)
    ensures |Unexpired(entries, at)| <= |entries|
  {
    assert Unexpired(entries, at) == entries - Expired(entries, at);
    ShrinkExpired(maxEntries, entries, log, clock, Expired(entries, at));
  }

  lemma PutFits<V>(entries: map<string, V>, key: string, v: V)
    ensures |entries[key := v]| <= |entries| + 1
  {
    assert entries[key := v].Keys == entries.Keys + {key};
  }

  lemma FitsStill<V>(maxEntries: int, entries: map<string, V>, gone: set<string>)
    requires WithinSize(maxEntries, entries)
    ensures WithinSize(maxEntries, entries - gone)
  {
    Smaller(entries, gone);
  }

  lemma PartOf<V>(entries: map<string, V>, gone: set<string>)
    ensures (entries - gone).Keys == entries.Keys - gone
    ensures forall k :: k in entries - gone ==> (entries - gone)[k] == entries[k]
  {
  }

  /** With a size limit, deleting anything keeps the agreement. */
  lemma ShrinkAny(maxEntries: int, entries: Table, log: seq<Stored>, clock: int, gone: set<string>)
    requires Faithful(maxEntries, entries, log, clock) && maxEntries > 0
    ensures Faithful(maxEntries, entries - gone, log, clock)
  {
    forall k
      ensures Current(entries - gone, log, k)
    {
      assert Current(entries, log, k);
    }
  }

  lemma LatestAfter(log: seq<Stored>, s: Stored, k: string)
    ensures Latest(log + [s], k) == if s.key == k then Some(s) else Latest(log, k)
  {
    assert (log + [s])[..|log|] == log;
  }

  lemma StoreIsFaithful(maxEntries: int, entries: Table, log: seq<Stored>, clock: int, s: Stored)
    requires Faithful(maxEntries, entries, log, clock) && s.at <= clock
    ensures Faithful(maxEntries, entries[s.key := s.entry], log + [s], clock)
  {
    var entries', log' := entries[s.key := s.entry], log + [s];
    forall k
      ensures Current(entries', log', k)
      ensures maxEntries <= 0 ==> OnlyExpiredMissing(entries', log', clock, k)
    {
      LatestAfter(log, s, k);
      assert Current(entries, log, k);
      assert maxEntries <= 0 ==> OnlyExpiredMissing(entries, log, clock, k);
    }
  }

  /** A list of as many distinct keys as the map has lists all of them. */
  lemma AllListed<V>(order: seq<string>, entries: map<string, V>)
    requires Enumerates(order, entries)
    ensures forall k :: k in entries ==> k in order
  {
    var listed := set k | k in order;
    ListedSize(order);
    assert listed <= entries.Keys;
    SubsetOfSameSize(listed, entries.Keys);
  }

  lemma {:induction false} ListedSize(order: seq<string>)
    requires forall i, j :: 0 <= i < j < |order| ==> order[i] != order[j]
    ensures |set k | k in order| == |order|
  {
    if order != [] {
      var before, last := order[..|order| - 1], order[|order| - 1];
      ListedSize(before);
      assert order == before + [last];
      assert (set k | k in order) == (set k | k in before) + {last};
    }
  }

  lemma {:induction false} SubsetOfSameSize(a: set<string>, b: set<string>)
    requires a <= b && |a| == |b|
    ensures a == b
  {
    if a != {} {
      var x :| x in a;
      SubsetOfSameSize(a - {x}, b - {x});
    }
  }

  /** If the sample covers the table, the victim is the first of all to expire. */
  lemma EvictsFirst<V>(slots: map<string, V>, entries: Table, order: seq<string>, v: string)
    requires slots.Keys == entries.Keys && Enumerates(order, slots) && v in slots
    ensures Evictable(entries, order, v) && |slots| <= SAMPLE ==> FirstToGo(entries, v)
  {
    if Evictable(entries, order, v) && |slots| <= SAMPLE {
      AllListed(order, slots);
      forall k | k in entries
        ensures entries[v].expires <= entries[k].expires
      {
        var i :| 0 <= i < |order| && order[i] == k;
      }
    }
  }
}
