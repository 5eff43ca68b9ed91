/** Handing out messages. The cache, the flights and the clients all hold pointers to messages;
    this shows that no two of them ever hold the same one, so that treating messages as values,
    as the rest of the model does, is what the program does. */
module HandOut {
  import opened Prelude
  import opened Dns
  import opened Messages
  import opened Cache

  /** What a client or an upstream may cause. */
  datatype Op =
    | Look(req: Request)                         // a lookup in the cache
    | Land(key: string, req: Request, resp: Msg) // a flight ends with a message from an upstream
    | Deliver(key: string, id: nat)              // one waiter takes the result of a flight
    | Forget(key: string)                        // ... the last one has taken it
    | Write(i: nat, v: Msg)                      // a client writes to the i-th message handed out
    | Sweep(at: int)                             // the cache's background sweep

  datatype Timed = Timed(op: Op, now: int, later: int)

  /** The clock never goes back. */
  ghost predicate Timely(clock: int, ops: seq<Timed>)
    decreases |ops|
  {
    ops != [] ==>
      && clock <= ops[0].now <= ops[0].later && (ops[0].op.Sweep? ==> ops[0].op.at <= ops[0].now)
      && Timely(ops[0].later, ops[1..])
  }

  /** Nothing but the end of a flight adds to the log. */
  ghost function Stores(c: TTLCache, t: Timed): seq<Stored> {
    if t.op.Land? then c.Effect(Some(t.op.req), t.op.resp, t.now) else []
  }

  ghost function AllStores(c: TTLCache, ops: seq<Timed>): seq<Stored> {
    if ops == [] then [] else AllStores(c, ops[..|ops| - 1]) + Stores(c, ops[|ops| - 1])
  }

  /** The messages whose clients write to them. */
  ghost function Writes(ops: seq<Timed>): set<nat> {
    set k | 0 <= k < |ops| && ops[k].op.Write? :: ops[k].op.i
  }

  lemma NextOp(c: TTLCache, clock: int, ops: seq<Timed>, k: nat)
    requires k < |ops| && Timely(clock, ops[k..])
    ensures var t := ops[k];
            && clock <= t.now <= t.later && (t.op.Sweep? ==> t.op.at <= t.now) && Timely(t.later, ops[k + 1..])
            && AllStores(c, ops[..k + 1]) == AllStores(c, ops[..k]) + Stores(c, t)
            && Writes(ops[..k + 1]) == Writes(ops[..k]) + if t.op.Write? then {t.op.i} else {}
  {
    assert ops[..k + 1][..k] == ops[..k] && ops[k..][0] == ops[k] && ops[k..][1..] == ops[k + 1..];
    assert ops[..k + 1] == ops[..k] + [ops[k]];
  }

  ghost predicate Distinct(ms: seq<Message>) {
    forall i, j :: 0 <= i < j < |ms| ==> ms[i] != ms[j]
  }

  class FrontDesk {
    const cache: TTLCache
    var results: map<string, Message>  // of flights whose waiters are still taking them
    var handed: seq<Message>           // to clients, in order
    ghost var outcomes: map<string, Msg>
    ghost var issued: seq<Msg>         // what each message was when it was handed out
    ghost var written: set<nat>        // the messages that their own clients wrote to

    /** No message is handed out twice, and none that the cache or a flight holds. */
    ghost predicate Apart()
      reads this, cache
    {
      && Distinct(handed)
      && (forall i :: 0 <= i < |handed| ==> handed[i] !in cache.Owned() && handed[i] !in results.Values)
      && results.Values !! cache.Owned()
    }

    /** A message is what it was when it was handed out, unless its own client wrote to it. */
    ghost predicate Untouched()
      reads this, handed
    {
      && |issued| == |handed| && (forall i :: i in written ==> i < |handed|)
      && forall i :: 0 <= i < |handed| && i !in written ==> handed[i].value == issued[i]
    }

    ghost predicate ResultsHold()
      reads this, results.Values
    {
      results.Keys == outcomes.Keys && forall k :: k in results ==> results[k].value == outcomes[k]
    }

    ghost predicate Valid()
      reads this, cache, cache.Owned(), handed, results.Values
    {
      cache.Valid() && Apart() && Untouched() && ResultsHold()
    }

    constructor (cache: TTLCache)
      requires cache.Valid()
      ensures Valid() && this.cache == cache && handed == [] && results == map[] && written == {}
    {
      this.cache := cache;
      results, handed, outcomes, issued, written := map[], [], map[], [], {};
    }

    /** A new message goes to a client. */
    method HandTo(m: Message)
      requires Valid() && m !in handed && m !in cache.Owned() && m !in results.Values
      modifies this`handed, this`issued
      ensures Valid() && handed == old(handed) + [m] && issued == old(issued) + [m.value]
    {
      handed, issued := handed + [m], issued + [m.value];
    }

    /** A hit is a message of the client's own. */
    method Lookup(req: Request, now: int, later: int) returns (resp: Option<Message>)
      requires Valid() && cache.clock <= now <= later
      modifies this`handed, this`issued, cache
      ensures Valid() && cache.clock == later && cache.log == old(cache.log)
      ensures resp == None ==> handed == old(handed) && issued == old(issued)
      ensures resp.Some? ==>
                fresh(resp.value) && handed == old(handed) + [resp.value] && issued == old(issued) + [resp.value.value]
      ensures resp.Some? ==>
                var s := Latest(cache.log, cache.MakeKey(Some(req)));
                s.Some? && resp.value.value == s.value.entry.msg.(id := req.id)
    {
      resp := cache.Get(Some(req), now, later);
      if resp.Some? {
        HandTo(resp.value);
      }
    }

    /** A query goes upstream as a copy under a random ID; the client's request keeps its own. */
    method SendUpstream(req: Message, id: nat) returns (sent: Message)
      ensures fresh(sent) && sent.value == req.value.(id := id)
    {
      sent := req.Copy();
      sent.SetId(id);
    }

    /** A flight ends: the cache gets a copy, and the message itself waits for the waiters. */
    method LandFlight(key: string, req: Request, resp: Msg, now: int)
      requires Valid() && cache.clock <= now
      modifies this`results, this`outcomes, cache
      ensures Valid() && cache.clock == now && outcomes == old(outcomes)[key := resp]
      ensures cache.log == old(cache.log) + cache.Effect(Some(req), resp, now)
    {
      var m := new Message(resp);
      CacheCopy(req, m, now);
      results, outcomes := results[key := m], outcomes[key := resp];
    }

    /** The cache gets a copy of a message, not the message. */
    method CacheCopy(req: Request, m: Message, now: int)
      requires Valid() && cache.clock <= now && m !in cache.Owned()
      modifies cache
      ensures Valid() && cache.clock == now && m !in cache.Owned()
      ensures cache.log == old(cache.log) + cache.Effect(Some(req), m.value, now)
    {
      cache.Keep(Some(req), m, now);
    }

    /** Every waiter gets a copy of its own, under its own ID. */
    method DeliverTo(key: string, id: nat) returns (m: Message)
      requires Valid() && key in results
      modifies this`handed, this`issued
      ensures Valid() && fresh(m) && handed == old(handed) + [m] && issued == old(issued) + [m.value]
      ensures m.value == outcomes[key].(id := id)
    {
      m := results[key].Copy();
      m.SetId(id);
      HandTo(m);
    }

    method ForgetFlight(key: string)
      requires Valid()
      modifies this`results, this`outcomes
      ensures Valid() && outcomes == old(outcomes) - {key}
    {
      results, outcomes := results - {key}, outcomes - {key};
    }

    /** Whatever a client writes to its message, no other client's message changes, nor what the
        cache or a flight holds. */
    method ClientWrites(i: nat, v: Msg)
      requires Valid() && i < |handed|
      modifies handed[i], this`written
      ensures Valid() && handed[i].value == v && written == old(written) + {i}
      ensures forall j :: 0 <= j < |handed| && j != i ==> handed[j].value == old(handed[j].value)
    {
      handed[i].value := v;
      written := written + {i};
    }

    /** Any sequence of lookups, flights, deliveries, sweeps and writes of clients to the messages
        they were given: all messages handed out are different and none is one the cache or a
        flight holds; each is what it was when it was handed out, unless its own client wrote to
        it; and what the cache holds is decided by the flights alone. */
    method Serve(ops: seq<Timed>)
      requires Valid() && Timely(cache.clock, ops)
      modifies this, cache, handed
      ensures Valid() && cache.log == old(cache.log) + AllStores(cache, ops)
      ensures old(handed) <= handed && Distinct(handed)
      ensures forall i :: 0 <= i < |handed| ==> handed[i] !in cache.Owned() && handed[i] !in results.Values
      ensures old(issued) <= issued && |issued| == |handed|
      ensures forall i :: 0 <= i < |handed| && i !in old(written) + Writes(ops) ==> handed[i].value == issued[i]
    {
      ghost var last := cache.clock;
      for k := 0 to |ops|
        invariant Valid() && cache.clock <= last && Timely(last, ops[k..])
        invariant cache.log == old(cache.log) + AllStores(cache, ops[..k])
        invariant old(handed) <= handed && old(issued) <= issued && |issued| == |handed|
        invariant forall i :: |old(handed)| <= i < |handed| ==> fresh(handed[i])
        invariant written <= old(written) + Writes(ops[..k])
      {
        NextOp(cache, last, ops, k);
        Perform(ops[k].op, ops[k].now, ops[k].later);
        last := ops[k].later;
      }
      assert ops[..|ops|] == ops;
    }

    /** One operation, if there is such a flight or such a message. */
    method Perform(op: Op, now: int, later: int)
      requires Valid() && cache.clock <= now <= later && (op.Sweep? ==> op.at <= now)
      modifies this, cache, handed
      ensures Valid() && cache.clock <= later && |issued| == |handed|
      ensures cache.log == old(cache.log) + Stores(cache, Timed(op, now, later))
      ensures old(handed) <= handed && old(issued) <= issued
      ensures forall i :: |old(handed)| <= i < |handed| ==> fresh(handed[i])
      ensures written <= old(written) + if op.Write? then {op.i} else {}
    {
      match op {
        case Look(req) =>
          var _ := Lookup(req, now, later);
        case Land(key, req, resp) =>
          LandFlight(key, req, resp, now);
        case Deliver(key, id) =>
          if key in results {
            var _ := DeliverTo(key, id);
          }
        case Forget(key) =>
          ForgetFlight(key);
        case Write(i, v) =>
          if i < |handed| {
            ClientWrites(i, v);
          }
        case Sweep(at) =>
          SweepCache(at, now);
      }
    }

    method SweepCache(at: int, now: int)
      requires Valid() && cache.clock <= now && at <= now
      modifies cache
      ensures Valid() && cache.clock == now && cache.log == old(cache.log)
    {
      cache.Sweep(at, now);
    }
  }
}
