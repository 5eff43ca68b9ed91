/** The rules of routing: what counts as hijacked, what an exchange yields, who wins the race of
    the learning path, what may be learned and answered, and which path a name takes. */
module RoutingRules {
  import opened Prelude
  import opened Names
  import opened Dns

  // ----- Hijacked addresses -----

  datatype Addr = V4(n: nat) | V6(n: nat)

  datatype Prefix = Prefix(addr: Addr, bits: nat)

  function Pow2(n: nat): (p: nat)
    ensures p > 0
  {
    if n == 0 then 1 else 2 * Pow2(n - 1)
  }

  /** Same family and same leading bits. */
  predicate Contains(p: Prefix, a: Addr) {
    match (p.addr, a)
    case (V4(x), V4(y)) => p.bits <= 32 && x / Pow2(32 - p.bits) == y / Pow2(32 - p.bits)
    case (V6(x), V6(y)) => p.bits <= 128 && x / Pow2(128 - p.bits) == y / Pow2(128 - p.bits)
    case _ => false
  }

  lemma Pow2Values()
    ensures Pow2(0) == 1 && Pow2(8) == 0x100 && Pow2(16) == 0x1_0000 && Pow2(24) == 0x100_0000 && Pow2(32) == 0x1_0000_0000
  {
    assert Pow2(4) == 16 && Pow2(8) == 256 && Pow2(12) == 4096;
    assert Pow2(16) == 65536 && Pow2(20) == 1048576 && Pow2(24) == 16777216;
    assert Pow2(28) == 268435456 && Pow2(32) == 4294967296;
  }

  lemma {:induction false} Pow2Adds(a: nat, b: nat)
    ensures Pow2(a + b) == Pow2(a) * Pow2(b)
  {
    if a > 0 {
      Pow2Adds(a - 1, b);
      Regroup(Pow2(a - 1), Pow2(b));
    }
  }

  lemma Regroup(a: nat, b: nat)
    ensures 2 * (a * b) == (2 * a) * b
  {
  }

  lemma Quotient(y: nat, m: nat, k: nat)
    requires m > 0
    ensures y / m == k <==> m * k <= y < m * k + m
  {
    var d := y / m;
    assert y == m * d + y % m;
    if d < k {
      Grows(m, d + 1, k);
    } else if k < d {
      Grows(m, k + 1, d);
    }
  }

  lemma Grows(m: nat, a: nat, b: nat)
    requires a <= b
    ensures m * a <= m * b
  {
  }

  /** The aligned block of this size around `x` holds `y`. */
  ghost predicate InBlock(x: nat, y: nat, size: nat)
    requires size > 0
  {
    x - x % size <= y < x - x % size + size
  }

  lemma SameQuotient(x: nat, y: nat, m: nat)
    requires m > 0
    ensures x / m == y / m <==> InBlock(x, y, m)
  {
    assert x - x % m == m * (x / m);
    Quotient(y, m, x / m);
  }

  /** An address of the same family in the block of as many addresses as the bits beyond the prefix
      can tell apart. */
  ghost predicate InRange(p: Prefix, a: Addr) {
    || (p.addr.V4? && a.V4? && p.bits <= 32 && InBlock(p.addr.n, a.n, Pow2(32 - p.bits)))
    || (p.addr.V6? && a.V6? && p.bits <= 128 && InBlock(p.addr.n, a.n, Pow2(128 - p.bits)))
  }

  /** A range holds an interval of addresses. */
  lemma RangeIsInterval(p: Prefix, a: Addr)
    ensures Contains(p, a) <==> InRange(p, a)
  {
    if p.addr.V4? && a.V4? && p.bits <= 32 {
      SameQuotient(p.addr.n, a.n, Pow2(32 - p.bits));
    } else if p.addr.V6? && a.V6? && p.bits <= 128 {
      SameQuotient(p.addr.n, a.n, Pow2(128 - p.bits));
    }
  }

  /** The configuration the routing decisions depend on. */
  datatype Policy = Policy(
    hijackIPs: set<string>, hijackRanges: seq<Prefix>, parse: string -> Option<Addr>,
    iranTLDs: set<string>, preferIran: set<string>, hasFallback: bool)

  ghost predicate HijackedIP(p: Policy, ip: string) {
    ip in p.hijackIPs || (p.parse(ip).Some? && exists r :: r in p.hijackRanges && Contains(r, p.parse(ip).value))
  }

  ghost predicate Hijacked(p: Policy, ips: seq<string>) {
    exists i :: 0 <= i < |ips| && HijackedIP(p, ips[i])
  }

  method IsHijacked(p: Policy, ips: seq<string>) returns (hijacked: bool)
    ensures hijacked <==> Hijacked(p, ips)
  {
    for i := 0 to |ips|
      invariant forall j :: 0 <= j < i ==> !HijackedIP(p, ips[j])
    {
      if ips[i] in p.hijackIPs {
        return true;
      }
      var addr := p.parse(ips[i]);
      if addr.Some? {
        for k := 0 to |p.hijackRanges|
          invariant forall j :: 0 <= j < k ==> !Contains(p.hijackRanges[j], addr.value)
        {
          if Contains(p.hijackRanges[k], addr.value) {
            return true;
          }
        }
      }
    }
    hijacked := false;
  }

  /** An address is hijacked exactly if it is listed, or it parses and lies in the block of a listed
      range of its family. */
  lemma HijackedMeans(p: Policy, ip: string)
    ensures HijackedIP(p, ip) <==>
            || ip in p.hijackIPs
            || (p.parse(ip).Some? && exists k :: 0 <= k < |p.hijackRanges| && InRange(p.hijackRanges[k], p.parse(ip).value))
  {
    if p.parse(ip).Some? {
      var a := p.parse(ip).value;
      forall r | r in p.hijackRanges
        ensures Contains(r, a) <==> InRange(r, a)
      {
        RangeIsInterval(r, a);
      }
      if k :| 0 <= k < |p.hijackRanges| && InRange(p.hijackRanges[k], a) {
        assert p.hijackRanges[k] in p.hijackRanges;
      }
    }
  }

  /** The addresses among the answers. */
  ghost function IPs(answers: seq<RR>): seq<string> {
    if answers == [] then []
    else
      var last := answers[|answers| - 1];
      IPs(answers[..|answers| - 1]) + (if last.Other? then [] else [last.ip])
  }

  /** Collects the address of every A and AAAA record, in order, and nothing else: `at` says where
      each came from. */
  method ExtractIPs(answers: seq<RR>) returns (ips: seq<string>, ghost at: seq<nat>)
    ensures ips == IPs(answers)
    ensures |at| == |ips| && forall k :: 0 <= k < |at| ==>
              at[k] < |answers| && (answers[at[k]].A? || answers[at[k]].AAAA?) && answers[at[k]].ip == ips[k]
    ensures forall j, k :: 0 <= j < k < |at| ==> at[j] < at[k]
    ensures forall i :: 0 <= i < |answers| && (answers[i].A? || answers[i].AAAA?) ==> i in at
  {
    ips, at := [], [];
    for i := 0 to |answers|
      invariant ips == IPs(answers[..i])
      invariant |at| == |ips| && forall k :: 0 <= k < |at| ==>
                  at[k] < i && (answers[at[k]].A? || answers[at[k]].AAAA?) && answers[at[k]].ip == ips[k]
      invariant forall j, k :: 0 <= j < k < |at| ==> at[j] < at[k]
      invariant forall j :: 0 <= j < i && (answers[j].A? || answers[j].AAAA?) ==> j in at
    {
      assert answers[..i + 1][..i] == answers[..i];
      match answers[i] {
        case A(ip, _) => ips, at := ips + [ip], at + [i];
        case AAAA(ip, _) => ips, at := ips + [ip], at + [i];
        case Other(_) =>
      }
    }
    assert answers[..|answers|] == answers;
  }

  /** Some A or AAAA record carries the address. */
  ghost predicate Lists(answers: seq<RR>, ip: string) {
    exists i :: 0 <= i < |answers| && (answers[i].A? || answers[i].AAAA?) && answers[i].ip == ip
  }

  ghost predicate HasAddressRecord(answers: seq<RR>) {
    exists i :: 0 <= i < |answers| && (answers[i].A? || answers[i].AAAA?)
  }

  /** Some A or AAAA record carries a hijacked address. */
  ghost predicate HijackedRecord(p: Policy, answers: seq<RR>) {
    exists i :: 0 <= i < |answers| && (answers[i].A? || answers[i].AAAA?) && HijackedIP(p, answers[i].ip)
  }

  lemma {:induction false} AddressesAreRecords(answers: seq<RR>, ip: string)
    ensures ip in IPs(answers) <==> Lists(answers, ip)
  {
    if answers != [] {
      var before, last := answers[..|answers| - 1], answers[|answers| - 1];
      AddressesAreRecords(before, ip);
      assert forall i :: 0 <= i < |before| ==> answers[i] == before[i];
      if Lists(before, ip) {
        var i :| 0 <= i < |before| && (before[i].A? || before[i].AAAA?) && before[i].ip == ip;
        assert answers[i].ip == ip;
      }
    }
  }

  /** What the lists of addresses say is what the records say. */
  lemma RecordsSpeak(p: Policy, answers: seq<RR>)
    ensures Hijacked(p, IPs(answers)) <==> HijackedRecord(p, answers)
    ensures IPs(answers) != [] <==> HasAddressRecord(answers)
    ensures forall ip :: ip in IPs(answers) <==> Lists(answers, ip)
  {
    var ips := IPs(answers);
    forall ip
      ensures ip in ips <==> Lists(answers, ip)
    {
      AddressesAreRecords(answers, ip);
    }
    if ips != [] {
      assert Lists(answers, ips[0]);
    }
    if i :| 0 <= i < |answers| && (answers[i].A? || answers[i].AAAA?) {
      assert Lists(answers, answers[i].ip);
    }
    if i :| 0 <= i < |ips| && HijackedIP(p, ips[i]) {
      assert Lists(answers, ips[i]);
    }
    if i :| 0 <= i < |answers| && (answers[i].A? || answers[i].AAAA?) && HijackedIP(p, answers[i].ip) {
      assert Lists(answers, answers[i].ip);
    }
  }

  // ----- Exchanges -----

  /** What one exchange with an upstream yields. */
  datatype Exchange = Failed | Replied(id: nat, rcode: nat, answers: seq<RR>, truncated: bool)

  /** One call of `query`: the context was done or had no time left, or up to two exchanges
      took place (the second one over TCP, or with the fallback server). */
  datatype QueryPlan = NoTime | Tries(first: Exchange, second: Exchange)

  /** What a query tells the breaker of its upstream: the outcome of its first exchange. */
  datatype Report = Report(toIran: bool, ok: bool)

  function Reply(e: Exchange, q: Question, origin: Origin): Msg
    requires e.Replied?
  {
    Msg(e.id, e.rcode, e.answers, e.truncated, q, origin)
  }

  /** What one query comes to: nothing without time; after a failed exchange only a fallback of
      GlobalDNS can help; a truncated reply gives way to the one over TCP, if that arrives. */
  ghost function QueryResult(p: Policy, q: Question, toIran: bool, plan: QueryPlan): Option<Msg> {
    var origin := if toIran then Iran else Global;
    match plan
    case NoTime => None
    case Tries(Failed, Failed) => None
    case Tries(Failed, second) => if !toIran && p.hasFallback then Some(Reply(second, q, origin)) else None
    case Tries(first, second) => Some(Reply(if first.truncated && second.Replied? then second else first, q, origin))
  }

  /** The message is what the exchange brought. */
  ghost predicate Brought(e: Exchange, m: Msg) {
    e == Replied(m.id, m.rcode, m.answers, m.truncated)
  }

  /** Which exchange answers: the first one if it brought a full reply; the second one, if it brought
      any, after a truncated reply or, with a fallback of GlobalDNS, after a failure; a truncated
      first reply only if nothing better came. */
  lemma QueryAnswers(p: Policy, q: Question, toIran: bool, plan: QueryPlan)
    ensures var r := QueryResult(p, q, toIran, plan);
            && (r == None <==> plan == NoTime || (plan.first == Failed && (toIran || !p.hasFallback || plan.second == Failed)))
            && (r.Some? ==> r.value.question == q && r.value.origin == if toIran then Iran else Global)
            && (r.Some? ==> Brought(plan.first, r.value) || Brought(plan.second, r.value))
            && (r.Some? && plan.first.Replied? && !plan.first.truncated ==> Brought(plan.first, r.value))
            && (r.Some? && plan.first.Replied? && plan.first.truncated && plan.second.Replied? ==> Brought(plan.second, r.value))
            && (r.Some? && r.value.truncated ==> plan.second == Failed || plan.second.truncated)
  {
  }

  // ----- The race -----

  /** What a `select` of the learning path picked. */
  datatype Delivery = FromIran(iran: Option<Msg>) | FromGlobal(global: Option<Msg>) | TimerFired | ContextDone

  /** An IranDNS reply that may be returned and learned from. */
  ghost predicate Validated(p: Policy, iranian: string -> bool, m: Msg) {
    !HijackedRecord(p, m.answers) && exists ip :: Lists(m.answers, ip) && iranian(ip)
  }

  ghost predicate GoodIran(p: Policy, iranian: string -> bool, d: Delivery) {
    d.FromIran? && d.iran.Some? && Validated(p, iranian, d.iran.value)
  }

  ghost predicate GoodGlobal(d: Delivery) {
    d.FromGlobal? && d.global.Some?
  }

  /** A validated IranDNS reply was picked at `i`, before any reply of GlobalDNS. */
  ghost predicate IranWinsAt(p: Policy, iranian: string -> bool, trace: seq<Delivery>, i: int) {
    0 <= i < |trace| && GoodIran(p, iranian, trace[i]) && forall j :: 0 <= j < i ==> !GoodGlobal(trace[j])
  }

  ghost predicate IranWins(p: Policy, iranian: string -> bool, trace: seq<Delivery>) {
    exists i :: IranWinsAt(p, iranian, trace, i)
  }

  /** The rule of the race, for address queries: a validated IranDNS reply that comes first
      wins, otherwise a reply of GlobalDNS, otherwise the answer is SERVFAIL. */
  ghost predicate RaceRule(p: Policy, iranian: string -> bool, req: Request, trace: seq<Delivery>, resp: Msg) {
    && (forall i :: IranWinsAt(p, iranian, trace, i) ==> resp == trace[i].iran.value)
    && (!IranWins(p, iranian, trace) ==>
          && (forall i :: 0 <= i < |trace| && GoodGlobal(trace[i]) ==> resp == trace[i].global.value)
          && ((forall i :: 0 <= i < |trace| ==> !GoodGlobal(trace[i])) ==> resp == ServerFail(req)))
  }

  /** The rule for other queries: the first reply picked is the answer, unchecked; with none, and
      IranDNS's breaker closed, GlobalDNS is asked late. */
  ghost predicate PlainRule(p: Policy, req: Request, g: RaceInput, trace: seq<Delivery>, resp: Msg)
    requires req.questions != []
  {
    var late := QueryResult(p, req.questions[0], false, g.lateQuery);
    && (forall i :: 0 <= i < |trace| && trace[i].FromIran? && trace[i].iran.Some? ==> resp == trace[i].iran.value)
    && (forall i :: 0 <= i < |trace| && GoodGlobal(trace[i]) ==> resp == trace[i].global.value)
    && ((forall i :: 0 <= i < |trace| ==> !GoodGlobal(trace[i]) && !(trace[i].FromIran? && trace[i].iran.Some?)) ==>
          resp == if !g.iranOpen && ContextDone !in trace && late.Some? then late.value else ServerFail(req))
  }

  /** Each upstream delivers at most once, and what it delivers answers this very question. */
  ghost predicate WellFormed(q: Question, trace: seq<Delivery>) {
    && |trace| <= 3
    && (forall i, j :: 0 <= i < j < |trace| ==>
          !(trace[i].FromIran? && trace[j].FromIran?) && !(trace[i].FromGlobal? && trace[j].FromGlobal?))
    && (forall i :: 0 <= i < |trace| && trace[i].FromIran? && trace[i].iran.Some? ==>
          trace[i].iran.value.origin == Iran && trace[i].iran.value.question == q)
    && (forall i :: 0 <= i < |trace| && trace[i].FromGlobal? && trace[i].global.Some? ==>
          trace[i].global.value.origin == Global && trace[i].global.value.question == q)
  }

  /** GlobalDNS is asked at once for addresses, and for anything while IranDNS's breaker is open;
      its own breaker must be closed or grant a probe. */
  ghost predicate GlobalStarts(q: Question, g: RaceInput) {
    (IsAddressType(q.qtype) || g.iranOpen) && (g.globalOpen ==> g.globalProbe)
  }

  /** What the two queries of the race come to. */
  ghost function IranReply(p: Policy, q: Question, g: RaceInput): Option<Msg> {
    if !g.iranOpen && g.iranGate then QueryResult(p, q, true, g.iranQuery) else None
  }

  ghost function GlobalReply(p: Policy, q: Question, g: RaceInput): Option<Msg> {
    if GlobalStarts(q, g) then QueryResult(p, q, false, g.globalQuery) else None
  }

  /** Only queries that were started deliver, and they deliver what they came to. */
  ghost predicate Delivers(iranStarted: bool, globalStarted: bool, iran: Option<Msg>, global: Option<Msg>, trace: seq<Delivery>) {
    forall i :: 0 <= i < |trace| ==>
      && (trace[i].FromIran? ==> iranStarted && trace[i].iran == iran)
      && (trace[i].FromGlobal? ==> globalStarted && trace[i].global == global)
  }

  /** The select that decides: the first one, or the second one if the first had an empty reply. */
  ghost function Decisive(trace: seq<Delivery>): nat {
    if trace != [] && (trace[0] == FromIran(None) || trace[0] == FromGlobal(None)) then 1 else 0
  }

  /** What is waited for in addition, deaf to the context: GlobalDNS, after a reply of IranDNS
      that is not validated; IranDNS, to learn from, after a reply of GlobalDNS. */
  ghost predicate WaitsOn(p: Policy, iranian: string -> bool, iranOpen: bool, globalStarted: bool, d: Delivery) {
    || (d.FromIran? && d.iran.Some? && !GoodIran(p, iranian, d) && globalStarted)
    || (GoodGlobal(d) && !iranOpen)
  }

  /** No select of the learning path is skipped and none is added. */
  ghost predicate FullPlay(p: Policy, iranian: string -> bool, iranOpen: bool, globalStarted: bool, trace: seq<Delivery>) {
    var k := Decisive(trace);
    && k < |trace| && trace[0] != TimerFired
    && if WaitsOn(p, iranian, iranOpen, globalStarted, trace[k]) then |trace| == k + 2 && trace[k + 1] != ContextDone
       else |trace| == k + 1
  }

  /** What the learning path answers and teaches, given what its queries came to and what its
      selects picked. */
  ghost predicate RaceOutcome(p: Policy, iranian: string -> bool, req: Request, g: RaceInput,
                              before: seq<Witness>, after: seq<Witness>, trace: seq<Delivery>, resp: Msg)
    requires req.questions != []
  {
    var q := req.questions[0];
    && WellFormed(q, trace)
    && Delivers(!g.iranOpen, GlobalStarts(q, g), IranReply(p, q, g), GlobalReply(p, q, g), trace)
    && if IsAddressType(q.qtype) then
         && FullPlay(p, iranian, g.iranOpen, GlobalStarts(q, g), trace)
         && RaceRule(p, iranian, req, trace, resp) && Learned(p, iranian, q, before, after, trace)
       else
         |trace| == Decisive(trace) + 1 && trace[0] != TimerFired && PlainRule(p, req, g, trace, resp) && after == before
  }

  /** The first select picked `d`, or it picked nothing useful and the second one picked `d`. */
  ghost predicate Opening(q: Question, d: Delivery, again: bool, trace: seq<Delivery>) {
    && WellFormed(q, trace) && trace != [] && trace[0] != TimerFired
    && if again then
         && |trace| == 2 && trace[1] == d && (trace[0] == FromIran(None) || trace[0] == FromGlobal(None))
         && (d.FromIran? ==> trace[0].FromGlobal?) && (d.FromGlobal? ==> trace[0].FromIran?)
       else trace == [d] && d != FromIran(None) && d != FromGlobal(None)
  }

  // ----- What may be learned and what may be answered -----

  /** The evidence for one `store.Add`. */
  datatype Witness = Witness(name: string, question: Question, reply: Msg, ip: string)

  ghost predicate Convincing(p: Policy, iranian: string -> bool, w: Witness) {
    && w.name == Normalize(w.question.name) && IsAddressType(w.question.qtype)
    && w.reply.origin == Iran && w.reply.question == w.question
    && Lists(w.reply.answers, w.ip) && iranian(w.ip) && !HijackedRecord(p, w.reply.answers)
  }

  /** What every answer of the router satisfies. */
  ghost predicate Sound(p: Policy, q: Question, m: Msg) {
    && m.question == q
    && (m.origin == Iran && IsAddressType(q.qtype) ==> !HijackedRecord(p, m.answers))
    && (m.origin == Local ==> m.rcode == SERVFAIL)
  }

  /** When a request came in, when its context ends, and the configured timeouts. */
  datatype Clock = Clock(start: int, deadline: int, timeout: int, globalTimeout: int) {
    /** A quarter of the GlobalDNS timeout, or of the general one if that is not set, and at least
        a tenth of a second. */
    function ShortWait(): (w: int)
      ensures w >= 100_000_000 && (globalTimeout >= 400_000_000 ==> 4 * w <= globalTimeout < 4 * w + 4)
      ensures globalTimeout <= 0 && timeout >= 400_000_000 ==> 4 * w <= timeout < 4 * w + 4
      ensures 0 < globalTimeout < 400_000_000 || (globalTimeout <= 0 && timeout < 400_000_000) ==> w == 100_000_000
    {
      Max(100_000_000, if globalTimeout <= 0 then timeout / 4 else globalTimeout / 4)
    }

    /** The waits that do not listen to the request's context. */
    function Overrun(): int {
      Max(ShortWait(), globalTimeout)
    }

    /** How long one exchange of a query may take under a context that ends at `until`. */
    function ExchangeTimeout(toIran: bool, now: int, until: int): int {
      Min(if !toIran && globalTimeout > 0 then globalTimeout else timeout, until - now)
    }
  }

  /** What the gates say and what the queries of one learning race meet. */
  datatype RaceInput = RaceInput(
    iranOpen: bool, globalOpen: bool, globalProbe: bool,
    iranGate: bool, iranQuery: QueryPlan, globalQuery: QueryPlan, lateQuery: QueryPlan)

  /** What one call of `resolve` meets: whether the store knows the name, and the exchanges. */
  datatype ResolveInput = ResolveInput(
    inStore: bool, iranGate: bool, iranQuery: QueryPlan, globalQuery: QueryPlan, race: RaceInput)

  datatype Counters = Counters(
    total: nat, pathStatic: nat, cached: nat, miss: nat, flights: nat,
    tld: nat, prefer: nat, store: nat, learn: nat,
    retried: nat, servfail: nat, iran: nat, global: nat)

  /** The store was taught by this race exactly if a validated IranDNS reply was picked, and
      every lesson comes with convincing evidence for this very name. */
  ghost predicate Learned(p: Policy, iranian: string -> bool, q: Question,
                          before: seq<Witness>, after: seq<Witness>, trace: seq<Delivery>) {
    && before <= after
    && (forall i :: |before| <= i < |after| ==> Convincing(p, iranian, after[i]) && after[i].question == q)
    && (before < after <==> exists i :: 0 <= i < |trace| && GoodIran(p, iranian, trace[i]))
  }

  /** Every lesson comes with convincing evidence for this very name. */
  ghost predicate Taught(p: Policy, iranian: string -> bool, q: Question, before: seq<Witness>, after: seq<Witness>) {
    && before <= after
    && forall i :: |before| <= i < |after| ==> Convincing(p, iranian, after[i]) && after[i].question == q
  }

  /** The path a name takes, as its counter. */
  ghost function CountPath(p: Policy, name: string, inStore: bool, c: Counters): Counters {
    var n := Normalize(name);
    if Matches(p.iranTLDs, n) then c.(tld := c.tld + 1)
    else if Matches(p.preferIran, n) then c.(prefer := c.prefer + 1)
    else if inStore then c.(store := c.store + 1)
    else c.(learn := c.learn + 1)
  }

  /** IranDNS's reply may be returned: a success without hijacked addresses, and with an address
      where one is asked for. */
  ghost predicate Usable(p: Policy, iran: Option<Msg>, needAddress: bool) {
    && iran.Some? && iran.value.rcode == SUCCESS && !HijackedRecord(p, iran.value.answers)
    && (needAddress ==> HasAddressRecord(iran.value.answers))
  }

  /** Off the learning path, IranDNS answers if its reply is usable, otherwise GlobalDNS. */
  ghost function DirectAnswer(p: Policy, q: Question, iran: Option<Msg>, needAddress: bool, plan: QueryPlan): Option<Msg> {
    if Usable(p, iran, needAddress) then iran else QueryResult(p, q, false, plan)
  }

  ghost predicate InTLD(p: Policy, q: Question) {
    Matches(p.iranTLDs, Normalize(q.name))
  }

  ghost predicate Preferred(p: Policy, q: Question) {
    !InTLD(p, q) && Matches(p.preferIran, Normalize(q.name))
  }

  /** Every name takes a direct path but those that are new, or known to the store and denied by
      IranDNS. */
  ghost predicate DirectPath(p: Policy, q: Question, g: ResolveInput) {
    InTLD(p, q) || Preferred(p, q) || (g.inStore && !Denied(QueryResult(p, q, true, g.iranQuery)))
  }

  ghost predicate Denied(iran: Option<Msg>) {
    iran.Some? && iran.value.rcode == NXDOMAIN
  }

  /** IranDNS's reply behind its breaker's gate. */
  ghost function Gated(p: Policy, q: Question, g: ResolveInput): Option<Msg> {
    if g.iranGate then QueryResult(p, q, true, g.iranQuery) else None
  }

  /** Names in the store are asked past the breaker; the other direct paths respect its gate. */
  ghost function DirectRoute(p: Policy, q: Question, g: ResolveInput): Option<Msg> {
    if InTLD(p, q) then DirectAnswer(p, q, Gated(p, q, g), false, g.globalQuery)
    else if Preferred(p, q) then DirectAnswer(p, q, Gated(p, q, g), true, g.globalQuery)
    else DirectAnswer(p, q, QueryResult(p, q, true, g.iranQuery), false, g.globalQuery)
  }

  /** Off the learning path an answer of IranDNS is a success without hijacked addresses, and for
      preferred names it has an address. */
  ghost predicate DirectAnswerIsGood(p: Policy, q: Question, resp: Option<Msg>) {
    resp.Some? && resp.value.origin == Iran ==>
      && resp.value.rcode == SUCCESS && !HijackedRecord(p, resp.value.answers)
      && (Matches(p.preferIran, Normalize(q.name)) && !Matches(p.iranTLDs, Normalize(q.name)) ==>
            HasAddressRecord(resp.value.answers))
  }

  /** What the direct paths come to: if IranDNS was asked and its reply is a success without hijacked
      addresses, with an address for preferred names, then that; otherwise what GlobalDNS says. */
  lemma DirectRouteMeans(p: Policy, q: Question, g: ResolveInput)
    requires DirectPath(p, q, g)
    ensures var n := Normalize(q.name);
            var preferred := Matches(p.preferIran, n) && !Matches(p.iranTLDs, n);
            var shut := (Matches(p.iranTLDs, n) || Matches(p.preferIran, n)) && !g.iranGate;
            var iran, global := QueryResult(p, q, true, g.iranQuery), QueryResult(p, q, false, g.globalQuery);
            var good := && !shut && iran.Some? && iran.value.rcode == SUCCESS && !HijackedRecord(p, iran.value.answers)
                        && (preferred ==> HasAddressRecord(iran.value.answers));
            DirectRoute(p, q, g) == (if good then iran else global)
    ensures DirectAnswerIsGood(p, q, DirectRoute(p, q, g))
  {
    QueryAnswers(p, q, true, g.iranQuery);
    QueryAnswers(p, q, false, g.globalQuery);
  }

  /** One attempt adds one path and at most one routing decision. */
  ghost predicate AttemptCounts(b: Counters, a: Counters) {
    && a.tld + a.prefer + a.store + a.learn == b.tld + b.prefer + b.store + b.learn + 1
    && b.iran + b.global <= a.iran + a.global <= b.iran + b.global + 1
    && a.total == b.total && a.pathStatic == b.pathStatic && a.cached == b.cached && a.miss == b.miss
    && a.flights == b.flights && a.retried == b.retried && a.servfail == b.servfail
  }

  /** The path is counted that the name takes: an Iranian TLD before the preferred names, those
      before the store, the store before the learning path; and the upstream that answered. */
  lemma PathCounted(p: Policy, name: string, inStore: bool, b: Counters, resp: Option<Msg>)
    ensures var a := Credited(CountPath(p, name, inStore, b), resp);
            var tld, preferred := Matches(p.iranTLDs, Normalize(name)), Matches(p.preferIran, Normalize(name));
            && AttemptCounts(b, a)
            && a.tld - b.tld == (if tld then 1 else 0)
            && a.prefer - b.prefer == (if !tld && preferred then 1 else 0)
            && a.store - b.store == (if !tld && !preferred && inStore then 1 else 0)
            && a.learn - b.learn == (if !tld && !preferred && !inStore then 1 else 0)
            && a.iran - b.iran == (if resp.Some? && resp.value.origin == Iran then 1 else 0)
            && a.global - b.global == (if resp == None || resp.value.origin == Global then 1 else 0)
  {
  }

  /** What makes a flight try again. */
  predicate IsFailure(resp: Option<Msg>) {
    resp == None || resp.value.rcode == SERVFAIL
  }

  /** One flight counts itself, one path per attempt, and a failure only after a retry. */
  ghost predicate FlightCounts(b: Counters, a: Counters, resp: Msg) {
    && a.flights == b.flights + 1
    && b.retried <= a.retried <= b.retried + 1
    && a.tld + a.prefer + a.store + a.learn == b.tld + b.prefer + b.store + b.learn + 1 + (a.retried - b.retried)
    && a.servfail == b.servfail + (if resp.rcode == SERVFAIL then 1 else 0)
    && a.servfail - b.servfail <= a.retried - b.retried
    && b.iran + b.global <= a.iran + a.global <= b.iran + b.global + 1 + (a.retried - b.retried)
    && a.total == b.total && a.pathStatic == b.pathStatic && a.cached == b.cached && a.miss == b.miss
  }

  lemma IranDecides(p: Policy, iranian: string -> bool, req: Request, trace: seq<Delivery>, adds: seq<Witness>, w: Witness)
    requires trace != [] && trace[|trace| - 1] == FromIran(Some(w.reply)) && Convincing(p, iranian, w)
    requires req.questions != [] && w.question == req.questions[0]
    requires forall i :: 0 <= i < |trace| - 1 ==> !GoodGlobal(trace[i]) && !trace[i].FromIran?
    ensures RaceRule(p, iranian, req, trace, w.reply)
    ensures Learned(p, iranian, req.questions[0], adds, adds + [w], trace)
  {
    assert GoodIran(p, iranian, trace[|trace| - 1]);
    assert IranWinsAt(p, iranian, trace, |trace| - 1);
  }

  lemma NobodyTeaches(p: Policy, iranian: string -> bool, req: Request, trace: seq<Delivery>, adds: seq<Witness>, resp: Msg)
    requires req.questions != []
    requires forall i :: 0 <= i < |trace| ==> !GoodIran(p, iranian, trace[i])
    requires forall i :: 0 <= i < |trace| && GoodGlobal(trace[i]) ==> resp == trace[i].global.value
    requires (forall i :: 0 <= i < |trace| ==> !GoodGlobal(trace[i])) ==> resp == ServerFail(req)
    ensures RaceRule(p, iranian, req, trace, resp)
    ensures Learned(p, iranian, req.questions[0], adds, adds, trace)
  {
  }

  lemma GlobalDecides(p: Policy, iranian: string -> bool, req: Request, trace: seq<Delivery>, adds: seq<Witness>, g: Msg)
    requires req.questions != [] && trace != [] && trace[|trace| - 1] == FromGlobal(Some(g))
    requires forall i :: 0 <= i < |trace| - 1 ==> !GoodIran(p, iranian, trace[i]) && !trace[i].FromGlobal?
    ensures RaceRule(p, iranian, req, trace, g)
    ensures Learned(p, iranian, req.questions[0], adds, adds, trace)
  {
    assert GoodGlobal(trace[|trace| - 1]);
    NobodyTeaches(p, iranian, req, trace, adds, g);
  }

  /** What comes after a reply of GlobalDNS cannot change the answer any more. */
  lemma LaterDelivery(p: Policy, iranian: string -> bool, req: Request, before: seq<Delivery>, d: Delivery, g: Msg,
                      adds: seq<Witness>, adds': seq<Witness>)
    requires req.questions != [] && before != [] && before[|before| - 1] == FromGlobal(Some(g))
    requires forall i :: 0 <= i < |before| - 1 ==> !GoodIran(p, iranian, before[i]) && !before[i].FromGlobal?
    requires !d.FromGlobal? && adds <= adds' && (adds < adds' <==> GoodIran(p, iranian, d))
    requires forall i :: |adds| <= i < |adds'| ==> Convincing(p, iranian, adds'[i]) && adds'[i].question == req.questions[0]
    ensures RaceRule(p, iranian, req, before + [d], g)
    ensures Learned(p, iranian, req.questions[0], adds, adds', before + [d])
  {
    var trace := before + [d];
    assert GoodGlobal(trace[|before| - 1]);
    assert trace[|before|] == d;
    assert forall i :: 0 <= i < |before| ==> trace[i] == before[i];
  }

  lemma DeliversMore(iranStarted: bool, globalStarted: bool, iran: Option<Msg>, global: Option<Msg>,
                     before: seq<Delivery>, more: seq<Delivery>)
    requires Delivers(iranStarted, globalStarted, iran, global, before)
    requires Delivers(iranStarted, globalStarted, iran, global, more)
    ensures Delivers(iranStarted, globalStarted, iran, global, before + more)
  {
  }

  lemma PlayIsFull(p: Policy, iranian: string -> bool, q: Question, iranOpen: bool, globalStarted: bool,
                   d: Delivery, again: bool, before: seq<Delivery>, trace: seq<Delivery>)
    requires Opening(q, d, again, before)
    requires if WaitsOn(p, iranian, iranOpen, globalStarted, d)
             then before <= trace && |trace| == |before| + 1 && trace[|before|] != ContextDone
             else trace == before
    ensures FullPlay(p, iranian, iranOpen, globalStarted, trace)
  {
    assert trace[0] == before[0] && trace[|before| - 1] == d;
  }

  /** Whatever the race answers is sound. */
  lemma RaceIsSound(p: Policy, iranian: string -> bool, req: Request, trace: seq<Delivery>, resp: Msg)
    requires req.questions != [] && WellFormed(req.questions[0], trace) && RaceRule(p, iranian, req, trace, resp)
    ensures Sound(p, req.questions[0], resp)
  {
    if i :| IranWinsAt(p, iranian, trace, i) {
    } else if i :| 0 <= i < |trace| && GoodGlobal(trace[i]) {
    }
  }

  /** Where no timer fires and the context is not done, the race comes to the best there is: a
      validated reply of IranDNS or a reply of GlobalDNS, whichever came first if there are both;
      SERVFAIL only if there is neither; and a validated reply is always learned from. */
  lemma WithoutTimeouts(p: Policy, iranian: string -> bool, req: Request, g: RaceInput,
                        before: seq<Witness>, after: seq<Witness>, trace: seq<Delivery>, resp: Msg)
    requires req.questions != [] && IsAddressType(req.questions[0].qtype)
    requires RaceOutcome(p, iranian, req, g, before, after, trace, resp) && TimerFired !in trace && ContextDone !in trace
    ensures var q := req.questions[0];
            var iran, global := IranReply(p, q, g), GlobalReply(p, q, g);
            var valid := iran.Some? && Validated(p, iranian, iran.value);
            && (valid && global == None ==> Some(resp) == iran)
            && (!valid && global.Some? ==> Some(resp) == global)
            && (valid && global.Some? ==> Some(resp) == iran || Some(resp) == global)
            && (!valid && global == None ==> resp.rcode == SERVFAIL && resp.origin == Local)
            && (valid ==> before < after)
  {
    var k := Decisive(trace);
    assert trace[0] in trace && trace[k] in trace && (|trace| > k + 1 ==> trace[k + 1] in trace);
    if GoodIran(p, iranian, trace[k]) {
      assert IranWinsAt(p, iranian, trace, k);
    }
  }

  /** Where the context is not done, any other query gets IranDNS's reply if its breaker is closed and
      it replies, what GlobalDNS says late if it does not, what GlobalDNS says at once if the
      breaker is open, and SERVFAIL only if there is none of these. */
  lemma PlainOutcome(p: Policy, iranian: string -> bool, req: Request, g: RaceInput,
                     before: seq<Witness>, after: seq<Witness>, trace: seq<Delivery>, resp: Msg)
    requires req.questions != [] && !IsAddressType(req.questions[0].qtype)
    requires RaceOutcome(p, iranian, req, g, before, after, trace, resp)
    requires ContextDone !in trace && (g.iranOpen ==> TimerFired !in trace)
    ensures var q := req.questions[0];
            var iran := if g.iranGate then QueryResult(p, q, true, g.iranQuery) else None;
            var late := QueryResult(p, q, false, g.lateQuery);
            var global := if g.globalOpen && !g.globalProbe then None else QueryResult(p, q, false, g.globalQuery);
            && (!g.iranOpen && iran.Some? ==> Some(resp) == iran)
            && (!g.iranOpen && iran == None && late.Some? ==> Some(resp) == late)
            && (g.iranOpen && global.Some? ==> Some(resp) == global)
            && ((if g.iranOpen then global == None else iran == None && late == None) ==>
                  resp.rcode == SERVFAIL && resp.origin == Local)
  {
    assert trace[0] in trace && trace[|trace| - 1] in trace;
  }

  /** The upstream that made the answer is credited. A failure made by the race itself credits
      nobody; a direct path that ends without a reply has already credited GlobalDNS. */
  ghost function Credited(c: Counters, resp: Option<Msg>): Counters {
    if resp.Some? && resp.value.origin == Iran then c.(iran := c.iran + 1)
    else if resp.Some? && resp.value.origin == Local then c
    else c.(global := c.global + 1)
  }
}
