/** Routing one query: the upstream exchanges, the two-upstream race of the learning path, and
    the four decision paths. What the network, the timers, the breakers' gates and the store
    answer is input, so every contract holds for every schedule and every interleaving with
    other queries. Times are integers (nanoseconds). */
module Routing {
  import opened Prelude
  import opened Names
  import opened Dns
  import opened RoutingRules

  datatype Sel = IranReady | GlobalReady | TimerReady | ContextReady

  /** Picks any alternative that can become ready, no later than the timer or the context allow.
      Without one of those two the program could block for ever; the precondition rules that out. */
  method Select(iran: bool, global: bool, timer: bool, context: bool, ghost now: int, ghost wait: int, ghost until: int)
    returns (s: Sel, ghost at: int)
    requires timer || context
    ensures s == IranReady ==> iran
    ensures s == GlobalReady ==> global
    ensures s == TimerReady ==> timer
    ensures s == ContextReady ==> context
    ensures now <= at && (timer ==> at <= now + Max(0, wait)) && (context ==> at <= Max(now, until))
  {
    s :| && (s == IranReady ==> iran) && (s == GlobalReady ==> global)
         && (s == TimerReady ==> timer) && (s == ContextReady ==> context);
    at :| now <= at && (timer ==> at <= now + Max(0, wait)) && (context ==> at <= Max(now, until));
  }

  class Router {
    const policy: Policy
    var count: Counters
    var queryCalls: nat
    var globalCalls: nat  // those to GlobalDNS
    var exchanges: nat
    var reports: seq<Report>
    var adds: seq<Witness>
    var removes: seq<string>

    constructor (policy: Policy)
      ensures this.policy == policy && adds == [] && removes == [] && reports == [] && queryCalls == globalCalls == exchanges == 0
      ensures count == Counters(0, 0, 0, 0, 0, 0, 0, 0, 0, 0, 0, 0, 0)
    {
      this.policy := policy;
      count := Counters(0, 0, 0, 0, 0, 0, 0, 0, 0, 0, 0, 0, 0);
      queryCalls, globalCalls, exchanges := 0, 0, 0;
      adds, removes, reports := [], [], [];
    }

    /** One query to one upstream takes at most two exchanges; its answer, if any, is the reply
        of one of them, the second one taking over after a failure or a truncated reply; the
        upstream's breaker is told once, or not at all without time; and as every exchange respects
        its timeout and the context, the query ends with the context or within two timeouts. */
    method Query(q: Question, toIran: bool, plan: QueryPlan, ghost c: Clock, ghost now: int, ghost until: int)
      returns (resp: Option<Msg>, ghost end: int)
      modifies this`queryCalls, this`globalCalls, this`exchanges, this`reports
      ensures queryCalls == old(queryCalls) + 1 && old(exchanges) <= exchanges <= old(exchanges) + 2
      ensures globalCalls == old(globalCalls) + if toIran then 0 else 1
      ensures exchanges - old(exchanges) ==
                if plan == NoTime then 0
                else if plan.first == Failed then (if !toIran && policy.hasFallback then 2 else 1)
                else if plan.first.truncated then 2 else 1
      ensures resp == QueryResult(policy, q, toIran, plan)
      ensures resp == None <==>
                plan == NoTime || (plan.first == Failed && (toIran || !policy.hasFallback || plan.second == Failed))
      ensures resp.Some? ==> resp.value.question == q && resp.value.origin == if toIran then Iran else Global
      ensures resp.Some? ==>
                if plan.first.Replied? && (!plan.first.truncated || plan.second == Failed) then Brought(plan.first, resp.value)
                else Brought(plan.second, resp.value)
      ensures resp.Some? && resp.value.truncated ==> plan.second == Failed || plan.second.truncated
      ensures plan == NoTime ==> reports == old(reports)
      ensures plan != NoTime ==> reports == old(reports) + [Report(toIran, plan.first != Failed)]
      ensures now <= end <= Max(now, until)
      ensures end <= now + 2 * Max(0, if !toIran && c.globalTimeout > 0 then c.globalTimeout else c.timeout)
    {
      queryCalls := queryCalls + 1;
      globalCalls := if toIran then globalCalls else globalCalls + 1;
      end := now;
      if plan == NoTime {
        return None, end;
      }
      var origin := if toIran then Iran else Global;
      ghost var timeout := Max(0, c.ExchangeTimeout(toIran, now, until));
      exchanges := exchanges + 1;
      end :| now <= end <= now + timeout;
      assert now + timeout <= Max(now, until);
      ghost var limit := Max(end, Min(end + timeout, until));
      ghost var over :| end <= over <= limit;
      reports := reports + [Report(toIran, plan.first.Replied?)];
      if plan.first == Failed {
        if !toIran && policy.hasFallback {
          exchanges := exchanges + 1;
          end := over;
          if plan.second.Replied? {
            return Some(Reply(plan.second, q, origin)), end;
          }
        }
        return None, end;
      }
      if plan.first.truncated {
        exchanges := exchanges + 1;
        end := over;
        if plan.second.Replied? {
          return Some(Reply(plan.second, q, origin)), end;
        }
      }
      resp := Some(Reply(plan.first, q, origin));
    }

    /** A query to IranDNS behind its breaker's gate. */
    method QueryIranDNS(q: Question, gate: bool, plan: QueryPlan, ghost c: Clock, ghost now: int, ghost until: int)
      returns (resp: Option<Msg>, ghost end: int)
      modifies this`queryCalls, this`globalCalls, this`exchanges, this`reports
      ensures queryCalls <= old(queryCalls) + 1 && old(exchanges) <= exchanges <= old(exchanges) + 2
      ensures !gate ==> queryCalls == old(queryCalls)
      ensures globalCalls == old(globalCalls)
      ensures resp == if gate then QueryResult(policy, q, true, plan) else None
      ensures reports == old(reports) + if gate && plan != NoTime then [Report(true, plan.first != Failed)] else []
      ensures now <= end <= Max(now, until)
    {
      if !gate {
        return None, now;
      }
      resp, end := Query(q, true, plan, c, now, until);
    }

    /** Looks for an Iranian address in an unhijacked reply, as the learning path does. */
    method FirstIranian(m: Msg, iranian: string -> bool) returns (ip: Option<string>)
      ensures ip.Some? <==> Validated(policy, iranian, m)
      ensures ip.Some? ==> Lists(m.answers, ip.value) && iranian(ip.value)
    {
      var ips, at := ExtractIPs(m.answers);
      var hijacked := IsHijacked(policy, ips);
      RecordsSpeak(policy, m.answers);
      if |ips| > 0 && !hijacked {
        for i := 0 to |ips|
          invariant forall j :: 0 <= j < i ==> !iranian(ips[j])
        {
          if iranian(ips[i]) {
            return Some(ips[i]);
          }
        }
      }
      ip := None;
    }

    /** The race after IranDNS delivered first. */
    method AfterIran(req: Request, iranian: string -> bool, m: Msg, globalStarted: bool, globalPending: bool,
                     globalReply: Option<Msg>, ghost shortWait: int, ghost before: seq<Delivery>, ghost now: int)
      returns (resp: Msg, ghost trace: seq<Delivery>, ghost end: int)
      requires req.questions != [] && IsAddressType(req.questions[0].qtype) && 0 <= shortWait
      requires 1 <= |before| <= 2 && before[|before| - 1] == FromIran(Some(m)) && WellFormed(req.questions[0], before)
      requires forall i :: 0 <= i < |before| - 1 ==> !GoodGlobal(before[i]) && !before[i].FromIran?
      requires globalPending ==> forall i :: 0 <= i < |before| ==> !before[i].FromGlobal?
      requires globalReply.Some? ==> globalReply.value.question == req.questions[0] && globalReply.value.origin == Global
      modifies this`adds, this`count
      ensures WellFormed(req.questions[0], trace)
      ensures if globalStarted && !Validated(policy, iranian, m)
              then trace == before + [TimerFired] || (globalPending && trace == before + [FromGlobal(globalReply)])
              else trace == before
      ensures RaceRule(policy, iranian, req, trace, resp)
      ensures Learned(policy, iranian, req.questions[0], old(adds), adds, trace)
      ensures count == Credited(old(count), Some(resp))
      ensures now <= end <= now + shortWait
    {
      trace, end := before, now;
      var ip := FirstIranian(m, iranian);
      if ip.Some? {
        ghost var w := Witness(Normalize(req.questions[0].name), req.questions[0], m, ip.value);
        assert before[|before| - 1].iran.value == m;
        IranDecides(policy, iranian, req, before, adds, w);
        adds := adds + [Witness(Normalize(req.questions[0].name), req.questions[0], m, ip.value)];
        count := count.(iran := count.iran + 1);
        return m, trace, end;
      }
      var globalMsg := None;
      if globalStarted {
        var s;
        s, end := Select(false, globalPending, true, false, now, shortWait, now);
        if s == GlobalReady {
          globalMsg := globalReply;
          trace := trace + [FromGlobal(globalReply)];
        } else {
          trace := trace + [TimerFired];
        }
      }
      if globalMsg.Some? {
        assert GoodGlobal(trace[|before|]);
        count := count.(global := count.global + 1);
        resp := globalMsg.value;
      } else {
        resp := ServerFail(req);
      }
      NobodyTeaches(policy, iranian, req, trace, adds, resp);
    }

    /** The race after GlobalDNS delivered first: its reply is the answer, and a short wait gives
        IranDNS the chance to teach the store. */
    method AfterGlobal(req: Request, iranian: string -> bool, g: Msg, iranOpen: bool, iranPending: bool,
                       iranReply: Option<Msg>, ghost shortWait: int, ghost before: seq<Delivery>, ghost now: int)
      returns (resp: Msg, ghost trace: seq<Delivery>, ghost end: int)
      requires req.questions != [] && IsAddressType(req.questions[0].qtype) && 0 <= shortWait
      requires 1 <= |before| <= 2 && before[|before| - 1] == FromGlobal(Some(g)) && WellFormed(req.questions[0], before)
      requires forall i :: 0 <= i < |before| - 1 ==> !GoodIran(policy, iranian, before[i]) && !before[i].FromGlobal?
      requires iranPending ==> forall i :: 0 <= i < |before| ==> !before[i].FromIran?
      requires iranReply.Some? ==> iranReply.value.question == req.questions[0] && iranReply.value.origin == Iran
      modifies this`adds, this`count
      ensures WellFormed(req.questions[0], trace)
      ensures if iranOpen then trace == before
              else trace == before + [TimerFired] || (iranPending && trace == before + [FromIran(iranReply)])
      ensures RaceRule(policy, iranian, req, trace, resp)
      ensures Learned(policy, iranian, req.questions[0], old(adds), adds, trace)
      ensures count == Credited(old(count), Some(resp))
      ensures now <= end <= now + shortWait
    {
      trace, end := before, now;
      GlobalDecides(policy, iranian, req, before, adds, g);
      if !iranOpen {
        var s;
        s, end := Select(iranPending, false, true, false, now, shortWait, now);
        if s == IranReady {
          trace := trace + [FromIran(iranReply)];
          if iranReply.Some? {
            var ip := FirstIranian(iranReply.value, iranian);
            if ip.Some? {
              LearnAll(req.questions[0], iranReply.value, iranian);
              assert GoodIran(policy, iranian, trace[|before|]);
            }
          }
        } else {
          trace := trace + [TimerFired];
        }
        LaterDelivery(policy, iranian, req, before, trace[|before|], g, old(adds), adds);
      }
      count := count.(global := count.global + 1);
      resp := g;
    }

    /** A `select` that also listens to the context. */
    method Await(iranPending: bool, globalPending: bool, timer: bool, iranReply: Option<Msg>, globalReply: Option<Msg>,
                 ghost c: Clock, ghost now: int)
      returns (d: Delivery, ghost at: int)
      ensures d.FromIran? ==> iranPending && d.iran == iranReply
      ensures d.FromGlobal? ==> globalPending && d.global == globalReply
      ensures d.TimerFired? ==> timer
      ensures now <= at <= Max(now, c.deadline)
    {
      var s;
      s, at := Select(iranPending, globalPending, timer, true, now, c.ShortWait(), c.deadline);
      match s {
        case IranReady => d := FromIran(iranReply);
        case GlobalReady => d := FromGlobal(globalReply);
        case TimerReady => d := TimerFired;
        case ContextReady => d := ContextDone;
      }
    }

    /** Starts the queries that the gates allow. */
    method StartRace(q: Question, g: RaceInput, ghost c: Clock)
      returns (needGlobal: bool, globalStarted: bool, iranReply: Option<Msg>, globalReply: Option<Msg>)
      modifies this`queryCalls, this`globalCalls, this`exchanges, this`reports
      ensures needGlobal <==> IsAddressType(q.qtype) || g.iranOpen
      ensures globalStarted <==> GlobalStarts(q, g)
      ensures globalCalls - old(globalCalls) ==
                if (IsAddressType(q.qtype) || g.iranOpen) && (!g.globalOpen || g.globalProbe) then 1 else 0
      ensures iranReply == IranReply(policy, q, g) && globalReply == GlobalReply(policy, q, g)
      ensures queryCalls - old(queryCalls) <= if needGlobal then 2 else 1
      ensures exchanges - old(exchanges) <= if needGlobal then 4 else 2
    {
      needGlobal := IsAddressType(q.qtype) || g.iranOpen;
      globalStarted := needGlobal;
      if needGlobal && g.globalOpen && !g.globalProbe {
        globalStarted := false;
      }
      iranReply, globalReply := None, None;
      ghost var end;
      if globalStarted {
        globalReply, end := Query(q, false, g.globalQuery, c, c.start, c.deadline);
      }
      if !g.iranOpen {
        iranReply, end := QueryIranDNS(q, g.iranGate, g.iranQuery, c, c.start, c.deadline);
      }
    }

    /** The first select, and the second one if the first delivered nothing useful. */
    method FirstRounds(q: Question, iranStarted: bool, globalStarted: bool, iranReply: Option<Msg>, globalReply: Option<Msg>,
                       ghost c: Clock)
      returns (d: Delivery, again: bool, ghost trace: seq<Delivery>, ghost end: int)
      requires iranReply.Some? ==> iranReply.value.question == q && iranReply.value.origin == Iran
      requires globalReply.Some? ==> globalReply.value.question == q && globalReply.value.origin == Global
      ensures Opening(q, d, again, trace)
      ensures Delivers(iranStarted, globalStarted, iranReply, globalReply, trace)
      ensures c.start <= end <= Max(c.start, c.deadline)
    {
      d, end := Await(iranStarted, globalStarted, false, iranReply, globalReply, c, c.start);
      trace := [d];
      again := d == FromIran(None) || d == FromGlobal(None);
      if again {
        d, end := Await(iranStarted && !d.FromIran?, globalStarted && !d.FromGlobal?, true, iranReply, globalReply, c, end);
        trace := trace + [d];
      }
    }

    /** The learning path. For address queries the answer follows the rule of the race and the
        store learns exactly from validated replies; at most two queries are made, and it ends
        by the deadline plus one wait that does not listen to the context. */
    method ResolveWithLearning(req: Request, iranian: string -> bool, g: RaceInput, ghost c: Clock)
      returns (resp: Msg, ghost trace: seq<Delivery>, ghost end: int)
      requires req.questions != []
      modifies this`count, this`queryCalls, this`globalCalls, this`exchanges, this`reports, this`adds
      ensures Sound(policy, req.questions[0], resp)
      ensures RaceOutcome(policy, iranian, req, g, old(adds), adds, trace, resp)
      ensures (IsAddressType(req.questions[0].qtype) || g.iranOpen) && g.globalOpen && !g.globalProbe ==>
                globalCalls == old(globalCalls) && resp.origin != Global
      ensures count == Credited(old(count), Some(resp))
      ensures queryCalls <= old(queryCalls) + 2 && exchanges <= old(exchanges) + 4
      ensures c.start <= end <= Max(c.start, c.deadline) + c.Overrun()
    {
      var q := req.questions[0];
      var needGlobal, globalStarted, iranReply, globalReply := StartRace(q, g, c);
      var d, again;
      d, again, trace, end := FirstRounds(q, !g.iranOpen, globalStarted, iranReply, globalReply, c);
      if IsAddressType(q.qtype) {
        resp, trace, end := AddressRace(req, iranian, g.iranOpen, globalStarted, d, again, iranReply, globalReply, c, trace, end);
      } else {
        resp, end := PlainRace(req, g, needGlobal, d, again, c, trace, end);
      }
    }

    /** The rest of the race for an address query. */
    method AddressRace(req: Request, iranian: string -> bool, iranOpen: bool, globalStarted: bool, d: Delivery, again: bool,
                       iranReply: Option<Msg>, globalReply: Option<Msg>,
                       ghost c: Clock, ghost before: seq<Delivery>, ghost now: int)
      returns (resp: Msg, ghost trace: seq<Delivery>, ghost end: int)
      requires req.questions != [] && IsAddressType(req.questions[0].qtype)
      requires Opening(req.questions[0], d, again, before)
      requires Delivers(!iranOpen, globalStarted, iranReply, globalReply, before)
      requires iranReply.Some? ==> iranReply.value.question == req.questions[0] && iranReply.value.origin == Iran
      requires globalReply.Some? ==> globalReply.value.question == req.questions[0] && globalReply.value.origin == Global
      modifies this`adds, this`count
      ensures WellFormed(req.questions[0], trace) && Sound(policy, req.questions[0], resp)
      ensures Delivers(!iranOpen, globalStarted, iranReply, globalReply, trace)
      ensures FullPlay(policy, iranian, iranOpen, globalStarted, trace)
      ensures RaceRule(policy, iranian, req, trace, resp)
      ensures Learned(policy, iranian, req.questions[0], old(adds), adds, trace)
      ensures count == Credited(old(count), Some(resp))
      ensures now <= end <= now + c.Overrun()
    {
      trace, end := before, now;
      if d.FromIran? && d.iran.Some? {
        resp, trace, end := AfterIran(req, iranian, d.iran.value, globalStarted, globalStarted && !again,
                                      globalReply, c.ShortWait(), before, now);
      } else if d.FromGlobal? && d.global.Some? {
        resp, trace, end := AfterGlobal(req, iranian, d.global.value, iranOpen, !iranOpen && !again,
                                        iranReply, c.ShortWait(), before, now);
      } else {
        NobodyTeaches(policy, iranian, req, trace, adds, ServerFail(req));
        resp := ServerFail(req);
      }
      ghost var more := trace[|before|..];
      DeliversMore(!iranOpen, globalStarted, iranReply, globalReply, before, more);
      PlayIsFull(policy, iranian, req.questions[0], iranOpen, globalStarted, d, again, before, trace);
      RaceIsSound(policy, iranian, req, trace, resp);
    }

    /** The rest of the race for any other query: no reply is checked. */
    method PlainRace(req: Request, g: RaceInput, needGlobal: bool, d: Delivery, again: bool,
                     ghost c: Clock, ghost trace: seq<Delivery>, ghost now: int)
      returns (resp: Msg, ghost end: int)
      requires req.questions != [] && !IsAddressType(req.questions[0].qtype)
      requires Opening(req.questions[0], d, again, trace) && needGlobal == g.iranOpen
      modifies this`queryCalls, this`globalCalls, this`exchanges, this`reports, this`count
      ensures Sound(policy, req.questions[0], resp) && PlainRule(policy, req, g, trace, resp)
      ensures count == Credited(old(count), Some(resp))
      ensures queryCalls - old(queryCalls) <= if needGlobal then 0 else 1
      ensures needGlobal ==> globalCalls == old(globalCalls)
      ensures exchanges - old(exchanges) <= if needGlobal then 0 else 2
      ensures now <= end <= now + c.Overrun()
    {
      end := now;
      assert trace[|trace| - 1] == d && (again ==> trace[0] != ContextDone);
      if d.FromIran? && d.iran.Some? {
        count := count.(iran := count.iran + 1);
        resp := d.iran.value;
      } else if d.FromGlobal? && d.global.Some? {
        count := count.(global := count.global + 1);
        resp := d.global.value;
      } else if d != ContextDone && !needGlobal {
        resp, end := LateQuery(req, g.lateQuery, c, now);
      } else {
        resp := ServerFail(req);
      }
    }

    /** Non-address queries ask GlobalDNS only when IranDNS had nothing, under a fresh context. */
    method LateQuery(req: Request, plan: QueryPlan, ghost c: Clock, ghost now: int)
      returns (resp: Msg, ghost end: int)
      requires req.questions != []
      modifies this`queryCalls, this`globalCalls, this`exchanges, this`reports, this`count
      ensures Sound(policy, req.questions[0], resp) && count == Credited(old(count), Some(resp))
      ensures var late := QueryResult(policy, req.questions[0], false, plan);
              resp == if late.Some? then late.value else ServerFail(req)
      ensures queryCalls == old(queryCalls) + 1 && exchanges <= old(exchanges) + 2
      ensures now <= end <= now + Max(0, c.globalTimeout)
    {
      var late;
      late, end := Query(req.questions[0], false, plan, c, now, now + c.globalTimeout);
      if late == None {
        return ServerFail(req), end;
      }
      count := count.(global := count.global + 1);
      resp := late.value;
    }

    /** IranDNS's reply if it is a success with no hijacked address; the preferred names also
        ask for an address. Everything else is GlobalDNS's to answer. */
    method IranUnlessHijacked(q: Question, iran: Option<Msg>, needAddress: bool, plan: QueryPlan, ghost c: Clock, ghost now: int)
      returns (resp: Option<Msg>, ghost end: int)
      requires iran.Some? ==> iran.value.question == q && iran.value.origin == Iran
      modifies this`queryCalls, this`globalCalls, this`exchanges, this`reports, this`count
      ensures resp == DirectAnswer(policy, q, iran, needAddress, plan)
      ensures resp.Some? && resp.value.origin == Iran ==>
                && resp.value.rcode == SUCCESS && !HijackedRecord(policy, resp.value.answers)
                && (needAddress ==> HasAddressRecord(resp.value.answers))
      ensures globalCalls == old(globalCalls) ==> resp == iran
      ensures && iran.Some? && iran.value.rcode == SUCCESS && !HijackedRecord(policy, iran.value.answers)
              && (needAddress ==> HasAddressRecord(iran.value.answers)) ==>
                resp == iran && globalCalls == old(globalCalls)
      ensures resp.Some? ==> Sound(policy, q, resp.value)
      ensures queryCalls <= old(queryCalls) + 1 && exchanges <= old(exchanges) + 2
      ensures count == Credited(old(count), resp)
      ensures now <= end <= Max(now, c.deadline)
    {
      if iran.Some? && iran.value.rcode == SUCCESS {
        var ips, at := ExtractIPs(iran.value.answers);
        var hijacked := IsHijacked(policy, ips);
        RecordsSpeak(policy, iran.value.answers);
        if (if needAddress then |ips| > 0 && !hijacked else !(|ips| > 0 && hijacked)) {
          count := count.(iran := count.iran + 1);
          return iran, now;
        }
      }
      count := count.(global := count.global + 1);
      resp, end := Query(q, false, plan, c, now, c.deadline);
    }

    /** The direct path of Iranian TLDs and preferred names. */
    method AskIranFirst(q: Question, g: ResolveInput, needAddress: bool, ghost c: Clock)
      returns (resp: Option<Msg>, ghost end: int)
      modifies this`queryCalls, this`globalCalls, this`exchanges, this`reports, this`count
      ensures resp == DirectAnswer(policy, q, Gated(policy, q, g), needAddress, g.globalQuery)
      ensures Usable(policy, Gated(policy, q, g), needAddress) ==> globalCalls == old(globalCalls)
      ensures resp.Some? ==> Sound(policy, q, resp.value)
      ensures count == Credited(old(count), resp)
      ensures queryCalls <= old(queryCalls) + 2 && exchanges <= old(exchanges) + 4
      ensures c.start <= end <= Max(c.start, c.deadline)
    {
      var iran;
      iran, end := QueryIranDNS(q, g.iranGate, g.iranQuery, c, c.start, c.deadline);
      resp, end := IranUnlessHijacked(q, iran, needAddress, g.globalQuery, c, end);
    }

    /** The three direct paths in their order, each counted; a name that is new, or that the store
        knows and IranDNS denies, is left to the learning path. */
    method TryDirectPaths(q: Question, g: ResolveInput, ghost c: Clock)
      returns (done: bool, resp: Option<Msg>, ghost end: int)
      modifies this`queryCalls, this`globalCalls, this`exchanges, this`reports, this`count, this`removes
      ensures done <==> DirectPath(policy, q, g)
      ensures done ==> resp == DirectRoute(policy, q, g) && (resp.Some? ==> Sound(policy, q, resp.value))
      ensures done ==> DirectAnswerIsGood(policy, q, resp)
      ensures done && resp.Some? && resp.value.origin == Iran ==> globalCalls == old(globalCalls)
      ensures var counted := CountPath(policy, q.name, g.inStore, old(count));
              count == if done then Credited(counted, resp) else counted
      ensures var n, iran := Normalize(q.name), QueryResult(policy, q, true, g.iranQuery);
              var denied := && !Matches(policy.iranTLDs, n) && !Matches(policy.preferIran, n)
                            && g.inStore && iran.Some? && iran.value.rcode == NXDOMAIN;
              removes == old(removes) + if denied then [q.name] else []
      ensures queryCalls - old(queryCalls) <= if done then 2 else 1
      ensures exchanges - old(exchanges) <= if done then 4 else 2
      ensures c.start <= end <= Max(c.start, c.deadline)
    {
      done, resp, end := true, None, c.start;
      if DirectPath(policy, q, g) {
        DirectRouteMeans(policy, q, g);
      }
      var isTLD := SuffixWalk(policy.iranTLDs, q.name);
      if isTLD {
        count := count.(tld := count.tld + 1);
        resp, end := AskIranFirst(q, g, false, c);
        return;
      }
      var preferred := SuffixWalk(policy.preferIran, q.name);
      if preferred {
        count := count.(prefer := count.prefer + 1);
        resp, end := AskIranFirst(q, g, true, c);
        return;
      }
      if !g.inStore {
        count := count.(learn := count.learn + 1);
        return false, None, end;
      }
      count := count.(store := count.store + 1);
      var iran;
      iran, end := Query(q, true, g.iranQuery, c, end, c.deadline);
      if iran.Some? && iran.value.rcode == NXDOMAIN {
        removes := removes + [q.name];
        return false, None, end;
      }
      resp, end := IranUnlessHijacked(q, iran, false, g.globalQuery, c, end);
    }

    /** One attempt at a query: exactly one of the four paths is counted, chosen by the name alone
        and the store; the answer is the one the path prescribes, and sound; the upstream that
        made it is credited; there are at most three queries, and it ends by the deadline plus
        one deaf wait. */
    method ResolveOnce(req: Request, iranian: string -> bool, g: ResolveInput, ghost c: Clock)
      returns (resp: Option<Msg>, ghost trace: seq<Delivery>, ghost end: int)
      requires req.questions != []
      modifies this
      ensures resp.Some? ==> Sound(policy, req.questions[0], resp.value)
      ensures DirectPath(policy, req.questions[0], g) ==>
                && resp == DirectRoute(policy, req.questions[0], g) && adds == old(adds)
                && DirectAnswerIsGood(policy, req.questions[0], resp)
      ensures !DirectPath(policy, req.questions[0], g) ==>
                resp.Some? && RaceOutcome(policy, iranian, req, g.race, old(adds), adds, trace, resp.value)
      ensures count == Credited(CountPath(policy, req.questions[0].name, g.inStore, old(count)), resp)
      ensures var q := req.questions[0];
              var n, iran := Normalize(q.name), QueryResult(policy, q, true, g.iranQuery);
              var denied := && !Matches(policy.iranTLDs, n) && !Matches(policy.preferIran, n)
                            && g.inStore && iran.Some? && iran.value.rcode == NXDOMAIN;
              removes == old(removes) + if denied then [q.name] else []
      ensures queryCalls <= old(queryCalls) + 3 && exchanges <= old(exchanges) + 6
      ensures c.start <= end <= Max(c.start, c.deadline) + c.Overrun()
    {
      trace := [];
      var done;
      done, resp, end := TryDirectPaths(req.questions[0], g, c);
      if !done {
        var m;
        m, trace, end := ResolveWithLearning(req, iranian, g.race, c.(start := end));
        resp := Some(m);
      }
    }

    /** An attempt as a flight sees it. */
    method Attempt(req: Request, iranian: string -> bool, g: ResolveInput, ghost c: Clock)
      returns (resp: Option<Msg>, ghost end: int)
      requires req.questions != []
      modifies this
      ensures resp.Some? ==> Sound(policy, req.questions[0], resp.value)
      ensures DirectPath(policy, req.questions[0], g) ==>
                resp == DirectRoute(policy, req.questions[0], g) && DirectAnswerIsGood(policy, req.questions[0], resp)
      ensures AttemptCounts(old(count), count)
      ensures Taught(policy, iranian, req.questions[0], old(adds), adds)
      ensures queryCalls <= old(queryCalls) + 3 && exchanges <= old(exchanges) + 6
      ensures c.start <= end <= Max(c.start, c.deadline) + c.Overrun()
    {
      ghost var trace;
      resp, trace, end := ResolveOnce(req, iranian, g, c);
      PathCounted(policy, req.questions[0].name, g.inStore, old(count), resp);
    }

    /** One flight: an attempt, a pause and one more attempt exactly if the first one failed. The
        answer is sound and goes to the cache unless it is a failure; there are at most six queries and
        twelve exchanges; each attempt counts one path; and the flight ends by the deadline plus
        two deaf waits and a tenth of the timeout. */
    method Flight(req: Request, iranian: string -> bool, iranian': string -> bool,
                  g: ResolveInput, g': ResolveInput, ghost c: Clock)
      returns (resp: Msg, toCache: bool, ghost first: Option<Msg>, ghost second: Option<Msg>, ghost end: int)
      requires req.questions != [] && 30 <= c.timeout
      modifies this
      ensures Sound(policy, req.questions[0], resp) && (toCache <==> resp.rcode != SERVFAIL)
      ensures first.Some? && first.value.rcode != SERVFAIL ==> Some(resp) == first
      ensures first == None || first.value.rcode == SERVFAIL ==>
                if second.Some? then Some(resp) == second else resp.rcode == SERVFAIL && resp.origin == Local && resp.id == req.id
      ensures DirectPath(policy, req.questions[0], g) ==> first == DirectRoute(policy, req.questions[0], g)
      ensures DirectPath(policy, req.questions[0], g') && IsFailure(first) ==> second == DirectRoute(policy, req.questions[0], g')
      ensures Matches(policy.iranTLDs, Normalize(req.questions[0].name)) || Matches(policy.preferIran, Normalize(req.questions[0].name)) ==>
                DirectAnswerIsGood(policy, req.questions[0], Some(resp))
      ensures FlightCounts(old(count), count, resp) && (count.retried > old(count).retried <==> IsFailure(first))
      ensures old(adds) <= adds
      ensures forall i :: |old(adds)| <= i < |adds| ==>
                Convincing(policy, iranian, adds[i]) || Convincing(policy, iranian', adds[i])
      ensures queryCalls <= old(queryCalls) + 6 && exchanges <= old(exchanges) + 12
      ensures end <= Max(c.start, c.deadline) + 2 * c.Overrun() + c.timeout / 10
    {
      count := count.(flights := count.flights + 1);
      var r;
      r, end := Attempt(req, iranian, g, c);
      first, second := r, None;
      if IsFailure(r) {
        count := count.(retried := count.retried + 1);
        ghost var jitter :| c.timeout / 15 <= jitter < c.timeout / 15 + c.timeout / 30;
        ghost var wake := end + jitter;
        r, end := Attempt(req, iranian', g', c.(start := wake));
        second := r;
        assert Max(wake, c.deadline) <= Max(c.start, c.deadline) + c.Overrun() + c.timeout / 10;
      }
      if r == None {
        count := count.(servfail := count.servfail + 1);
        return ServerFail(req), false, first, second, end;
      }
      resp := r.value;
      toCache := resp.rcode != SERVFAIL;
      if !toCache {
        count := count.(servfail := count.servfail + 1);
      }
    }

    /** One `store.Add` for every Iranian address of a validated reply. */
    method LearnAll(q: Question, m: Msg, iranian: string -> bool)
      requires IsAddressType(q.qtype) && m.origin == Iran && m.question == q && Validated(policy, iranian, m)
      modifies this`adds
      ensures old(adds) < adds
      ensures forall i :: |old(adds)| <= i < |adds| ==> Convincing(policy, iranian, adds[i]) && adds[i].question == q
    {
      var ips, at := ExtractIPs(m.answers);
      RecordsSpeak(policy, m.answers);
      for i := 0 to |ips|
        invariant old(adds) <= adds
        invariant forall k :: |old(adds)| <= k < |adds| ==> Convincing(policy, iranian, adds[k]) && adds[k].question == q
        invariant (exists j :: 0 <= j < i && iranian(ips[j])) ==> |old(adds)| < |adds|
      {
        if iranian(ips[i]) {
          adds := adds + [Witness(Normalize(q.name), q, m, ips[i])];
        }
      }
    }
  }
}
