/** The whole proxy in motion: any number of queries at once, the static records, the cache in
    front, flights that coalesce queries with the same key, one retry per flight, and a store
    that learns and forgets. An attempt of a flight is any attempt the router's contract allows,
    so the upstreams, the timers, the breakers and the classifier are unconstrained. */
module System {
  import opened Prelude
  import opened Names
  import opened Dns
  import opened RoutingRules
  import opened Routing

  datatype Setup = Setup(policy: Policy, types: TypeNames, staticRecords: map<string, string>)

  /** A request that carries a question; the others are answered at once. */
  type Asking = r: Request | r.questions != [] witness Request(0, [Question("", 0)])

  /** A name taught to the store, with the evidence and the classifier of that moment. */
  datatype Lesson = Lesson(evidence: Witness, iranian: string -> bool)

  datatype Answer = Answer(req: Request, msg: Msg)
  datatype Result = Result(req: Asking, msg: Msg)

  /** Queries in progress: counted and not yet looked up; missed and not yet in a flight; waiting
      for the flight of their key; and holding its result. */
  datatype Queries = Queries(
    arrived: map<nat, Asking>, missed: map<nat, Asking>, waiting: map<nat, Asking>, ready: map<nat, Result>)

  /** Flights by key: before the first attempt, before the retry, and with their result. */
  datatype Flights = Flights(first: map<string, Asking>, second: map<string, Asking>, landed: map<string, Msg>)

  datatype Knowledge = Knowledge(loaded: set<string>, names: set<string>, lessons: seq<Lesson>)

  datatype Sys = Sys(
    queries: Queries, flights: Flights, entries: map<string, Msg>, known: Knowledge,
    count: Counters, joined: nat, answers: seq<Answer>)

  ghost function KeyOf(u: Setup, req: Asking): string {
    Key(u.types, req.questions[0])
  }

  ghost predicate IsStatic(u: Setup, req: Asking) {
    Lower(req.questions[0].name) in u.staticRecords && req.questions[0].qtype == TYPE_A
  }

  ghost function StaticResponse(u: Setup, req: Asking): Msg
    requires IsStatic(u, req)
  {
    Msg(req.id, SUCCESS, [A(u.staticRecords[Lower(req.questions[0].name)], 300)], false, req.questions[0], Local)
  }

  ghost predicate Init(s: Sys) {
    && s.queries == Queries(map[], map[], map[], map[]) && s.flights == Flights(map[], map[], map[])
    && s.entries == map[] && s.known.names == s.known.loaded && s.known.lessons == [] && s.answers == []
    && s.count == Counters(0, 0, 0, 0, 0, 0, 0, 0, 0, 0, 0, 0, 0) && s.joined == 0
  }

  // ----- Steps of a query -----

  ghost predicate Reject(s: Sys, s': Sys, req: Request) {
    req.questions == [] && s' == s.(answers := s.answers + [Answer(req, ServerFail(req))])
  }

  ghost predicate Arrive(s: Sys, s': Sys, t: nat, req: Asking) {
    var q := s.queries;
    && t !in q.arrived && t !in q.missed && t !in q.waiting && t !in q.ready
    && s' == s.(queries := q.(arrived := q.arrived[t := req]), count := s.count.(total := s.count.total + 1))
  }

  /** Pinned records come before the cache. */
  ghost predicate AnswerStatic(u: Setup, s: Sys, s': Sys, t: nat) {
    var q := s.queries;
    && t in q.arrived && IsStatic(u, q.arrived[t])
    && s' == s.(queries := q.(arrived := q.arrived - {t}), count := s.count.(pathStatic := s.count.pathStatic + 1),
                answers := s.answers + [Answer(q.arrived[t], StaticResponse(u, q.arrived[t]))])
  }

  ghost predicate AnswerCached(u: Setup, s: Sys, s': Sys, t: nat) {
    var q := s.queries;
    && t in q.arrived && !IsStatic(u, q.arrived[t]) && KeyOf(u, q.arrived[t]) in s.entries
    && s' == s.(queries := q.(arrived := q.arrived - {t}), count := s.count.(cached := s.count.cached + 1),
                answers := s.answers + [Answer(q.arrived[t], s.entries[KeyOf(u, q.arrived[t])].(id := q.arrived[t].id))])
  }

  ghost predicate Miss(u: Setup, s: Sys, s': Sys, t: nat) {
    var q := s.queries;
    && t in q.arrived && !IsStatic(u, q.arrived[t])
    && s' == s.(queries := q.(arrived := q.arrived - {t}, missed := q.missed[t := q.arrived[t]]),
                count := s.count.(miss := s.count.miss + 1))
  }

  ghost predicate Flying(f: Flights, key: string) {
    key in f.first || key in f.second || key in f.landed
  }

  ghost predicate Join(u: Setup, s: Sys, s': Sys, t: nat) {
    var q := s.queries;
    && t in q.missed && Flying(s.flights, KeyOf(u, q.missed[t]))
    && s' == s.(queries := q.(missed := q.missed - {t}, waiting := q.waiting[t := q.missed[t]]), joined := s.joined + 1)
  }

  ghost predicate Lead(u: Setup, s: Sys, s': Sys, t: nat) {
    var q, f := s.queries, s.flights;
    && t in q.missed && !Flying(f, KeyOf(u, q.missed[t]))
    && s' == s.(queries := q.(missed := q.missed - {t}, waiting := q.waiting[t := q.missed[t]]),
                flights := f.(first := f.first[KeyOf(u, q.missed[t]) := q.missed[t]]),
                count := s.count.(flights := s.count.flights + 1))
  }

  /** The waiters of a key, with the result. */
  ghost function Served(u: Setup, waiting: map<nat, Asking>, key: string, m: Msg): map<nat, Result> {
    map t | t in waiting && KeyOf(u, waiting[t]) == key :: Result(waiting[t], m)
  }

  ghost predicate Land(u: Setup, s: Sys, s': Sys, key: string) {
    var q, f := s.queries, s.flights;
    && key in f.landed
    && var served := Served(u, q.waiting, key, f.landed[key]);
       s' == s.(queries := q.(waiting := q.waiting - served.Keys, ready := q.ready + served),
                flights := f.(landed := f.landed - {key}))
  }

  /** Every waiter gets the shared result under its own ID. */
  ghost predicate Deliver(s: Sys, s': Sys, t: nat) {
    var q := s.queries;
    && t in q.ready
    && s' == s.(queries := q.(ready := q.ready - {t}),
                answers := s.answers + [Answer(q.ready[t].req, q.ready[t].msg.(id := q.ready[t].req.id))])
  }

  // ----- Steps of a flight -----

  /** One attempt, as the router's contract describes it. */
  ghost predicate Attempted(u: Setup, count: Counters, req: Asking, resp: Option<Msg>, taught: seq<Lesson>, after: Counters) {
    && (exists inStore :: after == Credited(CountPath(u.policy, req.questions[0].name, inStore, count), resp))
    && (resp.Some? ==> Sound(u.policy, req.questions[0], resp.value))
    && (forall i :: 0 <= i < |taught| ==> Convincing(u.policy, taught[i].iranian, taught[i].evidence))
  }

  /** The attempts the router makes are attempts of this kind, with the lessons it teaches. */
  method MakeAttempt(u: Setup, r: Router, req: Asking, iranian: string -> bool, g: ResolveInput, ghost c: Clock)
    returns (resp: Option<Msg>, ghost taught: seq<Lesson>)
    requires r.policy == u.policy
    modifies r
    ensures Attempted(u, old(r.count), req, resp, taught, r.count)
    ensures |r.adds| == |old(r.adds)| + |taught| && old(r.adds) <= r.adds
    ensures forall i :: 0 <= i < |taught| ==> taught[i].evidence == r.adds[|old(r.adds)| + i]
  {
    ghost var trace, end;
    resp, trace, end := r.ResolveOnce(req, iranian, g, c);
    ghost var lessons := r.adds[|old(r.adds)|..];
    taught := seq(|lessons|, i requires 0 <= i < |lessons| => Lesson(lessons[i], iranian));
  }

  ghost function Teach(k: Knowledge, taught: seq<Lesson>): Knowledge {
    k.(names := k.names + (set i | 0 <= i < |taught| :: taught[i].evidence.name), lessons := k.lessons + taught)
  }

  /** Only successes with answers are stored; that an entry is gone again at once is a step of its own. */
  ghost function Cached(entries: map<string, Msg>, key: string, m: Msg): map<string, Msg> {
    if m.rcode == SUCCESS && m.answers != [] then entries[key := m] else entries
  }

  ghost predicate FirstAttempt(u: Setup, s: Sys, s': Sys, key: string, resp: Option<Msg>, taught: seq<Lesson>, after: Counters) {
    var f := s.flights;
    && key in f.first && Attempted(u, s.count, f.first[key], resp, taught, after)
    && if IsFailure(resp) then
         s' == s.(known := Teach(s.known, taught), count := after.(retried := after.retried + 1),
                  flights := f.(first := f.first - {key}, second := f.second[key := f.first[key]]))
       else
         s' == s.(known := Teach(s.known, taught), count := after, entries := Cached(s.entries, key, resp.value),
                  flights := f.(first := f.first - {key}, landed := f.landed[key := resp.value]))
  }

  ghost predicate SecondAttempt(u: Setup, s: Sys, s': Sys, key: string, resp: Option<Msg>, taught: seq<Lesson>, after: Counters) {
    var f := s.flights;
    && key in f.second && Attempted(u, s.count, f.second[key], resp, taught, after)
    && var m := if resp == None then ServerFail(f.second[key]) else resp.value;
       s' == s.(known := Teach(s.known, taught), entries := Cached(s.entries, key, m),
                count := if IsFailure(resp) then after.(servfail := after.servfail + 1) else after,
                flights := f.(second := f.second - {key}, landed := f.landed[key := m]))
  }

  /** Entries expire or are evicted, and names are removed or cleaned out, at any time. */
  ghost predicate Shrink(s: Sys, s': Sys, keys: set<string>, gone: set<string>) {
    s' == s.(entries := s.entries - keys, known := s.known.(names := s.known.names - gone))
  }

  datatype Action =
    | DoReject(req: Request) | DoArrive(t: nat, asking: Asking) | DoStatic(t: nat) | DoCached(t: nat)
    | DoMiss(t: nat) | DoJoin(t: nat) | DoLead(t: nat) | DoLand(key: string) | DoDeliver(t: nat)
    | DoFirst(key: string, resp: Option<Msg>, taught: seq<Lesson>, after: Counters)
    | DoSecond(key: string, resp: Option<Msg>, taught: seq<Lesson>, after: Counters)
    | DoShrink(keys: set<string>, gone: set<string>)

  ghost predicate Step(u: Setup, s: Sys, s': Sys, a: Action) {
    match a
    case DoReject(req) => Reject(s, s', req)
    case DoArrive(t, req) => Arrive(s, s', t, req)
    case DoStatic(t) => AnswerStatic(u, s, s', t)
    case DoCached(t) => AnswerCached(u, s, s', t)
    case DoMiss(t) => Miss(u, s, s', t)
    case DoJoin(t) => Join(u, s, s', t)
    case DoLead(t) => Lead(u, s, s', t)
    case DoLand(key) => Land(u, s, s', key)
    case DoDeliver(t) => Deliver(s, s', t)
    case DoFirst(key, resp, taught, after) => FirstAttempt(u, s, s', key, resp, taught, after)
    case DoSecond(key, resp, taught, after) => SecondAttempt(u, s, s', key, resp, taught, after)
    case DoShrink(keys, gone) => Shrink(s, s', keys, gone)
  }

  ghost predicate Next(u: Setup, s: Sys, s': Sys) {
    exists a :: Step(u, s, s', a)
  }

  /** A run of the proxy. */
  ghost predicate Run(u: Setup, ss: seq<Sys>) {
    && ss != [] && Init(ss[0])
    && forall i: nat :: i + 1 < |ss| ==> StepsAt(u, ss, i)
  }

  ghost predicate StepsAt(u: Setup, ss: seq<Sys>, i: nat)
    requires i + 1 < |ss|
  {
    Next(u, ss[i], ss[i + 1])
  }

  // ----- What the answers are -----

  /** A message fit for a key: sound for the question it answers, which has that key. */
  ghost predicate Fit(u: Setup, key: string, m: Msg) {
    Key(u.types, m.question) == key && Sound(u.policy, m.question, m)
  }

  ghost predicate Keyed(u: Setup, flights: map<string, Asking>) {
    forall k :: k in flights ==> KeyOf(u, flights[k]) == k
  }

  ghost predicate MessagesFit(u: Setup, messages: map<string, Msg>) {
    forall k :: k in messages ==> Fit(u, k, messages[k])
  }

  ghost predicate NoneStatic(u: Setup, queries: map<nat, Asking>) {
    forall t :: t in queries ==> !IsStatic(u, queries[t])
  }

  ghost predicate ResultsFit(u: Setup, ready: map<nat, Result>) {
    forall t :: t in ready ==> !IsStatic(u, ready[t].req) && Fit(u, KeyOf(u, ready[t].req), ready[t].msg)
  }

  /** What a client can rely on: its own ID; from IranDNS, no A or AAAA record with a hijacked
      address in answer to an address query; from any upstream, an answer to this name up to case
      and, if it is a known one, this type; from nobody, only a failure or the pinned record; and a
      pinned record always, alone, with the configured address. */
  ghost predicate Trustworthy(u: Setup, a: Answer) {
    && a.msg.id == a.req.id
    && (a.req.questions == [] ==> a.msg.rcode == SERVFAIL && a.msg.answers == [] && a.msg.origin == Local)
    && (a.req.questions != [] ==>
          var q := a.req.questions[0];
          && (a.msg.origin == Iran && (q.qtype == 1 || q.qtype == 28) ==>
                forall i :: 0 <= i < |a.msg.answers| && (a.msg.answers[i].A? || a.msg.answers[i].AAAA?) ==>
                  !HijackedIP(u.policy, a.msg.answers[i].ip))
          && SameUpToCase(a.msg.question.name, q.name)
          && (q.qtype in u.types ==> a.msg.question.qtype == q.qtype)
          && var pinned := Lower(q.name) in u.staticRecords && q.qtype == TYPE_A;
          && (a.msg.origin == Local ==> a.msg.rcode == SERVFAIL || pinned)
          && (pinned ==>
                && a.msg.rcode == SUCCESS && a.msg.origin == Local
                && a.msg.answers == [A(u.staticRecords[Lower(q.name)], 300)]))
  }

  ghost predicate GoodSetup(u: Setup) {
    GoodTypes(u.types) && TYPE_A in u.types && TYPE_AAAA in u.types
  }

  lemma FitIsTrustworthy(u: Setup, req: Asking, m: Msg)
    requires GoodSetup(u) && !IsStatic(u, req) && Fit(u, KeyOf(u, req), m)
    ensures Trustworthy(u, Answer(req, m.(id := req.id)))
  {
    KeyIdentifiesQuestion(u.types, m.question, req.questions[0]);
  }

  ghost predicate AllFit(u: Setup, s: Sys) {
    && Keyed(u, s.flights.first) && Keyed(u, s.flights.second)
    && MessagesFit(u, s.entries) && MessagesFit(u, s.flights.landed)
    && NoneStatic(u, s.queries.missed) && NoneStatic(u, s.queries.waiting) && ResultsFit(u, s.queries.ready)
  }

  ghost predicate AnswersTrusted(u: Setup, answers: seq<Answer>) {
    forall i :: 0 <= i < |answers| ==> Trustworthy(u, answers[i])
  }

  lemma LeadStaysFit(u: Setup, s: Sys, s': Sys, t: nat)
    requires AllFit(u, s) && Lead(u, s, s', t)
    ensures AllFit(u, s')
  {
  }

  lemma FirstAttemptStaysFit(u: Setup, s: Sys, s': Sys, key: string, resp: Option<Msg>, taught: seq<Lesson>, after: Counters)
    requires AllFit(u, s) && FirstAttempt(u, s, s', key, resp, taught, after)
    ensures AllFit(u, s')
  {
  }

  lemma SecondAttemptStaysFit(u: Setup, s: Sys, s': Sys, key: string, resp: Option<Msg>, taught: seq<Lesson>, after: Counters)
    requires AllFit(u, s) && SecondAttempt(u, s, s', key, resp, taught, after)
    ensures AllFit(u, s')
  {
  }

  lemma StepStaysFit(u: Setup, s: Sys, s': Sys, a: Action)
    requires AllFit(u, s) && Step(u, s, s', a)
    ensures AllFit(u, s')
  {
    match a
    case DoLead(t) => LeadStaysFit(u, s, s', t);
    case DoFirst(key, resp, taught, after) => FirstAttemptStaysFit(u, s, s', key, resp, taught, after);
    case DoSecond(key, resp, taught, after) => SecondAttemptStaysFit(u, s, s', key, resp, taught, after);
    case _ =>
  }

  lemma CachedIsTrusted(u: Setup, s: Sys, s': Sys, t: nat)
    requires GoodSetup(u) && AllFit(u, s) && AnswersTrusted(u, s.answers) && AnswerCached(u, s, s', t)
    ensures AnswersTrusted(u, s'.answers)
  {
    FitIsTrustworthy(u, s.queries.arrived[t], s.entries[KeyOf(u, s.queries.arrived[t])]);
  }

  lemma DeliveredIsTrusted(u: Setup, s: Sys, s': Sys, t: nat)
    requires GoodSetup(u) && AllFit(u, s) && AnswersTrusted(u, s.answers) && Deliver(s, s', t)
    ensures AnswersTrusted(u, s'.answers)
  {
    FitIsTrustworthy(u, s.queries.ready[t].req, s.queries.ready[t].msg);
  }

  lemma StepStaysTrusted(u: Setup, s: Sys, s': Sys, a: Action)
    requires GoodSetup(u) && AllFit(u, s) && AnswersTrusted(u, s.answers) && Step(u, s, s', a)
    ensures AnswersTrusted(u, s'.answers)
  {
    match a
    case DoCached(t) => CachedIsTrusted(u, s, s', t);
    case DoDeliver(t) => DeliveredIsTrusted(u, s, s', t);
    case _ =>
  }

  // ----- What the store knows -----

  ghost predicate Learnt(p: Policy, k: Knowledge, n: string) {
    exists i :: 0 <= i < |k.lessons| && k.lessons[i].evidence.name == n &&
      Convincing(p, k.lessons[i].iranian, k.lessons[i].evidence)
  }

  ghost predicate AllLearnt(p: Policy, k: Knowledge) {
    forall n {:trigger Learnt(p, k, n)} :: n in k.names && n !in k.loaded ==> Learnt(p, k, n)
  }

  lemma TeachingKeepsEvidence(p: Policy, k: Knowledge, taught: seq<Lesson>, gone: set<string>)
    requires AllLearnt(p, k)
    requires forall i :: 0 <= i < |taught| ==> Convincing(p, taught[i].iranian, taught[i].evidence)
    ensures AllLearnt(p, Teach(k, taught)) && AllLearnt(p, k.(names := k.names - gone))
  {
    var k' := Teach(k, taught);
    forall n | n in k'.names && n !in k'.loaded
      ensures Learnt(p, k', n)
    {
      if n in k.names {
        assert Learnt(p, k, n);
        var i :| 0 <= i < |k.lessons| && k.lessons[i].evidence.name == n &&
          Convincing(p, k.lessons[i].iranian, k.lessons[i].evidence);
        assert k'.lessons[i] == k.lessons[i];
      } else {
        var i :| 0 <= i < |taught| && taught[i].evidence.name == n;
        assert k'.lessons[|k.lessons| + i] == taught[i];
      }
    }
    forall n | n in k.names - gone && n !in k.loaded
      ensures Learnt(p, k.(names := k.names - gone), n)
    {
      assert Learnt(p, k, n);
    }
  }

  lemma StepKeepsEvidence(u: Setup, s: Sys, s': Sys, a: Action)
    requires AllLearnt(u.policy, s.known) && Step(u, s, s', a)
    ensures AllLearnt(u.policy, s'.known)
  {
    match a
    case DoFirst(key, resp, taught, after) => TeachingKeepsEvidence(u.policy, s.known, taught, {});
    case DoSecond(key, resp, taught, after) => TeachingKeepsEvidence(u.policy, s.known, taught, {});
    case DoShrink(keys, gone) => TeachingKeepsEvidence(u.policy, s.known, [], gone);
    case _ =>
  }

  // ----- What the counters say -----

  /** The counters of queries, given how many queries have arrived and how many have missed. */
  ghost predicate QueriesTallied(c: Counters, joined: nat, arrived: nat, missed: nat) {
    c.total == c.pathStatic + c.cached + c.miss + arrived && c.miss == c.flights + joined + missed
  }

  /** The counters of attempts, given how many flights are before their first and second one. */
  ghost predicate FlightsTallied(c: Counters, first: nat, second: nat) {
    && c.tld + c.prefer + c.store + c.learn + first + second == c.flights + c.retried
    && c.retried + first <= c.flights && c.servfail + second <= c.retried
    && c.iran + c.global <= c.tld + c.prefer + c.store + c.learn
  }

  ghost predicate AllTallied(s: Sys) {
    && QueriesTallied(s.count, s.joined, |s.queries.arrived|, |s.queries.missed|)
    && FlightsTallied(s.count, |s.flights.first|, |s.flights.second|)
  }

  lemma AttemptCountsOnce(u: Setup, count: Counters, req: Asking, resp: Option<Msg>, taught: seq<Lesson>, after: Counters)
    requires Attempted(u, count, req, resp, taught, after)
    ensures AttemptCounts(count, after)
  {
    var inStore :| after == Credited(CountPath(u.policy, req.questions[0].name, inStore, count), resp);
    PathCounted(u.policy, req.questions[0].name, inStore, count, resp);
  }

  ghost predicate QueriesApart(q: Queries) {
    && q.arrived.Keys !! q.missed.Keys && (q.arrived.Keys + q.missed.Keys) !! (q.waiting.Keys + q.ready.Keys)
    && q.waiting.Keys !! q.ready.Keys
  }

  ghost predicate FlightsApart(f: Flights) {
    f.first.Keys !! f.second.Keys && (f.first.Keys + f.second.Keys) !! f.landed.Keys
  }

  /** A query is in one place at a time, and so is a flight. */
  ghost predicate Apart(s: Sys) {
    QueriesApart(s.queries) && FlightsApart(s.flights)
  }

  lemma LeadStaysApart(u: Setup, s: Sys, s': Sys, t: nat)
    requires Apart(s) && Lead(u, s, s', t)
    ensures Apart(s')
  {
  }

  lemma FirstAttemptStaysApart(u: Setup, s: Sys, s': Sys, key: string, resp: Option<Msg>, taught: seq<Lesson>, after: Counters)
    requires Apart(s) && FirstAttempt(u, s, s', key, resp, taught, after)
    ensures Apart(s')
  {
  }

  lemma SecondAttemptStaysApart(u: Setup, s: Sys, s': Sys, key: string, resp: Option<Msg>, taught: seq<Lesson>, after: Counters)
    requires Apart(s) && SecondAttempt(u, s, s', key, resp, taught, after)
    ensures Apart(s')
  {
  }

  lemma StepStaysApart(u: Setup, s: Sys, s': Sys, a: Action)
    requires Apart(s) && Step(u, s, s', a)
    ensures Apart(s')
  {
    match a
    case DoLead(t) => LeadStaysApart(u, s, s', t);
    case DoFirst(key, resp, taught, after) => FirstAttemptStaysApart(u, s, s', key, resp, taught, after);
    case DoSecond(key, resp, taught, after) => SecondAttemptStaysApart(u, s, s', key, resp, taught, after);
    case _ =>
  }

  lemma AttemptsTallied(c: Counters, c': Counters, first: nat, second: nat)
    requires FlightsTallied(c, first, second) && AttemptCounts(c, c')
    ensures first > 0 ==>
              && FlightsTallied(c', first - 1, second)
              && FlightsTallied(c'.(retried := c'.retried + 1), first - 1, second + 1)
    ensures second > 0 ==>
              && FlightsTallied(c', first, second - 1)
              && FlightsTallied(c'.(servfail := c'.servfail + 1), first, second - 1)
  {
  }

  lemma AnswerStaticStaysTallied(u: Setup, s: Sys, s': Sys, t: nat)
    requires Apart(s) && AllTallied(s) && AnswerStatic(u, s, s', t)
    ensures AllTallied(s')
  {
    MapLoses(s.queries.arrived, t);
  }

  lemma AnswerCachedStaysTallied(u: Setup, s: Sys, s': Sys, t: nat)
    requires Apart(s) && AllTallied(s) && AnswerCached(u, s, s', t)
    ensures AllTallied(s')
  {
    MapLoses(s.queries.arrived, t);
  }

  lemma MissStaysTallied(u: Setup, s: Sys, s': Sys, t: nat)
    requires Apart(s) && AllTallied(s) && Miss(u, s, s', t)
    ensures AllTallied(s')
  {
    MapLoses(s.queries.arrived, t);
    MapGains(s.queries.missed, t, s.queries.arrived[t]);
  }

  lemma LeadStaysTallied(u: Setup, s: Sys, s': Sys, t: nat)
    requires Apart(s) && AllTallied(s) && Lead(u, s, s', t)
    ensures AllTallied(s')
  {
    var req := s.queries.missed[t];
    MapLoses(s.queries.missed, t);
    MapGains(s.flights.first, KeyOf(u, req), req);
  }

  lemma FirstAttemptStaysTallied(u: Setup, s: Sys, s': Sys, key: string, resp: Option<Msg>, taught: seq<Lesson>, after: Counters)
    requires Apart(s) && AllTallied(s) && FirstAttempt(u, s, s', key, resp, taught, after)
    ensures AllTallied(s')
  {
    AttemptCountsOnce(u, s.count, s.flights.first[key], resp, taught, after);
    AttemptsTallied(s.count, after, |s.flights.first|, |s.flights.second|);
    MapLoses(s.flights.first, key);
    MapGains(s.flights.second, key, s.flights.first[key]);
  }

  lemma SecondAttemptStaysTallied(u: Setup, s: Sys, s': Sys, key: string, resp: Option<Msg>, taught: seq<Lesson>, after: Counters)
    requires Apart(s) && AllTallied(s) && SecondAttempt(u, s, s', key, resp, taught, after)
    ensures AllTallied(s')
  {
    AttemptCountsOnce(u, s.count, s.flights.second[key], resp, taught, after);
    AttemptsTallied(s.count, after, |s.flights.first|, |s.flights.second|);
    MapLoses(s.flights.second, key);
  }

  lemma StepStaysTallied(u: Setup, s: Sys, s': Sys, a: Action)
    requires Apart(s) && AllTallied(s) && Step(u, s, s', a)
    ensures AllTallied(s')
  {
    match a
    case DoArrive(t, req) => MapGains(s.queries.arrived, t, req);
    case DoStatic(t) => AnswerStaticStaysTallied(u, s, s', t);
    case DoCached(t) => AnswerCachedStaysTallied(u, s, s', t);
    case DoMiss(t) => MissStaysTallied(u, s, s', t);
    case DoJoin(t) => MapLoses(s.queries.missed, t);
    case DoLead(t) => LeadStaysTallied(u, s, s', t);
    case DoFirst(key, resp, taught, after) => FirstAttemptStaysTallied(u, s, s', key, resp, taught, after);
    case DoSecond(key, resp, taught, after) => SecondAttemptStaysTallied(u, s, s', key, resp, taught, after);
    case _ =>
  }

  // ----- Who is still waiting -----

  ghost function InProgress(q: Queries): set<nat> {
    q.arrived.Keys + q.missed.Keys + q.waiting.Keys + q.ready.Keys
  }

  /** How many answers went to requests that carried a question. */
  ghost function Answered(answers: seq<Answer>): nat {
    if answers == [] then 0
    else Answered(answers[..|answers| - 1]) + if answers[|answers| - 1].req.questions == [] then 0 else 1
  }

  ghost predicate Accounted(s: Sys) {
    s.count.total == Answered(s.answers) + |InProgress(s.queries)|
  }

  lemma Answers(answers: seq<Answer>, a: Answer)
    ensures Answered(answers + [a]) == Answered(answers) + if a.req.questions == [] then 0 else 1
  {
    assert (answers + [a])[..|answers|] == answers;
  }

  predicate Finishes(a: Action) {
    a.DoStatic? || a.DoCached? || a.DoDeliver?
  }

  lemma QueriesLeave(q: Queries, t: nat)
    requires QueriesApart(q)
    ensures t in q.arrived ==> InProgress(q.(arrived := q.arrived - {t})) == InProgress(q) - {t}
    ensures t in q.ready ==> InProgress(q.(ready := q.ready - {t})) == InProgress(q) - {t}
  {
  }

  lemma QueriesMoveOn(q: Queries, t: nat)
    ensures t in q.arrived ==>
              InProgress(q.(arrived := q.arrived - {t}, missed := q.missed[t := q.arrived[t]])) == InProgress(q)
    ensures t in q.missed ==>
              InProgress(q.(missed := q.missed - {t}, waiting := q.waiting[t := q.missed[t]])) == InProgress(q)
  {
  }

  lemma WaitersMoveOn(u: Setup, q: Queries, key: string, m: Msg)
    ensures var served := Served(u, q.waiting, key, m);
            InProgress(q.(waiting := q.waiting - served.Keys, ready := q.ready + served)) == InProgress(q)
  {
    assert Served(u, q.waiting, key, m).Keys <= q.waiting.Keys;
  }

  /** A query is in progress from its arrival to its answer. */
  lemma StepMovesQueries(u: Setup, s: Sys, s': Sys, a: Action)
    requires Apart(s) && Step(u, s, s', a)
    ensures a.DoArrive? ==> a.t !in InProgress(s.queries) && InProgress(s'.queries) == InProgress(s.queries) + {a.t}
    ensures Finishes(a) ==> a.t in InProgress(s.queries) && InProgress(s'.queries) == InProgress(s.queries) - {a.t}
    ensures !a.DoArrive? && !Finishes(a) ==> InProgress(s'.queries) == InProgress(s.queries)
  {
    match a
    case DoStatic(t) => QueriesLeave(s.queries, t);
    case DoCached(t) => QueriesLeave(s.queries, t);
    case DoDeliver(t) => QueriesLeave(s.queries, t);
    case DoMiss(t) => QueriesMoveOn(s.queries, t);
    case DoJoin(t) => QueriesMoveOn(s.queries, t);
    case DoLead(t) => QueriesMoveOn(s.queries, t);
    case DoLand(key) => WaitersMoveOn(u, s.queries, key, s.flights.landed[key]);
    case _ =>
  }

  lemma StepAnswers(u: Setup, s: Sys, s': Sys, a: Action)
    requires Step(u, s, s', a)
    ensures s'.count.total == s.count.total + if a.DoArrive? then 1 else 0
    ensures Answered(s'.answers) == Answered(s.answers) + if Finishes(a) then 1 else 0
  {
    if a.DoFirst? {
      AttemptCountsOnce(u, s.count, s.flights.first[a.key], a.resp, a.taught, a.after);
    } else if a.DoSecond? {
      AttemptCountsOnce(u, s.count, s.flights.second[a.key], a.resp, a.taught, a.after);
    } else if a.DoReject? || Finishes(a) {
      Answers(s.answers, s'.answers[|s.answers|]);
    }
  }

  lemma StepAccounts(u: Setup, s: Sys, s': Sys, a: Action)
    requires Apart(s) && Accounted(s) && Step(u, s, s', a)
    ensures Accounted(s')
  {
    StepMovesQueries(u, s, s', a);
    StepAnswers(u, s, s', a);
  }

  ghost predicate NoneStranded(u: Setup, q: Queries, f: Flights) {
    forall t :: t in q.waiting ==> Flying(f, KeyOf(u, q.waiting[t]))
  }

  lemma LandStrandsNobody(u: Setup, s: Sys, s': Sys, key: string)
    requires NoneStranded(u, s.queries, s.flights) && Land(u, s, s', key)
    ensures NoneStranded(u, s'.queries, s'.flights)
  {
  }

  lemma AttemptsStrandNobody(u: Setup, s: Sys, s': Sys, a: Action)
    requires NoneStranded(u, s.queries, s.flights) && Step(u, s, s', a) && (a.DoFirst? || a.DoSecond?)
    ensures NoneStranded(u, s'.queries, s'.flights)
  {
    forall t | t in s'.queries.waiting
      ensures Flying(s'.flights, KeyOf(u, s'.queries.waiting[t]))
    {
      assert Flying(s.flights, KeyOf(u, s.queries.waiting[t]));
    }
  }

  lemma StepStrandsNobody(u: Setup, s: Sys, s': Sys, a: Action)
    requires NoneStranded(u, s.queries, s.flights) && Step(u, s, s', a)
    ensures NoneStranded(u, s'.queries, s'.flights)
  {
    match a
    case DoLand(key) => LandStrandsNobody(u, s, s', key);
    case DoFirst(_, _, _, _) => AttemptsStrandNobody(u, s, s', a);
    case DoSecond(_, _, _, _) => AttemptsStrandNobody(u, s, s', a);
    case _ =>
  }

  // ----- Whole runs -----

  lemma {:induction false} AnswersHold(u: Setup, ss: seq<Sys>, i: nat)
    requires GoodSetup(u) && Run(u, ss) && i < |ss|
    ensures AllFit(u, ss[i]) && AnswersTrusted(u, ss[i].answers)
  {
    if i > 0 {
      AnswersHold(u, ss, i - 1);
      assert StepsAt(u, ss, i - 1);
      var a :| Step(u, ss[i - 1], ss[i], a);
      StepStaysFit(u, ss[i - 1], ss[i], a);
      StepStaysTrusted(u, ss[i - 1], ss[i], a);
    }
  }

  lemma {:induction false} EvidenceHolds(u: Setup, ss: seq<Sys>, i: nat)
    requires Run(u, ss) && i < |ss|
    ensures AllLearnt(u.policy, ss[i].known)
  {
    if i > 0 {
      EvidenceHolds(u, ss, i - 1);
      assert StepsAt(u, ss, i - 1);
      var a :| Step(u, ss[i - 1], ss[i], a);
      StepKeepsEvidence(u, ss[i - 1], ss[i], a);
    }
  }

  lemma StartsApart(q: Queries, f: Flights)
    requires q == Queries(map[], map[], map[], map[]) && f == Flights(map[], map[], map[])
    ensures QueriesApart(q) && FlightsApart(f)
    ensures |q.arrived| == |q.missed| == |f.first| == |f.second| == 0
  {
    assert q.arrived.Keys == q.missed.Keys == q.waiting.Keys == q.ready.Keys == {};
    assert f.first.Keys == f.second.Keys == f.landed.Keys == {};
  }

  lemma NoQueryTallied(c: Counters, none: nat)
    requires c.total == c.pathStatic == c.cached == c.miss == c.flights == none == 0
    ensures QueriesTallied(c, none, none, none)
  {
  }

  lemma NoFlightTallied(c: Counters, none: nat)
    requires c.tld == c.prefer == c.store == c.learn == c.flights == c.retried == c.servfail == c.iran == c.global == none == 0
    ensures FlightsTallied(c, none, none)
  {
  }

  lemma StartsTallied(s: Sys)
    requires Init(s)
    ensures Apart(s) && AllTallied(s)
  {
    StartsApart(s.queries, s.flights);
    NoQueryTallied(s.count, s.joined);
    NoFlightTallied(s.count, s.joined);
  }

  lemma {:induction false} TalliesHold(u: Setup, ss: seq<Sys>, i: nat)
    requires Run(u, ss) && i < |ss|
    ensures Apart(ss[i]) && AllTallied(ss[i])
  {
    if i > 0 {
      TalliesHold(u, ss, i - 1);
      assert StepsAt(u, ss, i - 1);
      var a :| Step(u, ss[i - 1], ss[i], a);
      StepStaysApart(u, ss[i - 1], ss[i], a);
      StepStaysTallied(u, ss[i - 1], ss[i], a);
    } else {
      StartsTallied(ss[0]);
    }
  }

  lemma {:induction false} AccountsHold(u: Setup, ss: seq<Sys>, i: nat)
    requires Run(u, ss) && i < |ss|
    ensures Accounted(ss[i])
  {
    if i > 0 {
      AccountsHold(u, ss, i - 1);
      TalliesHold(u, ss, i - 1);
      assert StepsAt(u, ss, i - 1);
      var a :| Step(u, ss[i - 1], ss[i], a);
      StepAccounts(u, ss[i - 1], ss[i], a);
    } else {
      assert InProgress(ss[0].queries) == {};
    }
  }

  lemma {:induction false} NobodyStrandedHolds(u: Setup, ss: seq<Sys>, i: nat)
    requires Run(u, ss) && i < |ss|
    ensures NoneStranded(u, ss[i].queries, ss[i].flights)
  {
    if i > 0 {
      NobodyStrandedHolds(u, ss, i - 1);
      assert StepsAt(u, ss, i - 1);
      var a :| Step(u, ss[i - 1], ss[i], a);
      StepStrandsNobody(u, ss[i - 1], ss[i], a);
    }
  }

  /** In every run, every answer ever given, fresh, coalesced, retried, pinned or cached, is
      trustworthy. */
  lemma EveryAnswerIsTrustworthy(u: Setup, ss: seq<Sys>, n: nat, i: nat)
    requires GoodSetup(u) && Run(u, ss) && n < |ss| && i < |ss[n].answers|
    ensures Trustworthy(u, ss[n].answers[i])
  {
    AnswersHold(u, ss, n);
  }

  /** In every run, a name in the store was loaded from the file, or IranDNS once answered an
      address query for this very name with an address then classified Iranian and none hijacked. */
  lemma EveryNameHasEvidence(u: Setup, ss: seq<Sys>, i: nat, n: string)
    requires Run(u, ss) && i < |ss|
    requires n in ss[i].known.names && n !in ss[i].known.loaded
    ensures Learnt(u.policy, ss[i].known, n)
  {
    EvidenceHolds(u, ss, i);
  }

  /** In every run, every query counted has had exactly one answer or is in progress, and who
      waits for a flight waits for one that is there: coalescing forgets nobody. */
  lemma EveryQueryIsAnsweredOnce(u: Setup, ss: seq<Sys>, i: nat)
    requires Run(u, ss) && i < |ss|
    ensures ss[i].count.total == Answered(ss[i].answers) + |InProgress(ss[i].queries)|
    ensures forall t :: t in ss[i].queries.waiting ==> Flying(ss[i].flights, KeyOf(u, ss[i].queries.waiting[t]))
  {
    AccountsHold(u, ss, i);
    NobodyStrandedHolds(u, ss, i);
  }

  /** In every run, once nothing is in progress the counters add up. */
  lemma CountersAddUp(u: Setup, ss: seq<Sys>, i: nat)
    requires Run(u, ss) && i < |ss|
    requires ss[i].queries == Queries(map[], map[], map[], map[]) && ss[i].flights == Flights(map[], map[], map[])
    ensures var c := ss[i].count;
            && c.total == c.pathStatic + c.cached + c.miss
            && c.tld + c.prefer + c.store + c.learn == c.flights + c.retried && c.flights <= c.miss
            && c.servfail <= c.retried <= c.flights
            && c.iran + c.global <= c.flights + c.retried
  {
    TalliesHold(u, ss, i);
  }
}
