/** The parts of DNS messages the proxy looks at. The wire format is not part of this model. */
module Dns {
  import opened Prelude
  import opened Names

  const SUCCESS := 0
  const SERVFAIL := 2
  const NXDOMAIN := 3

  const TYPE_A := 1
  const TYPE_AAAA := 28

  /** Answer records: addresses in their printed form, and everything else. */
  datatype RR = A(ip: string, ttl: nat) | AAAA(ip: string, ttl: nat) | Other(ttl: nat)

  datatype Question = Question(name: string, qtype: nat)

  datatype Request = Request(id: nat, questions: seq<Question>)

  /** Who produced a message. The program does not store this; the model tags it. */
  datatype Origin = Iran | Global | Local

  datatype Msg = Msg(id: nat, rcode: nat, answers: seq<RR>, truncated: bool, question: Question, origin: Origin)

  predicate IsAddressType(qtype: nat) {
    qtype == TYPE_A || qtype == TYPE_AAAA
  }

  /** The mnemonics of query types; a type without one prints as the empty string. */
  type TypeNames = map<nat, string>

  function TypeName(types: TypeNames, qtype: nat): string {
    if qtype in types then types[qtype] else ""
  }

  /** Mnemonics are distinct, not empty and free of colons. */
  ghost predicate GoodTypes(types: TypeNames) {
    && (forall t :: t in types ==> types[t] != "" && ':' !in types[t])
    && (forall t, u :: t in types && u in types && types[t] == types[u] ==> t == u)
  }

  /** The key of the cache and of flight coalescing. */
  function Key(types: TypeNames, q: Question): (key: string)
    ensures key != ""
  {
    Lower(q.name) + ":" + TypeName(types, q.qtype)
  }

  lemma SplitAtColon(a: string, b: string, x: string, y: string)
    requires a + ":" + x == b + ":" + y && ':' !in x && ':' !in y
    ensures a == b && x == y
  {
    var s, t := a + ":" + x, b + ":" + y;
    assert s[|a|] == ':' && t[|b|] == ':';
    assert forall i :: |a| < i < |s| ==> s[i] in x;
    assert forall i :: |b| < i < |t| ==> t[i] in y;
    assert |a| == |b|;
    assert a == s[..|a|] && b == t[..|b|];
    assert x == s[|a| + 1..] && y == t[|b| + 1..];
  }

  /** Two questions share a key exactly when they ask for the same name, up to letter case, and
      the same known type; types without a mnemonic all share one. */
  lemma KeyIdentifiesQuestion(types: TypeNames, q: Question, r: Question)
    requires GoodTypes(types)
    ensures Key(types, q) == Key(types, r) <==>
            && SameUpToCase(q.name, r.name)
            && (q.qtype == r.qtype || (q.qtype !in types && r.qtype !in types))
  {
    LowerForgetsCase(q.name, r.name);
    if Key(types, q) == Key(types, r) {
      SplitAtColon(Lower(q.name), Lower(r.name), TypeName(types, q.qtype), TypeName(types, r.qtype));
    }
  }

  /** A reply that says the server failed, made for a request. */
  function ServerFail(req: Request): Msg {
    Msg(req.id, SERVFAIL, [], false, if req.questions == [] then Question("", 0) else req.questions[0], Local)
  }
}
