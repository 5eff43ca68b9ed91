/** Whether anybody can tell that the cache deletes expired entries. Deleting makes room, so with a
    size limit it can keep the program from evicting; this says exactly when that shows. */
module CacheDeletions {
  import opened Prelude
  import opened Dns
  import opened Cache
  import opened CacheRuns

  /** The effective `Set`s of a run. */
  ghost function PutsOnly(run: seq<Action>): seq<Action> {
    if run == [] then []
    else (if run[0].Put? then [run[0]] else []) + PutsOnly(run[1..])
  }

  /** The same actions up to the choice of victims. */
  ghost predicate SameUpToVictim(a: Action, b: Action) {
    a == b || (a.Put? && b.Put? && a == b.(victim := a.victim))
  }

  ghost predicate Retargets(a: seq<Action>, b: seq<Action>) {
    |a| == |b| && forall i :: 0 <= i < |a| ==> SameUpToVictim(a[i], b[i])
  }

  /** The clock never goes back, and sweeps use readings that are not in the future. */
  ghost predicate Timely(clock: int, run: seq<Action>)
    decreases |run|
  {
    run != [] ==> clock <= run[0].now && (run[0].SweepAll? ==> run[0].at <= run[0].now) && Timely(run[0].now, run[1..])
  }

  /** Some run with these actions, up to the choice of victims, ends so that no later lookup can
      tell it from `p`. */
  ghost predicate CanLookLike(c: Config, s: State, actions: seq<Action>, p: State) {
    exists run :: Retargets(run, actions) && Runs(c, s, run) &&
      SameHits(Exec(c, s, run).entries, p.entries, Exec(c, s, run).clock)
  }

  // ----- What lookups see -----

  /** The part of a table that lookups from `now` on can see. */
  ghost function LivePart(t: Table, now: int): Table {
    map k | k in t && now < t[k].expires :: t[k]
  }

  lemma SameHitsMeansSameLivePart(a: Table, b: Table, now: int)
    requires SameHits(a, b, now)
    ensures LivePart(a, now) == LivePart(b, now)
  {
    forall k | k in LivePart(a, now)
      ensures k in LivePart(b, now) && LivePart(b, now)[k] == a[k]
    {
      assert Hit(a, k, now) == Hit(b, k, now);
      SameExpiry(a, b, now, k);
    }
    forall k | k in LivePart(b, now)
      ensures k in LivePart(a, now)
    {
      assert Hit(a, k, now) == Hit(b, k, now);
    }
  }

  lemma SameExpiry(a: Table, b: Table, now: int, k: string)
    requires SameHits(a, b, now) && k in a && k in b && now < a[k].expires && now < b[k].expires
    ensures a[k].expires == b[k].expires
  {
    assert Hit(a, k, a[k].expires) == Hit(b, k, a[k].expires);
    assert Hit(a, k, b[k].expires) == Hit(b, k, b[k].expires);
  }

  lemma SameLivePartMeansSameHits(a: Table, b: Table, now: int)
    requires LivePart(a, now) == LivePart(b, now)
    ensures SameHits(a, b, now)
  {
    forall k, t | now <= t
      ensures Hit(a, k, t) == Hit(b, k, t)
    {
      assert k in LivePart(a, now) <==> k in LivePart(b, now);
      assert k in LivePart(a, now) ==> a[k] == LivePart(b, now)[k];
    }
  }

  lemma LivePartAfterPut(t: Table, key: string, e: Entry, now: int)
    ensures LivePart(t[key := e], now) ==
            if now < e.expires then LivePart(t, now)[key := e] else LivePart(t, now) - {key}
  {
  }

  lemma LivePartWithout(t: Table, k: string, now: int)
    ensures LivePart(t - {k}, now) == LivePart(t, now) - {k}
  {
  }

  /** There are no more live entries than entries, and fewer if one is not live. */
  lemma LivePartIsPart(t: Table, now: int)
    ensures |LivePart(t, now)| <= |t|
    ensures |LivePart(t, now)| == |t| ==> LivePart(t, now) == t
  {
    var live := LivePart(t, now);
    assert live.Keys <= t.Keys && |live| == |live.Keys| && |t| == |t.Keys|;
    assert t.Keys == live.Keys + (t.Keys - live.Keys);
    if |live| == |t| {
      assert t.Keys - live.Keys == {};
    }
  }

  // ----- Choosing victims -----

  lemma {:induction false} Listing(keys: set<string>) returns (order: seq<string>)
    ensures |order| == |keys|
    ensures forall i :: 0 <= i < |order| ==> order[i] in keys
    ensures forall i, j :: 0 <= i < j < |order| ==> order[i] != order[j]
  {
    if keys == {} {
      order := [];
    } else {
      var k :| k in keys;
      var others := Listing(keys - {k});
      order := others + [k];
    }
  }

  lemma {:induction false} SomeFirstToGo(t: Table, keys: set<string>) returns (v: string)
    requires keys != {} && keys <= t.Keys
    ensures v in keys && forall k :: k in keys ==> t[v].expires <= t[k].expires
  {
    var k :| k in keys;
    if keys == {k} {
      v := k;
    } else {
      var w := SomeFirstToGo(t, keys - {k});
      v := if t[k].expires <= t[w].expires then k else w;
    }
  }

  /** Up to a hundred entries, exactly the entries that expire first can be evicted. */
  lemma EvictsFirstToGo(t: Table, v: string)
    requires |t| <= SAMPLE
    ensures CanEvict(t, v) <==> FirstToGo(t, v)
  {
    if CanEvict(t, v) {
      var order :| Enumerates(order, t) && Evictable(t, order, v);
      EvictsFirst(t, t, order, v);
    }
    if FirstToGo(t, v) {
      var order := Listing(t.Keys);
      assert Enumerates(order, t);
      AllListed(order, t);
      assert order[..|order|] == order;
      assert Evictable(t, order, v);
    }
  }

  // ----- Up to a hundred entries nobody can tell -----

  /** The victim `p` needs to stay in step with `s`: none, one that lookups no longer see, or the
      same one. */
  lemma MatchingVictim(c: Config, s: Table, p: Table, now: int, v: Option<string>) returns (w: Option<string>)
    requires c.maxEntries <= SAMPLE && WithinSize(c.maxEntries, s) && WithinSize(c.maxEntries, p)
    requires LivePart(s, now) == LivePart(p, now)
    requires if Full(c, s) then v.Some? && FirstToGo(s, v.value) else v == None
    ensures if Full(c, p) then w.Some? && FirstToGo(p, w.value) else w == None
    ensures LivePart(WithoutVictim(s, v), now) == LivePart(WithoutVictim(p, w), now)
  {
    LivePartIsPart(s, now);
    LivePartIsPart(p, now);
    if v.Some? && now < s[v.value].expires {
      assert LivePart(s, now) == s;
      w := v;
      assert p == s;
    } else {
      if v.Some? {
        LivePartWithout(s, v.value, now);
        assert v.value !in LivePart(s, now);
        assert LivePart(s, now) - {v.value} == LivePart(s, now);
      }
      w := DeadVictim(c, p, now);
    }
  }

  lemma SomeDead(p: Table, now: int) returns (k: string)
    requires |LivePart(p, now)| < |p|
    ensures k in p && p[k].expires <= now
  {
    assert |LivePart(p, now)| == |LivePart(p, now).Keys| && |p| == |p.Keys|;
    assert LivePart(p, now).Keys != p.Keys;
    k :| k in p.Keys && k !in LivePart(p, now).Keys;
  }

  lemma DeadVictim(c: Config, p: Table, now: int) returns (w: Option<string>)
    requires Full(c, p) ==> |LivePart(p, now)| < |p|
    ensures if Full(c, p) then w.Some? && FirstToGo(p, w.value) else w == None
    ensures LivePart(WithoutVictim(p, w), now) == LivePart(p, now)
  {
    w := None;
    if Full(c, p) {
      var v := SomeFirstToGo(p, p.Keys);
      var dead := SomeDead(p, now);
      w := Some(v);
      LivePartWithout(p, v, now);
      assert p[v].expires <= p[dead].expires <= now;
      assert LivePart(p, now) - {v} == LivePart(p, now);
    }
  }

  /** One `Set` on two tables that look the same. */
  lemma PutFollows(c: Config, s: State, p: State, a: Action) returns (b: Action)
    requires c.maxEntries <= SAMPLE && Inv(c, s) && Inv(c, p) && SameHits(s.entries, p.entries, a.now)
    requires a.Put? && Enabled(c, s, a) && p.clock <= a.now
    ensures SameUpToVictim(b, a) && Enabled(c, p, b)
    ensures SameHits(Do(c, s, a).entries, Do(c, p, b).entries, a.now)
  {
    SameHitsMeansSameLivePart(s.entries, p.entries, a.now);
    if a.victim.Some? {
      EvictsFirstToGo(s.entries, a.victim.value);
    }
    var w := MatchingVictim(c, s.entries, p.entries, a.now, a.victim);
    if w.Some? {
      EvictsFirstToGo(p.entries, w.value);
    }
    b := a.(victim := w);
    var e := Entry(a.msg, Expiry(c, a.msg, a.now));
    LivePartAfterPut(WithoutVictim(s.entries, a.victim), a.key, e, a.now);
    LivePartAfterPut(WithoutVictim(p.entries, w), a.key, e, a.now);
    SameLivePartMeansSameHits(Do(c, s, a).entries, Do(c, p, b).entries, a.now);
  }

  ghost predicate InStep(c: Config, s: State, p: State) {
    Inv(c, s) && Inv(c, p) && p.clock <= s.clock && SameHits(s.entries, p.entries, s.clock)
  }

  lemma SameHitsLater(a: Table, b: Table, from: int, to: int)
    requires SameHits(a, b, from) && from <= to
    ensures SameHits(a, b, to) && SameHits(b, a, to)
  {
  }

  lemma DeletionStaysInStep(c: Config, s: State, p: State, a: Action)
    requires InStep(c, s, p) && Enabled(c, s, a) && !a.Put?
    ensures InStep(c, Do(c, s, a), p)
  {
    DoKeepsInv(c, s, a);
    SameHitsLater(s.entries, p.entries, s.clock, a.now);
    var s' := Do(c, s, a);
    forall k, t | a.now <= t
      ensures Hit(s'.entries, k, t) == Hit(p.entries, k, t)
    {
      assert Hit(s'.entries, k, t) == Hit(s.entries, k, t);
      assert Hit(s.entries, k, t) == Hit(p.entries, k, t);
    }
  }

  lemma Prepend(c: Config, s: State, a: Action, b: Action, rest: seq<Action>, p: State)
    requires SameUpToVictim(b, a) && Enabled(c, s, b) && CanLookLike(c, Do(c, s, b), rest, p)
    ensures CanLookLike(c, s, [a] + rest, p)
  {
    var run :| Retargets(run, rest) && Runs(c, Do(c, s, b), run) &&
      SameHits(Exec(c, Do(c, s, b), run).entries, p.entries, Exec(c, Do(c, s, b), run).clock);
    var all := [b] + run;
    assert all[0] == b && all[1..] == run;
    assert Retargets(all, [a] + rest);
    assert Runs(c, s, all) && Exec(c, s, all) == Exec(c, Do(c, s, b), run);
  }

  /** Deletions added anywhere to a run of `Set`s. */
  lemma {:induction false} AddingFollows(c: Config, s: State, actions: seq<Action>, p: State, puts: seq<Action>)
    requires c.maxEntries <= SAMPLE && InStep(c, s, p) && Timely(s.clock, actions)
    requires Runs(c, p, puts) && Retargets(PutsOnly(actions), puts)
    ensures CanLookLike(c, s, actions, Exec(c, p, puts))
    decreases |actions|, 1
  {
    if actions == [] {
      assert Retargets([], actions) && Runs(c, s, []) && Exec(c, s, []) == s;
    } else {
      var a, rest := actions[0], actions[1..];
      assert actions == [a] + rest;
      if a.Put? {
        assert PutsOnly(actions)[0] == a && PutsOnly(actions)[1..] == PutsOnly(rest);
        assert SameUpToVictim(PutsOnly(actions)[0], puts[0]);
        AddedPut(c, s, a, rest, p, puts);
      } else {
        assert PutsOnly(actions) == PutsOnly(rest);
        DeletionStaysInStep(c, s, p, a);
        AddingFollows(c, Do(c, s, a), rest, p, puts);
        Prepend(c, s, a, a, rest, Exec(c, p, puts));
      }
    }
  }

  lemma AddedPut(c: Config, s: State, a: Action, rest: seq<Action>, p: State, puts: seq<Action>)
    requires c.maxEntries <= SAMPLE && InStep(c, s, p) && s.clock <= a.now && Timely(a.now, rest) && a.Put?
    requires puts != [] && Runs(c, p, puts) && SameUpToVictim(a, puts[0]) && Retargets(PutsOnly(rest), puts[1..])
    ensures CanLookLike(c, s, [a] + rest, Exec(c, p, puts))
    decreases |rest| + 1, 0
  {
    SameHitsLater(s.entries, p.entries, s.clock, a.now);
    var b := PutFollows(c, p, s, puts[0]);
    var s', p' := Do(c, s, b), Do(c, p, puts[0]);
    DoKeepsInv(c, s, b);
    DoKeepsInv(c, p, puts[0]);
    SameHitsLater(p'.entries, s'.entries, a.now, a.now);
    AddingFollows(c, s', rest, p', puts[1..]);
    Prepend(c, s, a, b, rest, Exec(c, p, puts));
  }

  /** All deletions taken out of a run. */
  lemma {:induction false} ErasingFollows(c: Config, s: State, run: seq<Action>, p: State)
    requires c.maxEntries <= SAMPLE && InStep(c, s, p) && Runs(c, s, run)
    ensures exists puts :: Retargets(puts, PutsOnly(run)) && Runs(c, p, puts) && InStep(c, Exec(c, s, run), Exec(c, p, puts))
    decreases |run|
  {
    if run == [] {
      assert Retargets([], PutsOnly(run)) && Runs(c, p, []) && Exec(c, p, []) == p;
    } else {
      var a, s' := run[0], Do(c, s, run[0]);
      if a.Put? {
        SameHitsLater(s.entries, p.entries, s.clock, a.now);
        var b := PutFollows(c, s, p, a);
        DoKeepsInv(c, s, a);
        DoKeepsInv(c, p, b);
        ErasingFollows(c, s', run[1..], Do(c, p, b));
        var puts :| Retargets(puts, PutsOnly(run[1..])) && Runs(c, Do(c, p, b), puts) &&
          InStep(c, Exec(c, s', run[1..]), Exec(c, Do(c, p, b), puts));
        var all := [b] + puts;
        assert all[0] == b && all[1..] == puts;
        assert Retargets(all, PutsOnly(run));
        assert Runs(c, p, all) && Exec(c, p, all) == Exec(c, Do(c, p, b), puts);
      } else {
        assert PutsOnly(run) == PutsOnly(run[1..]);
        DeletionStaysInStep(c, s, p, a);
        ErasingFollows(c, s', run[1..], p);
      }
    }
  }

  /** Up to a hundred entries, or without a limit: whatever a run with deletions ends in, its
      `Set`s alone can end in a table that no later lookup can tell from it. */
  lemma DeletionsCanBeErased(c: Config, start: int, run: seq<Action>)
    requires c.maxEntries <= SAMPLE && Runs(c, Empty(start), run)
    ensures exists puts :: Retargets(puts, PutsOnly(run)) && Runs(c, Empty(start), puts) &&
              InStep(c, Exec(c, Empty(start), run), Exec(c, Empty(start), puts))
  {
    ErasingFollows(c, Empty(start), run, Empty(start));
  }

  // ----- Beyond a hundred entries somebody can -----

  ghost function ShortLived(): Msg {
    Msg(0, SUCCESS, [Other(1)], false, Question("", 0), Global)
  }

  ghost function Lifetime(c: Config): int {
    Clamp(c.minTTL, c.maxTTL, 1) * SECOND
  }

  lemma LifetimeOfShortLived(c: Config, now: int)
    requires 0 < c.minTTL <= c.maxTTL
    ensures MinTTL(ShortLived().answers) == 1 && Expiry(c, ShortLived(), now) == now + Lifetime(c) && SECOND <= Lifetime(c)
  {
    assert ShortLived().answers[..0] == [];
    assert Least([]) == NO_TTL;
  }

  ghost function Name(i: nat): string {
    seq(i + 1, j => 'a')
  }

  lemma NamesDiffer(i: nat, j: nat)
    ensures Name(i) == Name(j) ==> i == j
    ensures Name(i) != ""
  {
    assert |Name(i)| == i + 1 && |Name(j)| == j + 1;
  }

  ghost function Names(n: nat): set<string> {
    set i: nat | i < n :: Name(i)
  }

  /** One `Set` for each of the names from `i` to `n`, when the first one expires. */
  ghost function Fill(c: Config, i: nat, n: nat): seq<Action>
    decreases n - i
  {
    if i >= n then [] else [Put(Name(i), ShortLived(), Lifetime(c), None)] + Fill(c, i + 1, n)
  }

  /** A table with entries for the first names, all but the very first stored at that time. */
  ghost predicate Filled(c: Config, s: State, n: nat) {
    && s.entries.Keys == Names(n) && |s.entries| == n && s.clock <= Lifetime(c)
    && forall j: nat :: j < n ==>
         Name(j) in s.entries && s.entries[Name(j)] == Entry(ShortLived(), if j == 0 then Lifetime(c) else 2 * Lifetime(c))
  }

  lemma FillOne(c: Config, s: State, n: nat)
    requires 0 < c.minTTL <= c.maxTTL && 0 < n < c.maxEntries && Filled(c, s, n)
    ensures var a := Put(Name(n), ShortLived(), Lifetime(c), None); Enabled(c, s, a) && Filled(c, Do(c, s, a), n + 1)
  {
    LifetimeOfShortLived(c, Lifetime(c));
    NamesDiffer(n, n);
    forall j: nat | j < n
      ensures Name(j) != Name(n)
    {
      NamesDiffer(j, n);
    }
    var s' := Do(c, s, Put(Name(n), ShortLived(), Lifetime(c), None));
    assert Names(n + 1) == Names(n) + {Name(n)};
    assert Name(n) !in Names(n);
    MapGains(s.entries, Name(n), s'.entries[Name(n)]);
  }

  lemma {:induction false} FillRuns(c: Config, s: State, i: nat, n: nat)
    requires 0 < c.minTTL <= c.maxTTL && 0 < i <= n <= c.maxEntries && Filled(c, s, i)
    ensures Runs(c, s, Fill(c, i, n)) && Filled(c, Exec(c, s, Fill(c, i, n)), n)
    decreases n - i
  {
    if i < n {
      var a := Put(Name(i), ShortLived(), Lifetime(c), None);
      FillOne(c, s, i);
      FillRuns(c, Do(c, s, a), i + 1, n);
      assert Fill(c, i, n)[0] == a && Fill(c, i, n)[1..] == Fill(c, i + 1, n);
    }
  }

  lemma RunsCons(c: Config, s: State, a: Action, rest: seq<Action>)
    requires Enabled(c, s, a) && Runs(c, Do(c, s, a), rest)
    ensures Runs(c, s, [a] + rest) && Exec(c, s, [a] + rest) == Exec(c, Do(c, s, a), rest)
  {
    assert ([a] + rest)[1..] == rest;
  }

  lemma {:induction false} RunsJoin(c: Config, s: State, a: seq<Action>, b: seq<Action>)
    requires Runs(c, s, a) && Runs(c, Exec(c, s, a), b)
    ensures Runs(c, s, a + b) && Exec(c, s, a + b) == Exec(c, Exec(c, s, a), b)
    decreases |a|
  {
    if a == [] {
      assert a + b == b;
    } else {
      var first, rest := a[0], a[1..];
      RunsUncons(c, s, a);
      RunsJoin(c, Do(c, s, first), rest, b);
      RunsCons(c, s, first, rest + b);
      Regroup(first, rest, a, b);
    }
  }

  lemma RunsUncons(c: Config, s: State, a: seq<Action>)
    requires a != [] && Runs(c, s, a)
    ensures Enabled(c, s, a[0]) && Runs(c, Do(c, s, a[0]), a[1..]) && Exec(c, s, a) == Exec(c, Do(c, s, a[0]), a[1..])
  {
  }

  lemma Regroup(first: Action, rest: seq<Action>, a: seq<Action>, b: seq<Action>)
    requires a == [first] + rest
    ensures [first] + (rest + b) == a + b
  {
  }

  lemma {:induction false} PutsOnlyJoin(a: seq<Action>, b: seq<Action>)
    ensures PutsOnly(a + b) == PutsOnly(a) + PutsOnly(b)
  {
    if a == [] {
      assert a + b == b;
    } else {
      assert (a + b)[0] == a[0] && (a + b)[1..] == a[1..] + b;
      PutsOnlyJoin(a[1..], b);
    }
  }

  lemma {:induction false} RunsAreTimely(c: Config, s: State, run: seq<Action>)
    requires Runs(c, s, run)
    ensures Timely(s.clock, run)
    decreases |run|
  {
    if run != [] {
      RunsAreTimely(c, Do(c, s, run[0]), run[1..]);
    }
  }

  ghost predicate NeverEvicts(run: seq<Action>) {
    forall i :: 0 <= i < |run| && run[i].Put? ==> run[i].victim == None
  }

  /** A run that never evicts is the only one with its actions. */
  lemma {:induction false} OnlyWay(c: Config, s: State, actions: seq<Action>, run: seq<Action>)
    requires Runs(c, s, actions) && Runs(c, s, run) && Retargets(run, actions) && NeverEvicts(actions)
    ensures run == actions
    decreases |run|
  {
    if run != [] {
      assert SameUpToVictim(run[0], actions[0]);
      assert run[0] == actions[0];
      forall i | 0 <= i < |run| - 1
        ensures SameUpToVictim(run[1..][i], actions[1..][i])
      {
        assert SameUpToVictim(run[i + 1], actions[i + 1]);
      }
      OnlyWay(c, Do(c, s, run[0]), actions[1..], run[1..]);
      assert run == [run[0]] + run[1..] && actions == [actions[0]] + actions[1..];
    }
  }

  ghost function Prefix(c: Config, n: nat): seq<Action> {
    [Put(Name(0), ShortLived(), 0, None)] + Fill(c, 1, n)
  }

  lemma {:induction false} FillNeverEvicts(c: Config, i: nat, n: nat)
    ensures NeverEvicts(Fill(c, i, n)) && PutsOnly(Fill(c, i, n)) == Fill(c, i, n)
    decreases n - i
  {
    if i < n {
      FillNeverEvicts(c, i + 1, n);
      assert Fill(c, i, n)[0] == Put(Name(i), ShortLived(), Lifetime(c), None) && Fill(c, i, n)[1..] == Fill(c, i + 1, n);
    }
  }

  lemma PrefixRuns(c: Config)
    requires 0 < c.minTTL <= c.maxTTL && 0 < c.maxEntries
    ensures Runs(c, Empty(0), Prefix(c, c.maxEntries)) && Filled(c, Exec(c, Empty(0), Prefix(c, c.maxEntries)), c.maxEntries)
    ensures NeverEvicts(Prefix(c, c.maxEntries)) && PutsOnly(Prefix(c, c.maxEntries)) == Prefix(c, c.maxEntries)
  {
    var a := Put(Name(0), ShortLived(), 0, None);
    var s := Do(c, Empty(0), a);
    LifetimeOfShortLived(c, 0);
    NamesDiffer(0, 0);
    assert Names(1) == {Name(0)};
    assert s.entries.Keys == {Name(0)} && |s.entries| == |s.entries.Keys|;
    FillRuns(c, s, 1, c.maxEntries);
    FillNeverEvicts(c, 1, c.maxEntries);
    var all := Prefix(c, c.maxEntries);
    assert all[0] == a && all[1..] == Fill(c, 1, c.maxEntries);
  }

  /** The order that visits the expired entry last. */
  ghost function ExpiredLast(n: nat): seq<string>
    requires n > 0
  {
    seq(n, i requires 0 <= i < n => if i < n - 1 then Name(i + 1) else Name(0))
  }

  lemma LiveVictim(c: Config, s: State, n: nat)
    requires Filled(c, s, n) && n > SAMPLE
    ensures CanEvict(s.entries, Name(1))
  {
    var order := ExpiredLast(n);
    forall i, j | 0 <= i < j < n
      ensures order[i] != order[j]
    {
      NamesDiffer(if i < n - 1 then i + 1 else 0, if j < n - 1 then j + 1 else 0);
    }
    forall i | 0 <= i < n
      ensures order[i] in s.entries
      ensures i < SAMPLE ==> s.entries[order[i]].expires == 2 * Lifetime(c)
    {
    }
    assert Enumerates(order, s.entries);
    assert order[..SAMPLE][0] == Name(1);
    assert Evictable(s.entries, order, Name(1));
  }

  /** Without the sweep a live entry is evicted, as the sample misses the expired one. */
  lemma WithoutSweep(c: Config, s: State) returns (a: Action)
    requires 0 < c.minTTL <= c.maxTTL && c.maxEntries > SAMPLE && Filled(c, s, c.maxEntries)
    ensures a == Put(Name(c.maxEntries), ShortLived(), Lifetime(c) + 1, Some(Name(1)))
    ensures Enabled(c, s, a) && Hit(Do(c, s, a).entries, Name(1), Lifetime(c) + 1) == None
  {
    a := Put(Name(c.maxEntries), ShortLived(), Lifetime(c) + 1, Some(Name(1)));
    LifetimeOfShortLived(c, Lifetime(c) + 1);
    LiveVictim(c, s, c.maxEntries);
    NamesDiffer(c.maxEntries, 1);
  }

  /** With the sweep there is room. */
  lemma WithSweep(c: Config, s: State) returns (sweep: Action, a: Action)
    requires 0 < c.minTTL <= c.maxTTL && c.maxEntries > SAMPLE && Filled(c, s, c.maxEntries)
    ensures sweep == SweepAll(Lifetime(c) + 1, Lifetime(c) + 1)
    ensures a == Put(Name(c.maxEntries), ShortLived(), Lifetime(c) + 1, None)
    ensures Enabled(c, s, sweep) && Enabled(c, Do(c, s, sweep), a)
    ensures Hit(Do(c, Do(c, s, sweep), a).entries, Name(1), Lifetime(c) + 1).Some?
  {
    sweep := SweepAll(Lifetime(c) + 1, Lifetime(c) + 1);
    a := Put(Name(c.maxEntries), ShortLived(), Lifetime(c) + 1, None);
    LifetimeOfShortLived(c, Lifetime(c) + 1);
    NamesDiffer(c.maxEntries, 1);
    NamesDiffer(1, 0);
    var swept := Do(c, s, sweep).entries;
    assert Name(0) in s.entries && s.entries[Name(0)].expires == Lifetime(c);
    assert swept.Keys <= s.entries.Keys - {Name(0)};
    FewerKeys(swept, s.entries, Name(0));
    assert Name(1) in s.entries && Name(1) in swept;
  }

  lemma FewerKeys(a: Table, b: Table, k: string)
    requires k in b && a.Keys <= b.Keys - {k}
    ensures |a| < |b|
  {
    var rest := b.Keys - {k};
    assert rest == a.Keys + (rest - a.Keys);
    assert |a| == |a.Keys| && |b| == |b.Keys| && |rest| == |b.Keys| - 1;
  }

  ghost predicate Invisible(c: Config, start: int, puts: seq<Action>, actions: seq<Action>) {
    Runs(c, Empty(start), puts) && Retargets(PutsOnly(actions), puts) && Timely(start, actions) ==>
      CanLookLike(c, Empty(start), actions, Exec(c, Empty(start), puts))
  }

  lemma SweepShows(c: Config) returns (puts: seq<Action>, actions: seq<Action>)
    requires 0 < c.minTTL <= c.maxTTL && c.maxEntries > SAMPLE
    ensures !Invisible(c, 0, puts, actions)
  {
    PrefixRuns(c);
    var prefix := Prefix(c, c.maxEntries);
    var s := Exec(c, Empty(0), prefix);
    var last := WithoutSweep(c, s);
    var sweep, last' := WithSweep(c, s);
    puts, actions := prefix + [last], prefix + [sweep, last'];
    TwoMore(c, s, sweep, last');
    OneMore(c, s, last);
    RunsJoin(c, Empty(0), prefix, [last]);
    RunsJoin(c, Empty(0), prefix, [sweep, last']);
    RunsAreTimely(c, Empty(0), actions);
    PutsOnlyJoin(prefix, [sweep, last']);
    PutsOfTwo(sweep, last');
    assert Retargets(PutsOnly(actions), puts);
    Different(c, actions, Exec(c, Empty(0), puts));
  }

  lemma OneMore(c: Config, s: State, a: Action)
    requires Enabled(c, s, a)
    ensures Runs(c, s, [a]) && Exec(c, s, [a]) == Do(c, s, a)
  {
    assert [a][1..] == [];
  }

  lemma TwoMore(c: Config, s: State, a: Action, b: Action)
    requires Enabled(c, s, a) && Enabled(c, Do(c, s, a), b)
    ensures Runs(c, s, [a, b]) && Exec(c, s, [a, b]) == Do(c, Do(c, s, a), b)
  {
    OneMore(c, Do(c, s, a), b);
    assert [a, b][1..] == [b];
  }

  lemma PutsOfTwo(a: Action, b: Action)
    requires !a.Put? && b.Put?
    ensures PutsOnly([a, b]) == [b]
  {
    assert [b][1..] == [] && PutsOnly([b]) == [b] + [];
    assert [a, b][1..] == [b];
  }

  lemma Different(c: Config, actions: seq<Action>, p: State)
    requires Runs(c, Empty(0), actions) && NeverEvicts(actions)
    requires var e := Exec(c, Empty(0), actions); Hit(e.entries, Name(1), e.clock) != Hit(p.entries, Name(1), e.clock)
    ensures !CanLookLike(c, Empty(0), actions, p)
  {
    if CanLookLike(c, Empty(0), actions, p) {
      var run :| Retargets(run, actions) && Runs(c, Empty(0), run) &&
        SameHits(Exec(c, Empty(0), run).entries, p.entries, Exec(c, Empty(0), run).clock);
      OnlyWay(c, Empty(0), actions, run);
    }
  }

  /** Whatever `Set`s a run consists of and whatever deletions of expired entries are added to it,
      a choice of victims makes all later lookups answer as before, exactly if the table is
      unlimited or limited to the hundred entries that an eviction samples. */
  lemma DeletionsAreInvisibleExactlyIf(c: Config)
    requires 0 < c.minTTL <= c.maxTTL
    ensures (forall start, puts, actions :: Invisible(c, start, puts, actions)) <==> c.maxEntries <= 100
  {
    if c.maxEntries <= SAMPLE {
      forall start, puts, actions
        ensures Invisible(c, start, puts, actions)
      {
        if Runs(c, Empty(start), puts) && Retargets(PutsOnly(actions), puts) && Timely(start, actions) {
          AddingFollows(c, Empty(start), actions, Empty(start), puts);
        }
      }
    } else {
      var puts, actions := SweepShows(c);
    }
  }
}
