/** When a removed name stays out of the learned-domains file, and when it can come back. */
module StoreRemoval {
  import opened Prelude
  import opened StoreText
  import opened StoreProtocol

  /** Writing `m` to the file makes it hold `n`. If `m` is clean this means `m == n`. */
  ghost predicate Yields(m: string, n: string) {
    n in Load(Line(m))
  }

  ghost predicate SomeYields(names: seq<string>, n: string) {
    exists i :: 0 <= i < |names| && Yields(names[i], n)
  }

  ghost predicate AnyYields(names: set<string>, n: string) {
    exists m :: m in names && Yields(m, n)
  }

  /** A copy of `n` is left somewhere from where it can reach the file: in memory or with a
      caller; in the buffer, whatever its stamp; in a batch that is current and that no rewrite
      about to bump the generation will overtake; or in what is being written. */
  ghost predicate Lurks(s: State, n: string) {
    || AnyYields(s.mem, n)
    || AnyYields(s.callers.counting.Values, n) || AnyYields(s.callers.buffering.Values, n)
    || SomeYields(s.buf, n)
    || (s.flusher.Drained? && Current(s) && SomeYields(s.flusher.batch, n))
    || (s.flusher.Appending? && SomeYields(s.flusher.rest, n))
    || (s.rewriter.Copied? && SomeYields(s.rewriter.order, n))
  }

  /** The drained batch will be found current. */
  ghost predicate Current(s: State)
    requires s.flusher.Drained?
  {
    s.flusher.stamp == s.gen && s.rewriter != Locked
  }

  /** The action does not add `n`, or a name that is read back as `n`. */
  ghost predicate Spares(a: Action, n: string) {
    a.Insert? ==> !Yields(a.name, n)
  }

  ghost predicate AllSpare(run: seq<Action>, n: string) {
    forall i :: 0 <= i < |run| ==> Spares(run[i], n)
  }

  /** Without anybody adding it, the name gets into the file. */
  ghost predicate ComesBack(s: State, n: string) {
    exists run :: Runs(s, run) && AllSpare(run, n) && n in Load(Exec(s, run).file)
  }

  // ----- Without a copy it stays away -----

  lemma HeldStayAway(s: State, a: Action, n: string)
    requires Enabled(s, a) && Shape(s) && !Lurks(s, n) && Spares(a, n)
    ensures !AnyYields(Do(s, a).mem, n)
    ensures !AnyYields(Do(s, a).callers.counting.Values, n) && !AnyYields(Do(s, a).callers.buffering.Values, n)
  {
    var c := s.callers;
    match a
    case Insert(t, name) => InsertedIsHeld(c.counting, t, name);
    case CountLearned(t) =>
      OthersStayHeld(c.counting, t);
      InsertedIsHeld(c.buffering, t, c.counting[t]);
    case Buffer(t) => OthersStayHeld(c.buffering, t);
    case _ =>
  }

  lemma DoKeepsAway(s: State, a: Action, n: string)
    requires Enabled(s, a) && Shape(s) && !Lurks(s, n) && n !in Load(s.file) && Spares(a, n)
    ensures !Lurks(Do(s, a), n) && n !in Load(Do(s, a).file)
  {
    HeldStayAway(s, a, n);
    match a
    case Buffer(t) => assert s.callers.buffering[t] in s.callers.buffering.Values;
    case AppendLine => AppendIsUnion(s.file, Line(s.flusher.rest[0]));
    case Copy(order) => assert forall i :: 0 <= i < |order| ==> order[i] in s.mem;
    case Replace => LoadPrint(s.rewriter.order, n);
    case _ =>
  }

  /** A name with no copy left stays out of the file, and a clean one out of memory, in every run
      that does not add it again. */
  lemma {:induction false} RemovalIsDurable(s: State, run: seq<Action>, n: string)
    requires Runs(s, run) && Shape(s) && AllSpare(run, n) && !Lurks(s, n) && n !in Load(s.file)
    ensures n !in Load(Exec(s, run).file) && (Clean(n) ==> n !in Exec(s, run).mem)
    decreases |run|
  {
    if run == [] {
      LineRoundTrip(n);
      assert Clean(n) ==> Yields(n, n);
    } else {
      DoKeepsAway(s, run[0], n);
      DoKeepsShape(s, run[0]);
      RemovalIsDurable(Do(s, run[0]), run[1..], n);
    }
  }

  // ----- With a copy it can come back -----

  lemma Earlier(s: State, a: Action, n: string)
    requires Enabled(s, a) && Spares(a, n) && ComesBack(Do(s, a), n)
    ensures ComesBack(s, n)
  {
    var run :| Runs(Do(s, a), run) && AllSpare(run, n) && n in Load(Exec(Do(s, a), run).file);
    var all := [a] + run;
    assert all[0] == a && all[1..] == run;
    assert Runs(s, all) && Exec(s, all) == Exec(Do(s, a), run);
    assert AllSpare(all, n) by {
      assert forall i :: 1 <= i < |all| ==> all[i] == run[i - 1];
    }
  }

  lemma IsBack(s: State, n: string)
    requires n in Load(s.file)
    ensures ComesBack(s, n)
  {
    assert Runs(s, []) && AllSpare([], n) && Exec(s, []) == s;
  }

  /** From the lines being appended. */
  lemma {:induction false} FromAppending(s: State, n: string)
    requires Shape(s) && s.flusher.Appending? && SomeYields(s.flusher.rest, n)
    ensures ComesBack(s, n)
    decreases |s.flusher.rest|
  {
    var rest, s' := s.flusher.rest, Do(s, AppendLine);
    DoKeepsShape(s, AppendLine);
    if Yields(rest[0], n) {
      AppendIsUnion(s.file, Line(rest[0]));
      IsBack(s', n);
    } else {
      var i :| 0 <= i < |rest| && Yields(rest[i], n);
      assert rest[1..][i - 1] == rest[i];
      FromAppending(s', n);
    }
    Earlier(s, AppendLine, n);
  }

  /** From the listing of a rewrite. */
  lemma FromCopy(s: State, n: string)
    requires s.rewriter.Copied? && SomeYields(s.rewriter.order, n)
    ensures ComesBack(s, n)
  {
    var i :| 0 <= i < |s.rewriter.order| && Yields(s.rewriter.order[i], n);
    LoadPrint(s.rewriter.order, n);
    IsBack(Do(s, Replace), n);
    Earlier(s, Replace, n);
  }

  lemma {:induction false} Lists(names: set<string>) returns (order: seq<string>)
    ensures (set n | n in order) == names
  {
    if names == {} {
      order := [];
    } else {
      var x :| x in names;
      var others := Lists(names - {x});
      order := others + [x];
      assert (set n | n in order) == (set n | n in others) + {x};
    }
  }

  /** How far a rewrite is from its end. */
  ghost function RewriteLeft(r: Rewriter): nat {
    match r
    case NoRewrite => 0
    case Copied(_) => 1
    case Bumped => 2
    case Locked => 3
  }

  /** The next step of a rewrite in progress. */
  lemma RewriteStep(s: State, n: string) returns (a: Action)
    requires Shape(s) && s.rewriter != NoRewrite
    ensures Enabled(s, a) && Spares(a, n) && Shape(Do(s, a))
    ensures RewriteLeft(Do(s, a).rewriter) < RewriteLeft(s.rewriter)
    ensures var e := Do(s, a);
            e == s.(rewriter := e.rewriter, gen := e.gen, file := e.file) && (s.rewriter != Locked ==> e.gen == s.gen)
    ensures s.rewriter == Bumped ==> Do(s, a).rewriter.Copied? && (set x | x in Do(s, a).rewriter.order) == s.mem
    ensures s.rewriter == Locked ==> Do(s, a).rewriter == Bumped
  {
    if s.rewriter == Locked {
      a := Bump;
    } else if s.rewriter == Bumped {
      var order := Lists(s.mem);
      a := Copy(order);
    } else {
      a := Replace;
    }
    DoKeepsShape(s, a);
  }

  /** From a batch that is current. */
  lemma {:induction false} FromBatch(s: State, n: string)
    requires Shape(s) && s.flusher.Drained? && Current(s) && SomeYields(s.flusher.batch, n)
    ensures ComesBack(s, n)
    decreases RewriteLeft(s.rewriter)
  {
    if s.rewriter == NoRewrite {
      DoKeepsShape(s, Check);
      FromAppending(Do(s, Check), n);
      Earlier(s, Check, n);
    } else {
      var a := RewriteStep(s, n);
      FromBatch(Do(s, a), n);
      Earlier(s, a, n);
    }
  }

  /** How far a flush is from its end. */
  ghost function FlushLeft(f: Flusher): nat {
    match f
    case Resting => 0
    case Appending(rest) => |rest| + 1
    case Drained(batch, _) => |batch| + 2
  }

  /** The next step of a flush in progress. */
  lemma FlushStep(s: State, n: string) returns (a: Action)
    requires Shape(s) && s.rewriter == NoRewrite && s.flusher != Resting
    ensures Enabled(s, a) && Spares(a, n) && Shape(Do(s, a))
    ensures FlushLeft(Do(s, a).flusher) < FlushLeft(s.flusher)
    ensures Do(s, a) == s.(flusher := Do(s, a).flusher, file := Do(s, a).file)
    ensures s.flusher.Appending? ==> !Do(s, a).flusher.Drained?
  {
    if s.flusher.Drained? {
      a := Check;
    } else if s.flusher.rest == [] {
      a := FinishAppend;
    } else {
      a := AppendLine;
    }
    DoKeepsShape(s, a);
  }

  lemma {:induction false} FreshNumber(used: set<nat>, k: nat) returns (t: nat)
    ensures t >= k && t !in used
    decreases used
  {
    if k !in used {
      t := k;
    } else {
      t := FreshNumber(used - {k}, k + 1);
    }
  }

  ghost function Letters(k: nat): string {
    seq(k, i => 'a')
  }

  lemma {:induction false} FreshName(used: set<string>, k: nat) returns (name: string)
    requires k > 0
    ensures Clean(name) && name !in used && |name| >= k
    decreases used
  {
    if Letters(k) !in used {
      name := Letters(k);
    } else {
      name := FreshName(used - {Letters(k)}, k + 1);
    }
  }

  /** Somebody can always add a name that is new and not read back as `n`. */
  lemma NewcomerFor(s: State, n: string) returns (t: nat, name: string)
    ensures Enabled(s, Insert(t, name)) && Spares(Insert(t, name), n)
  {
    t := FreshNumber(s.callers.counting.Keys + s.callers.buffering.Keys, 0);
    name := FreshName(s.mem + {n}, 1);
    LineRoundTrip(name);
  }

  /** An addition stamps the buffer with the current generation and keeps what it held. */
  lemma StampRefreshed(s: State, n: string)
    requires Shape(s) && s.flusher == Resting && s.rewriter == NoRewrite && SomeYields(s.buf, n)
    ensures ComesBack(s, n)
  {
    var t, name := NewcomerFor(s, n);
    var s1 := Do(s, Insert(t, name));
    var s2 := Do(s1, CountLearned(t));
    var s3 := Do(s2, Buffer(t));
    DoKeepsShape(s, Insert(t, name));
    DoKeepsShape(s1, CountLearned(t));
    DoKeepsShape(s2, Buffer(t));
    assert SomeYields(s3.buf, n) by {
      var i :| 0 <= i < |s.buf| && Yields(s.buf[i], n);
      assert s3.buf[i] == s.buf[i];
    }
    DoKeepsShape(s3, Drain);
    FromBatch(Do(s3, Drain), n);
    Earlier(s3, Drain, n);
    Earlier(s2, Buffer(t), n);
    Earlier(s1, CountLearned(t), n);
    Earlier(s, Insert(t, name), n);
  }

  /** From the buffer, whatever its stamp. */
  lemma {:induction false} FromBuffer(s: State, n: string)
    requires Shape(s) && SomeYields(s.buf, n)
    ensures ComesBack(s, n)
    decreases RewriteLeft(s.rewriter), FlushLeft(s.flusher)
  {
    if s.rewriter != NoRewrite {
      var a := RewriteStep(s, n);
      FromBuffer(Do(s, a), n);
      Earlier(s, a, n);
    } else if s.flusher != Resting {
      var a := FlushStep(s, n);
      FromBuffer(Do(s, a), n);
      Earlier(s, a, n);
    } else {
      StampRefreshed(s, n);
    }
  }

  /** From a caller that is about to buffer its name. */
  lemma FromBuffering(s: State, t: nat, n: string)
    requires Shape(s) && t in s.callers.buffering && Yields(s.callers.buffering[t], n)
    ensures ComesBack(s, n)
  {
    var s' := Do(s, Buffer(t));
    DoKeepsShape(s, Buffer(t));
    assert s'.buf[|s.buf|] == s.callers.buffering[t];
    FromBuffer(s', n);
    Earlier(s, Buffer(t), n);
  }

  lemma FromCounting(s: State, t: nat, n: string)
    requires Shape(s) && t in s.callers.counting && Yields(s.callers.counting[t], n)
    ensures ComesBack(s, n)
  {
    DoKeepsShape(s, CountLearned(t));
    FromBuffering(Do(s, CountLearned(t)), t, n);
    Earlier(s, CountLearned(t), n);
  }

  /** How far the next listing of memory is. */
  ghost function ListingIn(s: State): nat {
    match s.rewriter
    case Bumped => 0
    case Locked => 1
    case NoRewrite => 2 + if s.flusher.Appending? then FlushLeft(s.flusher) else 0
    case Copied(_) => 3
  }

  /** From memory, by a rewrite. */
  lemma {:induction false} FromMemory(s: State, n: string)
    requires Shape(s) && AnyYields(s.mem, n)
    ensures ComesBack(s, n)
    decreases ListingIn(s)
  {
    if s.rewriter == NoRewrite {
      var a := LockFile;
      if s.flusher.Appending? {
        a := FlushStep(s, n);
      }
      DoKeepsShape(s, a);
      FromMemory(Do(s, a), n);
      Earlier(s, a, n);
    } else {
      var a := RewriteStep(s, n);
      if s.rewriter == Bumped {
        var m :| m in s.mem && Yields(m, n);
        var order := Do(s, a).rewriter.order;
        assert m in (set x | x in order);
        FromCopy(Do(s, a), n);
      } else {
        FromMemory(Do(s, a), n);
      }
      Earlier(s, a, n);
    }
  }

  /** Under every interleaving, a name that is not in the file can get there without being added
      again exactly when a copy lurks. */
  lemma ReturnsExactlyIfLurking(s: State, n: string)
    requires Shape(s) && n !in Load(s.file)
    ensures ComesBack(s, n) <==> Lurks(s, n)
  {
    if AnyYields(s.mem, n) {
      FromMemory(s, n);
    } else if AnyYields(s.callers.counting.Values, n) {
      var t :| t in s.callers.counting && Yields(s.callers.counting[t], n);
      FromCounting(s, t, n);
    } else if AnyYields(s.callers.buffering.Values, n) {
      var t :| t in s.callers.buffering && Yields(s.callers.buffering[t], n);
      FromBuffering(s, t, n);
    } else if SomeYields(s.buf, n) {
      FromBuffer(s, n);
    } else if s.flusher.Drained? && Current(s) && SomeYields(s.flusher.batch, n) {
      FromBatch(s, n);
    } else if s.flusher.Appending? && SomeYields(s.flusher.rest, n) {
      FromAppending(s, n);
    } else if s.rewriter.Copied? && SomeYields(s.rewriter.order, n) {
      FromCopy(s, n);
    } else if ComesBack(s, n) {
      var run :| Runs(s, run) && AllSpare(run, n) && n in Load(Exec(s, run).file);
      RemovalIsDurable(s, run, n);
    }
  }

  /** At every moment of every run of the store: a clean name that is neither in memory nor in
      the file stays out of the file until somebody adds it again, unless a copy is with a
      caller, in the buffer, in a current batch or in what is being written; and then it can
      come back. */
  lemma RemovedNameReturnsExactlyIf(start: State, before: seq<Action>, n: string)
    requires Init(start) && Runs(start, before)
    requires var s := Exec(start, before); n !in s.mem && n !in Load(s.file)
    ensures var s := Exec(start, before); ComesBack(s, n) <==> Lurks(s, n)
  {
    InitInv(start);
    ExecKeepsInv(start, before);
    ReturnsExactlyIfLurking(Exec(start, before), n);
  }
}
