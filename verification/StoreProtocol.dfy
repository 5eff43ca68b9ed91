/** The learned-domain store under concurrency: adders, removers, the cleanup, the flusher and
    rewriters of the file, interleaved at every lock, metric update and line written. File
    operations succeed. */
module StoreProtocol {
  import opened Prelude
  import opened StoreText

  /** The single flusher: between ticks, holding a drained batch with its stamp, or writing
      under the I/O lock. */
  datatype Flusher = Resting | Drained(batch: seq<string>, stamp: nat) | Appending(rest: seq<string>)

  /** The rewriter inside the I/O lock, if any. */
  datatype Rewriter = NoRewrite | Locked | Bumped | Copied(order: seq<string>)

  /** Callers that are midway: they inserted a name and did not count it yet, counted it and
      did not buffer it yet, or deleted a name and did not count that yet. */
  datatype Callers = Callers(counting: map<nat, string>, buffering: map<nat, string>, removing: set<nat>)

  /** What happened since the start, and the metrics. */
  datatype History = History(loaded: set<string>, added: set<string>, learned: nat, removed: nat, cleaned: nat)

  datatype State = State(
    mem: set<string>,
    callers: Callers,
    buf: seq<string>, bufGen: nat, gen: nat,
    flusher: Flusher, rewriter: Rewriter,
    file: string,
    past: History)

  datatype Action =
    | Insert(t: nat, name: string)      // Add: the name enters memory
    | CountLearned(t: nat)              // Add: the metric
    | Buffer(t: nat)                    // persist: append to the buffer, stamp it
    | Delete(t: nat, name: string)      // Remove: the name leaves memory
    | CountRemoved(t: nat)              // Remove: the metric
    | CleanOut(names: set<string>)      // cleanup: delete and count under one lock
    | Drain                             // flushPersist: take the buffer and its stamp
    | Check                             // flushPersist: take the I/O lock, compare generations
    | AppendLine                        // flushPersist: write one line
    | FinishAppend                      // flushPersist: release the I/O lock
    | LockFile                          // writeAll: take the I/O lock
    | Bump                              // writeAll: next generation
    | Copy(order: seq<string>)          // writeAll: copy memory, in some order
    | Replace                           // writeAll: rename over the file, release the lock

  /** A store that has just loaded its file. */
  ghost predicate Init(s: State) {
    && s.mem == s.past.loaded == Load(s.file) && Appendable(s.file)
    && s.callers == Callers(map[], map[], {})
    && s.buf == [] && s.bufGen == s.gen == 0
    && s.flusher == Resting && s.rewriter == NoRewrite
    && s.past.added == {} && s.past.learned == s.past.removed == s.past.cleaned == 0
  }

  ghost predicate Enabled(s: State, a: Action) {
    match a
    case Insert(t, name) => t !in s.callers.counting && t !in s.callers.buffering && name !in s.mem
    case CountLearned(t) => t in s.callers.counting
    case Buffer(t) => t in s.callers.buffering
    case Delete(t, name) => t !in s.callers.removing && name in s.mem
    case CountRemoved(t) => t in s.callers.removing
    case CleanOut(_) => true
    case Drain => s.flusher == Resting && s.buf != []
    case Check => s.flusher.Drained? && s.rewriter == NoRewrite
    case AppendLine => s.flusher.Appending? && s.flusher.rest != []
    case FinishAppend => s.flusher == Appending([])
    case LockFile => s.rewriter == NoRewrite && !s.flusher.Appending?
    case Bump => s.rewriter == Locked
    case Copy(order) => s.rewriter == Bumped && (set n | n in order) == s.mem
    case Replace => s.rewriter.Copied?
  }

  ghost function Do(s: State, a: Action): State
    requires Enabled(s, a)
  {
    var c, p := s.callers, s.past;
    match a
    case Insert(t, name) =>
      s.(mem := s.mem + {name}, callers := c.(counting := c.counting[t := name]), past := p.(added := p.added + {name}))
    case CountLearned(t) =>
      s.(callers := c.(counting := c.counting - {t}, buffering := c.buffering[t := c.counting[t]]),
         past := p.(learned := p.learned + 1))
    case Buffer(t) =>
      s.(buf := s.buf + [c.buffering[t]], bufGen := s.gen, callers := c.(buffering := c.buffering - {t}))
    case Delete(t, name) =>
      s.(mem := s.mem - {name}, callers := c.(removing := c.removing + {t}))
    case CountRemoved(t) =>
      s.(callers := c.(removing := c.removing - {t}), past := p.(removed := p.removed + 1))
    case CleanOut(names) =>
      s.(mem := s.mem - names, past := p.(cleaned := p.cleaned + |s.mem * names|))
    case Drain => s.(flusher := Drained(s.buf, s.bufGen), buf := [], bufGen := 0)
    case Check => s.(flusher := if s.gen == s.flusher.stamp then Appending(s.flusher.batch) else Resting)
    case AppendLine => s.(file := s.file + Line(s.flusher.rest[0]), flusher := Appending(s.flusher.rest[1..]))
    case FinishAppend => s.(flusher := Resting)
    case LockFile => s.(rewriter := Locked)
    case Bump => s.(rewriter := Bumped, gen := s.gen + 1)
    case Copy(order) => s.(rewriter := Copied(order))
    case Replace => s.(file := Print(s.rewriter.order), rewriter := NoRewrite)
  }

  /** A run is any sequence of enabled actions. */
  ghost predicate Runs(s: State, run: seq<Action>)
    decreases |run|
  {
    run == [] || (Enabled(s, run[0]) && Runs(Do(s, run[0]), run[1..]))
  }

  ghost function Exec(s: State, run: seq<Action>): State
    requires Runs(s, run)
    decreases |run|
  {
    if run == [] then s else Exec(Do(s, run[0]), run[1..])
  }

  // ----- No learned name is lost -----

  /** The name will be in the file without anybody adding it again. */
  ghost predicate Safe(s: State, n: string) {
    || n in s.callers.counting.Values || n in s.callers.buffering.Values
    || (n in s.buf && s.bufGen == s.gen)
    || (s.flusher.Drained? && s.flusher.stamp == s.gen && n in s.flusher.batch)
    || (s.flusher.Appending? && n in s.flusher.rest)
    || match s.rewriter
       case NoRewrite => n in Load(s.file)
       case Locked => true
       case Bumped => true
       case Copied(order) => n in order
  }

  ghost predicate AllSafe(s: State) {
    forall n {:trigger Safe(s, n)} :: n in s.mem && Clean(n) ==> Safe(s, n)
  }

  ghost predicate Shape(s: State) {
    && Appendable(s.file)
    && s.callers.counting.Keys !! s.callers.buffering.Keys
    && (s.rewriter != NoRewrite ==> !s.flusher.Appending?)
    && s.bufGen <= s.gen && (s.flusher.Drained? ==> s.flusher.stamp <= s.gen)
  }

  lemma InsertedIsHeld(m: map<nat, string>, t: nat, name: string)
    requires t !in m
    ensures m[t := name].Values == m.Values + {name}
  {
    assert m[t := name][t] == name;
    assert forall k :: k in m ==> m[t := name][k] == m[k];
  }

  lemma OthersStayHeld(m: map<nat, string>, t: nat)
    requires t in m
    ensures m.Values == (m - {t}).Values + {m[t]}
  {
    assert forall k :: k in m && k != t ==> (m - {t})[k] == m[k];
  }

  lemma DoKeepsSafe(s: State, a: Action, n: string)
    requires Enabled(s, a) && Shape(s)
    requires n in Do(s, a).mem && Clean(n) && (n in s.mem ==> Safe(s, n))
    ensures Safe(Do(s, a), n)
  {
    var c := s.callers;
    match a
    case Insert(t, name) => InsertedIsHeld(c.counting, t, name);
    case CountLearned(t) =>
      OthersStayHeld(c.counting, t);
      InsertedIsHeld(c.buffering, t, c.counting[t]);
    case Buffer(t) => OthersStayHeld(c.buffering, t);
    case AppendLine =>
      AppendIsUnion(s.file, Line(s.flusher.rest[0]));
      LineRoundTrip(n);
    case Replace =>
      if n in s.rewriter.order {
        var i :| 0 <= i < |s.rewriter.order| && s.rewriter.order[i] == n;
        LineRoundTrip(n);
        LoadPrint(s.rewriter.order, n);
      }
    case _ =>
  }

  lemma DoKeepsShape(s: State, a: Action)
    requires Enabled(s, a) && Shape(s)
    ensures Shape(Do(s, a))
  {
    if a.Replace? {
      PrintIsAppendable(s.rewriter.order);
    } else if a.AppendLine? {
      LinesAreAppendable(s.file, s.flusher.rest[0]);
    }
  }

  // ----- Nothing is invented -----

  /** Read from a line that somebody wrote for a loaded or added name. */
  ghost predicate Traceable(p: History, x: string) {
    exists n :: n in p.loaded + p.added && x in Load(Line(n))
  }

  ghost predicate Known(p: History, names: seq<string>) {
    forall i :: 0 <= i < |names| ==> names[i] in p.loaded + p.added
  }

  ghost predicate NothingInvented(s: State) {
    var p := s.past;
    && s.mem <= p.loaded + p.added
    && s.callers.counting.Values <= p.added && s.callers.buffering.Values <= p.added
    && Known(p, s.buf)
    && (s.flusher.Drained? ==> Known(p, s.flusher.batch))
    && (s.flusher.Appending? ==> Known(p, s.flusher.rest))
    && (s.rewriter.Copied? ==> Known(p, s.rewriter.order))
    && forall x {:trigger Traceable(p, x)} :: x in Load(s.file) ==> Traceable(p, x)
  }

  lemma KnownGrows(p: History, q: History, names: seq<string>)
    requires Known(p, names) && p.loaded + p.added <= q.loaded + q.added
    ensures Known(q, names)
  {
  }

  lemma TraceableGrows(p: History, q: History, x: string)
    requires Traceable(p, x) && p.loaded + p.added <= q.loaded + q.added
    ensures Traceable(q, x)
  {
    var n :| n in p.loaded + p.added && x in Load(Line(n));
    assert n in q.loaded + q.added;
  }

  lemma FileStaysTraceable(s: State, a: Action, x: string)
    requires Enabled(s, a) && Shape(s) && NothingInvented(s)
    requires x in Load(Do(s, a).file)
    ensures Traceable(Do(s, a).past, x)
  {
    var s' := Do(s, a);
    if x in Load(s.file) {
      TraceableGrows(s.past, s'.past, x);
    } else if a.AppendLine? {
      AppendIsUnion(s.file, Line(s.flusher.rest[0]));
    } else {
      LoadPrint(s.rewriter.order, x);
    }
  }

  lemma NamesStayKnown(s: State, a: Action)
    requires Enabled(s, a) && Shape(s) && NothingInvented(s)
    ensures var s' := Do(s, a);
            && Known(s'.past, s'.buf)
            && (s'.flusher.Drained? ==> Known(s'.past, s'.flusher.batch))
            && (s'.flusher.Appending? ==> Known(s'.past, s'.flusher.rest))
            && (s'.rewriter.Copied? ==> Known(s'.past, s'.rewriter.order))
  {
    var s' := Do(s, a);
    if a.Insert? {
      KnownGrows(s.past, s'.past, s.buf);
    } else if a.Buffer? {
      assert s.callers.buffering[a.t] in s.callers.buffering.Values;
    } else if a.Copy? {
      forall i | 0 <= i < |a.order|
        ensures a.order[i] in s.past.loaded + s.past.added
      {
        assert a.order[i] in s.mem;
      }
    }
  }

  lemma HeldStaysKnown(s: State, a: Action)
    requires Enabled(s, a) && Shape(s) && NothingInvented(s)
    ensures var s' := Do(s, a);
            && s'.mem <= s'.past.loaded + s'.past.added
            && s'.callers.counting.Values <= s'.past.added && s'.callers.buffering.Values <= s'.past.added
  {
    var c := s.callers;
    match a
    case Insert(t, name) => InsertedIsHeld(c.counting, t, name);
    case CountLearned(t) =>
      OthersStayHeld(c.counting, t);
      InsertedIsHeld(c.buffering, t, c.counting[t]);
    case Buffer(t) => OthersStayHeld(c.buffering, t);
    case _ =>
  }

  // ----- Names are conserved -----

  /** Every name that came in is held or was taken out, up to metrics still to be updated. */
  ghost predicate Conserved(s: State) {
    |s.past.loaded| + s.past.learned + |s.callers.counting| ==
    |s.mem| + s.past.removed + |s.callers.removing| + s.past.cleaned
  }

  /** The sizes that make up the balance, apart from the metrics. */
  ghost function Midway(s: State): int {
    |s.mem| + |s.callers.removing| - |s.callers.counting|
  }

  ghost function Counted(p: History): int {
    p.learned - p.removed - p.cleaned
  }

  lemma SetGains<T>(s: set<T>, x: T)
    requires x !in s
    ensures |s + {x}| == |s| + 1
  {
  }

  lemma SetLoses<T>(s: set<T>, x: T)
    requires x in s
    ensures |s - {x}| == |s| - 1
  {
  }

  lemma SetSplits(a: set<string>, b: set<string>)
    ensures |a| == |a - b| + |a * b|
  {
    assert a == (a - b) + a * b;
  }

  lemma DoMovesMidway(s: State, a: Action)
    requires Enabled(s, a)
    ensures Midway(Do(s, a)) - Midway(s) == Counted(Do(s, a).past) - Counted(s.past)
    ensures Do(s, a).past.loaded == s.past.loaded
  {
    var c := s.callers;
    match a
    case Insert(t, name) =>
      MapGains(c.counting, t, name);
      SetGains(s.mem, name);
    case CountLearned(t) => MapLoses(c.counting, t);
    case Delete(t, name) =>
      SetLoses(s.mem, name);
      SetGains(c.removing, t);
    case CountRemoved(t) => SetLoses(c.removing, t);
    case CleanOut(names) => SetSplits(s.mem, names);
    case _ =>
  }

  // ----- Over whole runs -----

  ghost predicate Inv(s: State) {
    Shape(s) && AllSafe(s) && NothingInvented(s) && Conserved(s)
  }

  lemma InitInv(s: State)
    requires Init(s)
    ensures Inv(s)
  {
    forall x | x in Load(s.file)
      ensures Traceable(s.past, x)
    {
      LoadIsClean(s.file, x);
      LineRoundTrip(x);
      assert x in s.past.loaded + s.past.added;
    }
  }

  lemma DoKeepsInv(s: State, a: Action)
    requires Enabled(s, a) && Inv(s)
    ensures Inv(Do(s, a))
  {
    var s' := Do(s, a);
    DoKeepsShape(s, a);
    forall n | n in s'.mem && Clean(n)
      ensures Safe(s', n)
    {
      DoKeepsSafe(s, a, n);
    }
    forall x | x in Load(s'.file)
      ensures Traceable(s'.past, x)
    {
      FileStaysTraceable(s, a, x);
    }
    NamesStayKnown(s, a);
    HeldStaysKnown(s, a);
    DoMovesMidway(s, a);
  }

  lemma {:induction false} ExecKeepsInv(s: State, run: seq<Action>)
    requires Runs(s, run) && Inv(s)
    ensures Inv(Exec(s, run))
    decreases |run|
  {
    if run != [] {
      DoKeepsInv(s, run[0]);
      ExecKeepsInv(Do(s, run[0]), run[1..]);
    }
  }

  /** Under every interleaving, at every moment, every clean name in memory is in the file, in
      the hands of its adder, in a buffer or batch with the current stamp, or about to be
      copied by a rewrite; in particular a batch skipped for its stamp loses nothing. */
  lemma NoLearnedNameIsLost(s: State, run: seq<Action>, n: string)
    requires Init(s) && Runs(s, run)
    requires n in Exec(s, run).mem && Clean(n)
    ensures Safe(Exec(s, run), n)
  {
    InitInv(s);
    ExecKeepsInv(s, run);
  }

  /** Nobody is midway and the buffer is drained. */
  ghost predicate Quiet(s: State) {
    && s.callers == Callers(map[], map[], {})
    && s.buf == [] && s.flusher == Resting && s.rewriter == NoRewrite
  }

  /** Whenever the store is quiet, a restart would load exactly the clean ones among the names
      in memory, nothing that does not come from a loaded or added name, and the metrics add up:
      names loaded and learned are the names held, removed and cleaned out. */
  lemma QuietMeansDurable(s: State, run: seq<Action>)
    requires Init(s) && Runs(s, run) && Quiet(Exec(s, run))
    ensures var e := Exec(s, run);
            && (forall n :: n in e.mem ==> (n in Load(e.file) <==> Clean(n)))
            && (forall x :: x in Load(e.file) ==> Traceable(e.past, x))
            && |e.past.loaded| + e.past.learned == |e.mem| + e.past.removed + e.past.cleaned
  {
    InitInv(s);
    ExecKeepsInv(s, run);
    var e := Exec(s, run);
    forall n | n in e.mem
      ensures n in Load(e.file) <==> Clean(n)
    {
      if Clean(n) {
        assert Safe(e, n);
      } else if n in Load(e.file) {
        LoadIsClean(e.file, n);
      }
    }
  }

  lemma {:induction false} OneMore(s: State, run: seq<Action>, a: Action)
    requires Runs(s, run) && Enabled(Exec(s, run), a)
    ensures Runs(s, run + [a]) && Exec(s, run + [a]) == Do(Exec(s, run), a)
    decreases |run|
  {
    var all := run + [a];
    if run == [] {
      assert all[0] == a && all[1..] == [];
    } else {
      assert all[0] == run[0] && all[1..] == run[1..] + [a];
      OneMore(Do(s, run[0]), run[1..], a);
    }
  }

  // ----- Whole operations that nobody disturbs -----

  ghost predicate Unmanned(s: State) {
    s.callers == Callers(map[], map[], {}) && s.flusher == Resting && s.rewriter == NoRewrite
  }

  /** What one addition of a new name amounts to. */
  ghost function Learned(s: State, n: string): State {
    s.(mem := s.mem + {n}, buf := s.buf + [n], bufGen := s.gen,
       past := s.past.(added := s.past.added + {n}, learned := s.past.learned + 1))
  }

  lemma AddOne(s: State, run: seq<Action>, name: string) returns (longer: seq<Action>)
    requires Runs(s, run) && Unmanned(Exec(s, run)) && name !in Exec(s, run).mem
    ensures Runs(s, longer) && Exec(s, longer) == Learned(Exec(s, run), name)
  {
    OneMore(s, run, Insert(0, name));
    longer := run + [Insert(0, name)];
    OneMore(s, longer, CountLearned(0));
    longer := longer + [CountLearned(0)];
    OneMore(s, longer, Buffer(0));
    longer := longer + [Buffer(0)];
  }

  /** What one removal of a held name amounts to. */
  ghost function Removed(s: State, n: string): State {
    s.(mem := s.mem - {n}, past := s.past.(removed := s.past.removed + 1))
  }

  lemma RemoveOne(s: State, run: seq<Action>, name: string) returns (longer: seq<Action>)
    requires Runs(s, run) && Unmanned(Exec(s, run)) && name in Exec(s, run).mem
    ensures Runs(s, longer) && Exec(s, longer) == Removed(Exec(s, run), name)
  {
    OneMore(s, run, Delete(0, name));
    longer := run + [Delete(0, name)];
    OneMore(s, longer, CountRemoved(0));
    longer := longer + [CountRemoved(0)];
  }

  /** What one flush amounts to: the buffer reaches the file if its stamp is current. */
  ghost function Flushed(s: State): State {
    s.(buf := [], bufGen := 0, file := if s.bufGen == s.gen then s.file + Print(s.buf) else s.file)
  }

  lemma FlushAll(s: State, run: seq<Action>) returns (longer: seq<Action>)
    requires Runs(s, run) && Unmanned(Exec(s, run)) && Exec(s, run).buf != []
    ensures Runs(s, longer) && Exec(s, longer) == Flushed(Exec(s, run))
  {
    OneMore(s, run, Drain);
    longer := run + [Drain];
    OneMore(s, longer, Check);
    longer := longer + [Check];
    if Exec(s, longer).flusher.Appending? {
      longer := AppendAll(s, longer);
    }
  }

  lemma PrintFirst(file: string, rest: seq<string>)
    requires rest != []
    ensures file + Line(rest[0]) + Print(rest[1..]) == file + Print(rest)
  {
  }

  lemma {:induction false} AppendAll(s: State, run: seq<Action>) returns (longer: seq<Action>)
    requires Runs(s, run) && Exec(s, run).flusher.Appending?
    ensures Runs(s, longer)
    ensures var e := Exec(s, run); Exec(s, longer) == e.(file := e.file + Print(e.flusher.rest), flusher := Resting)
    decreases |Exec(s, run).flusher.rest|
  {
    var e := Exec(s, run);
    if e.flusher.rest == [] {
      OneMore(s, run, FinishAppend);
      longer := run + [FinishAppend];
      assert e.file + Print([]) == e.file;
    } else {
      OneMore(s, run, AppendLine);
      longer := AppendAll(s, run + [AppendLine]);
      PrintFirst(e.file, e.flusher.rest);
    }
  }

  /** What one rewrite amounts to. */
  ghost function Rewritten(s: State, order: seq<string>): State {
    s.(gen := s.gen + 1, file := Print(order))
  }

  lemma RewriteOnce(s: State, run: seq<Action>, order: seq<string>) returns (longer: seq<Action>)
    requires Runs(s, run) && Unmanned(Exec(s, run)) && (set n | n in order) == Exec(s, run).mem
    ensures Runs(s, longer) && Exec(s, longer) == Rewritten(Exec(s, run), order)
  {
    OneMore(s, run, LockFile);
    longer := run + [LockFile];
    OneMore(s, longer, Bump);
    longer := longer + [Bump];
    OneMore(s, longer, Copy(order));
    longer := longer + [Copy(order)];
    OneMore(s, longer, Replace);
    longer := longer + [Replace];
  }

  // ----- What a quiet file may still hold -----

  lemma RemovedWhileBuffered(s: State, a: string) returns (run: seq<Action>)
    requires Init(s) && s.file == "" && Clean(a)
    ensures Runs(s, run)
    ensures var e := Exec(s, run); Unmanned(e) && e.mem == {} && e.buf == [a] && e.file == ""
  {
    run := AddOne(s, [], a);
    run := RemoveOne(s, run, a);
    run := RewriteOnce(s, run, []);
  }

  /** The file is a superset of memory and no more: a name removed while it was buffered comes
      back once a later addition refreshes the stamp of the buffer, even though a rewrite took
      place in between. */
  lemma RemovedNameCanReturn(s: State, a: string, b: string) returns (run: seq<Action>)
    requires Init(s) && s.file == "" && Clean(a) && Clean(b)
    ensures Runs(s, run) && Quiet(Exec(s, run))
    ensures Exec(s, run).mem == {b} && Load(Exec(s, run).file) == {a, b}
  {
    run := RemovedWhileBuffered(s, a);
    run := AddOne(s, run, b);
    run := FlushAll(s, run);
    assert Exec(s, run).file == "" + Print([a, b]) == Print([a, b]);
    PrintRoundTrip([a, b]);
  }
}
