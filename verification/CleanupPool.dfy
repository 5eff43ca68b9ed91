/** The cleanup's worker pool: one sender, a buffered channel, any number of workers and a stop
    signal that may come at any time. Workers are interchangeable, so what they hold is kept as
    multisets. */
module CleanupPool {

  datatype Pool = Pool(
    unsent: seq<string>,           // snapshot names not yet sent
    channel: seq<string>,
    held: multiset<string>,        // received, not yet validated
    failing: multiset<string>,     // found invalid, not yet appended to the result
    toRemove: seq<string>,
    validated: multiset<string>,   // every name handed to the validator so far
    rejected: multiset<string>,    // ... and every name it rejected
    dropped: multiset<string>,     // received by a worker that stopped instead
    closed: bool,                  // the sender closed the channel
    interrupted: bool,             // ... because of the stop signal, abandoning the cleanup
    stop: bool)

  datatype Action =
    | Send
    | Receive
    | Validate(name: string, valid: bool)
    | Report(name: string)
    | Quit(name: string)
    | Close
    | Interrupt
    | Stop

  ghost predicate Enabled(capacity: nat, workers: nat, p: Pool, a: Action) {
    match a
    case Send => p.unsent != [] && !p.closed && |p.channel| < capacity
    case Receive => p.channel != [] && |p.held| + |p.failing| < workers
    case Validate(name, _) => name in p.held
    case Report(name) => name in p.failing
    case Quit(name) => name in p.held && p.stop
    case Close => p.unsent == [] && !p.closed
    case Interrupt => p.unsent != [] && p.stop && !p.closed
    case Stop => true
  }

  ghost function Do(p: Pool, a: Action): Pool {
    match a
    case Send => if p.unsent == [] then p else p.(channel := p.channel + [p.unsent[0]], unsent := p.unsent[1..])
    case Receive => if p.channel == [] then p else p.(held := p.held + multiset{p.channel[0]}, channel := p.channel[1..])
    case Validate(name, valid) =>
      var bad := if valid then multiset{} else multiset{name};
      p.(held := p.held - multiset{name}, validated := p.validated + multiset{name},
         rejected := p.rejected + bad, failing := p.failing + bad)
    case Report(name) => p.(failing := p.failing - multiset{name}, toRemove := p.toRemove + [name])
    case Quit(name) => p.(held := p.held - multiset{name}, dropped := p.dropped + multiset{name})
    case Close => p.(closed := true)
    case Interrupt => p.(closed := true, interrupted := true)
    case Stop => p.(stop := true)
  }

  ghost function Begin(snapshot: seq<string>): Pool {
    Pool(snapshot, [], multiset{}, multiset{}, [], multiset{}, multiset{}, multiset{}, false, false, false)
  }

  ghost predicate Runs(capacity: nat, workers: nat, p: Pool, run: seq<Action>)
    decreases |run|
  {
    run == [] || (Enabled(capacity, workers, p, run[0]) && Runs(capacity, workers, Do(p, run[0]), run[1..]))
  }

  ghost function Exec(p: Pool, run: seq<Action>): Pool
    decreases |run|
  {
    if run == [] then p else Exec(Do(p, run[0]), run[1..])
  }

  /** How often a name occurs in the places a snapshot name can be in. */
  ghost function Places(p: Pool, n: string): nat {
    multiset(p.unsent)[n] + multiset(p.channel)[n] + p.held[n] + p.validated[n] + p.dropped[n]
  }

  /** Every snapshot name is in exactly one place, every rejected name on its way to removal. */
  ghost predicate Accounted(snapshot: seq<string>, p: Pool, n: string) {
    && Places(p, n) == multiset(snapshot)[n]
    && p.failing[n] + multiset(p.toRemove)[n] == p.rejected[n] <= p.validated[n]
  }

  ghost predicate Conserved(snapshot: seq<string>, p: Pool) {
    && (forall n :: Accounted(snapshot, p, n))
    && (!p.stop ==> p.dropped == multiset{} && !p.interrupted)
    && (p.closed && !p.interrupted ==> p.unsent == [])
  }

  lemma FirstOf(s: seq<string>, n: string)
    requires s != []
    ensures multiset(s)[n] == multiset(s[1..])[n] + (if s[0] == n then 1 else 0)
  {
    assert s == [s[0]] + s[1..];
  }

  lemma LastOf(s: seq<string>, last: string, n: string)
    ensures multiset(s + [last])[n] == multiset(s)[n] + (if last == n then 1 else 0)
  {
  }

  lemma SendAccounts(snapshot: seq<string>, p: Pool, n: string)
    requires p.unsent != [] && Accounted(snapshot, p, n)
    ensures Accounted(snapshot, Do(p, Send), n)
  {
    FirstOf(p.unsent, n);
    LastOf(p.channel, p.unsent[0], n);
  }

  lemma ReceiveAccounts(snapshot: seq<string>, p: Pool, n: string)
    requires p.channel != [] && Accounted(snapshot, p, n)
    ensures Accounted(snapshot, Do(p, Receive), n)
  {
    FirstOf(p.channel, n);
  }

  lemma ReportAccounts(snapshot: seq<string>, p: Pool, name: string, n: string)
    requires name in p.failing && Accounted(snapshot, p, n)
    ensures Accounted(snapshot, Do(p, Report(name)), n)
  {
    LastOf(p.toRemove, name, n);
  }

  lemma DoAccounts(capacity: nat, workers: nat, snapshot: seq<string>, p: Pool, a: Action, n: string)
    requires Enabled(capacity, workers, p, a) && Accounted(snapshot, p, n)
    ensures Accounted(snapshot, Do(p, a), n)
  {
    match a
    case Send => SendAccounts(snapshot, p, n);
    case Receive => ReceiveAccounts(snapshot, p, n);
    case Report(name) => ReportAccounts(snapshot, p, name, n);
    case _ =>
  }

  lemma DoConserves(capacity: nat, workers: nat, snapshot: seq<string>, p: Pool, a: Action)
    requires Enabled(capacity, workers, p, a) && Conserved(snapshot, p)
    ensures Conserved(snapshot, Do(p, a))
  {
    forall n
      ensures Accounted(snapshot, Do(p, a), n)
    {
      DoAccounts(capacity, workers, snapshot, p, a, n);
    }
  }

  lemma {:induction false} ExecConserves(capacity: nat, workers: nat, snapshot: seq<string>, p: Pool, run: seq<Action>)
    requires Runs(capacity, workers, p, run) && Conserved(snapshot, p)
    ensures Conserved(snapshot, Exec(p, run))
    decreases |run|
  {
    if run != [] {
      DoConserves(capacity, workers, snapshot, p, run[0]);
      ExecConserves(capacity, workers, snapshot, Do(p, run[0]), run[1..]);
    }
  }

  /** All workers have returned after the channel was closed and emptied. */
  ghost predicate Finished(p: Pool) {
    p.closed && p.channel == [] && p.held == multiset{} && p.failing == multiset{}
  }

  /** However the workers interleave, a cleanup that is not stopped validates every snapshot
      name exactly once and removes exactly the names that were rejected. */
  lemma ValidatesEachNameOnce(capacity: nat, workers: nat, snapshot: seq<string>, run: seq<Action>)
    requires Runs(capacity, workers, Begin(snapshot), run)
    requires var p := Exec(Begin(snapshot), run); Finished(p) && !p.stop
    ensures var p := Exec(Begin(snapshot), run);
            p.validated == multiset(snapshot) && multiset(p.toRemove) == p.rejected
  {
    ExecConserves(capacity, workers, snapshot, Begin(snapshot), run);
    var p := Exec(Begin(snapshot), run);
    assert forall n :: Accounted(snapshot, p, n) ==>
      p.validated[n] == multiset(snapshot)[n] && multiset(p.toRemove)[n] == p.rejected[n];
  }

  /** At every moment of every cleanup, stopped or not, a name up for removal is a snapshot name
      that the validator rejected. */
  lemma RemovesOnlyRejected(capacity: nat, workers: nat, snapshot: seq<string>, run: seq<Action>, n: string)
    requires Runs(capacity, workers, Begin(snapshot), run)
    requires n in Exec(Begin(snapshot), run).toRemove
    ensures n in Exec(Begin(snapshot), run).rejected && n in snapshot
  {
    ExecConserves(capacity, workers, snapshot, Begin(snapshot), run);
    var p := Exec(Begin(snapshot), run);
    assert n in multiset(p.toRemove) && Accounted(snapshot, p, n);
    assert multiset(snapshot)[n] > 0;
  }
}
