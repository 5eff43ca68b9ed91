/** The learned-domain store as an object: each method is one uninterrupted passage through the
    protocol, so everything proved of runs of the protocol holds of every sequence of calls. */
module Store {
  import opened Prelude
  import opened Names
  import opened StoreText
  import opened StoreProtocol

  class DomainStore {
    var domains: set<string>
    var persistBuf: seq<string>
    var persistBufGen: nat
    var writeGen: nat
    var file: string
    var learnedTotal: nat
    var storeRemoved: nat
    var storeCleaned: nat
    ghost var loaded: set<string>
    ghost var added: set<string>
    ghost var start: State
    ghost var run: seq<Action>

    /** The store between calls, as a state of the protocol. */
    ghost function View(): State
      reads this
    {
      State(domains, Callers(map[], map[], {}), persistBuf, persistBufGen, writeGen, Resting, NoRewrite, file,
            History(loaded, added, learnedTotal, storeRemoved, storeCleaned))
    }

    /** The store went through a run of the protocol. */
    ghost predicate Valid()
      reads this
    {
      Init(start) && Runs(start, run) && View() == Exec(start, run)
    }

    /** Opens the store on a file. The protocol needs a file whose last line is terminated
        or blank, which holds for every file the store itself has written. */
    constructor (text: string)
      ensures domains == Load(text) && file == text
      ensures Appendable(text) ==> Valid()
    {
      persistBuf, persistBufGen, writeGen, file := [], 0, 0, text;
      learnedTotal, storeRemoved, storeCleaned := 0, 0, 0;
      added := {};
      var names := ReadAll(text);
      domains, loaded := names, names;
      new;
      start, run := View(), [];
    }

    method IsIran(domain: string) returns (found: bool)
      ensures found <==> Matches(domains, Normalize(domain))
    {
      found := SuffixWalk(domains, domain);
    }

    method Count() returns (n: nat)
      requires Valid()
      ensures |loaded| + learnedTotal == n + storeRemoved + storeCleaned
    {
      InitInv(start);
      ExecKeepsInv(start, run);
      n := |domains|;
    }

    /** A new name enters memory and the buffer, which gets the current stamp; a known name
        changes nothing. */
    method Add(domain: string)
      requires Valid()
      modifies this
      ensures Valid()
      ensures var n, v := Normalize(domain), old(View());
              View() == if n in old(domains) then v else Learned(v, n)
    {
      var n := Normalize(domain);
      if n !in domains {
        run := AddOne(start, run, n);
        domains := domains + {n};
        added := added + {n};
        learnedTotal := learnedTotal + 1;
        persistBuf := persistBuf + [n];
        persistBufGen := writeGen;
      }
    }

    /** A name leaves memory; the file follows with the next rewrite. Only queries with no other
        parent in the store stop matching. */
    method Remove(domain: string)
      requires Valid()
      modifies this
      ensures Valid()
      ensures var n, v := Normalize(domain), old(View());
              View() == if n !in old(domains) then v else Removed(v, n)
    {
      var n := Normalize(domain);
      if n in domains {
        run := RemoveOne(start, run, n);
        domains := domains - {n};
        storeRemoved := storeRemoved + 1;
      }
    }

    /** Drains the buffer; its names reach the file unless a rewrite has happened since they
        were stamped, in which case the rewrite has written them. */
    method FlushPersist()
      requires Valid()
      modifies this
      ensures Valid()
      ensures View() == if old(persistBuf) == [] then old(View()) else Flushed(old(View()))
    {
      if |persistBuf| > 0 {
        run := FlushAll(start, run);
        var names, bufGen := persistBuf, persistBufGen;
        persistBuf, persistBufGen := [], 0;
        if writeGen == bufGen {
          var text := Render(names);
          file := file + text;
        }
      }
    }

    /** With the buffer drained, as after every flush, the file holds the clean names in memory, not
        the others, and nothing that was not written for a loaded or added name. */
    lemma Durable()
      requires Valid() && persistBuf == []
      ensures forall n :: n in domains ==> (n in Load(file) <==> Clean(n))
      ensures forall x :: x in Load(file) ==> Traceable(View().past, x)
    {
      QuietMeansDurable(start, run);
    }

    /** Rewrites the file from memory, in some order, under a new generation. */
    method WriteAll() returns (ghost order: seq<string>)
      requires Valid()
      modifies this
      ensures Valid()
      ensures (set n | n in order) == domains && View() == Rewritten(old(View()), order)
    {
      writeGen := writeGen + 1;
      var names := Listing();
      var text := Render(names);
      run := RewriteOnce(start, run, names);
      file := text;
      order := names;
    }

    /** Lines written one after the other. */
    method Render(names: seq<string>) returns (text: string)
      ensures text == Print(names)
    {
      text := "";
      for i := 0 to |names|
        invariant text + Print(names[i..]) == Print(names)
      {
        assert names[i..][1..] == names[i + 1..];
        text := text + Line(names[i]);
      }
      assert names[|names|..] == [];
    }

    /** The names in memory, in some order. */
    method Listing() returns (names: seq<string>)
      ensures (set n | n in names) == domains
    {
      names := [];
      var todo := domains;
      while todo != {}
        invariant todo <= domains && forall n :: n in names <==> n in domains - todo
        decreases |todo|
      {
        var d :| d in todo;
        names := names + [d];
        todo := todo - {d};
      }
    }

    /** The end of a cleanup: the names that failed validation and are still held go away, are
        counted, and the file is rewritten. */
    method FinishCleanup(toRemove: seq<string>) returns (ghost order: seq<string>)
      requires Valid()
      modifies this
      ensures Valid()
      ensures domains == old(domains) - set n | n in toRemove
      ensures storeCleaned == old(storeCleaned) + |old(domains) * set n | n in toRemove|
      ensures writeGen == old(writeGen) + 1 && persistBuf == old(persistBuf)
      ensures (set n | n in order) == domains && file == Print(order)
    {
      OneMore(start, run, CleanOut(set n | n in toRemove));
      run := run + [CleanOut(set n | n in toRemove)];
      var removed := DeleteAll(toRemove);
      storeCleaned := storeCleaned + removed;
      order := WriteAll();
    }

    method DeleteAll(toRemove: seq<string>) returns (removed: nat)
      modifies this`domains
      ensures domains == old(domains) - set n | n in toRemove
      ensures removed == |old(domains) * set n | n in toRemove|
    {
      removed := 0;
      ghost var seen := {};
      for i := 0 to |toRemove|
        invariant seen == set n | n in toRemove[..i]
        invariant domains == old(domains) - seen
        invariant removed == |old(domains) * seen|
      {
        assert toRemove[..i + 1] == toRemove[..i] + [toRemove[i]];
        if toRemove[i] in domains {
          assert old(domains) * (seen + {toRemove[i]}) == old(domains) * seen + {toRemove[i]};
          domains := domains - {toRemove[i]};
          removed := removed + 1;
        } else {
          assert old(domains) * (seen + {toRemove[i]}) == old(domains) * seen;
        }
        seen := seen + {toRemove[i]};
      }
      assert toRemove[..|toRemove|] == toRemove;
    }
  }
}
