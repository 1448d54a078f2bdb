/**
 Concurrent transactions on the in-memory store: what programs of adapter writes leave behind and
 what they are answered, whatever the order in which their steps interleave.
 */
module StoreTransactions {
  import opened Prelude
  import opened StoreState
  import opened TransactionLock
  import opened MemoryTransactions

  // ---------------------------------------------------------------- arrivals

  /** The handlers that arrive in a schedule, in order. */
  function Arrivals<S, R>(events: seq<Event<S, R>>): seq<Handler<S, R>> {
    if events == [] then []
    else (if events[0].Arrive? then [events[0].handler] else []) + Arrivals(events[1..])
  }

  lemma StepArrivals<S, R>(l: Lock<S, R>, e: Event<S, R>)
    requires TransactionLock.Apply(l, e).Some?
    ensures var l' := TransactionLock.Apply(l, e).value;
      && |l'.tickets| == |l.tickets| + (if e.Arrive? then 1 else 0)
      && (forall i | 0 <= i < |l.tickets| :: l'.tickets[i].handler == l.tickets[i].handler)
      && (e.Arrive? ==> l'.tickets[|l.tickets|].handler == e.handler)
  {
    hide Resolved;
  }

  /** Every arriving handler has the ticket of its turn, and only those have one. */
  lemma {:induction false} TicketsAreArrivals<S, R>(l: Lock<S, R>, events: seq<Event<S, R>>)
    requires TransactionLock.Run(l, events).Some?
    ensures var l' := TransactionLock.Run(l, events).value;
      && |l'.tickets| == |l.tickets| + |Arrivals(events)|
      && (forall i | 0 <= i < |l.tickets| :: l'.tickets[i].handler == l.tickets[i].handler)
      && (forall i | 0 <= i < |Arrivals(events)| :: l'.tickets[|l.tickets| + i].handler == Arrivals(events)[i])
    decreases |events|
  {
    hide TransactionLock.Apply;
    if events != [] {
      var next := TransactionLock.Apply(l, events[0]).value;
      StepArrivals(l, events[0]);
      TicketsAreArrivals(next, events[1..]);
      var n := |next.tickets| - |l.tickets|;
      forall i | 0 <= i < |Arrivals(events)|
        ensures TransactionLock.Run(l, events).value.tickets[|l.tickets| + i].handler == Arrivals(events)[i]
      {
        if i >= n {
          assert Arrivals(events)[i] == Arrivals(events[1..])[i - n];
          assert |l.tickets| + i == |next.tickets| + (i - n);
        }
      }
    }
  }

  // ---------------------------------------------------------------- one program alone

  /** With these answers the program has not ended before the last of them. */
  predicate Calls(p: Program, seen: seq<Answer>) {
    forall k | 0 <= k < |seen| :: p(seen[..k]).Call?
  }

  /** The writes a program makes, given the answers it gets. */
  function Issued(p: Program, seen: seq<Answer>): (r: seq<Write>)
    requires Calls(p, seen)
    ensures |r| == |seen|
    ensures forall k | 0 <= k < |seen| :: r[k] == p(seen[..k]).write
  {
    seq(|seen|, k requires 0 <= k < |seen| => p(seen[..k]).write)
  }

  /** Each answer is the one the adapter gives to its write after the writes before it. */
  ghost predicate Answered(writes: seq<Write>, before: Store, seen: seq<Answer>) {
    |writes| == |seen| && forall k | 0 <= k < |seen| :: seen[k] == Perform(writes[k], PerformAll(writes[..k], before)).1
  }

  /**
   The program runs from one store to the other: it makes writes one after another, each is answered
   as the adapter answers it, and when it finishes all its writes are there, when it fails none.
   */
  ghost predicate Performs(p: Program, before: Store, seen: seq<Answer>, committed: bool, after: Store) {
    && Calls(p, seen) && Answered(Issued(p, seen), before, seen)
    && if committed then p(seen).Finish? && after == PerformAll(Issued(p, seen), before)
       else p(seen).Fail? && after == before
  }

  lemma AnswersFit<S, R>(h: Handler<S, R>, store: S, n: nat)
    ensures |Alone(h, store, n).1| <= n
  {
  }

  lemma AloneNext<S, R>(h: Handler<S, R>, store: S, seen: seq<R>)
    requires seen != [] && Alone(h, store, |seen|).1 == seen
    ensures var n := |seen| - 1;
      && Alone(h, store, n).1 == seen[..n] && h(seen[..n]).Do?
      && Alone(h, store, |seen|).0 == h(seen[..n]).op(Alone(h, store, n).0).0
      && seen[n] == h(seen[..n]).op(Alone(h, store, n).0).1
  {
    AnswersFit(h, store, |seen| - 1);
  }

  lemma IssuedMore(p: Program, seen: seq<Answer>, next: Answer)
    requires Calls(p, seen) && p(seen).Call?
    ensures Calls(p, seen + [next])
    ensures Issued(p, seen + [next]) == Issued(p, seen) + [p(seen).write]
  {
    forall k | 0 <= k <= |seen| ensures (seen + [next])[..k] == seen[..k] {
    }
    assert seen[..|seen|] == seen;
  }

  lemma AnsweredMore(writes: seq<Write>, w: Write, before: Store, seen: seq<Answer>, next: Answer)
    requires Answered(writes, before, seen) && next == Perform(w, PerformAll(writes, before)).1
    ensures Answered(writes + [w], before, seen + [next])
  {
    hide Perform, PerformAll;
    forall k | 0 <= k < |writes| ensures (writes + [w])[..k] == writes[..k] {
    }
    assert (writes + [w])[..|writes|] == writes;
  }

  lemma HandlerCalls(p: Program, st: Store, seen: seq<Answer>)
    requires HandlerOf(p)(seen).Do?
    ensures p(seen).Call? && HandlerOf(p)(seen).op(st) == Perform(p(seen).write, st)
  {
    hide Perform;
  }

  lemma PerformLast(writes: seq<Write>, w: Write, st: Store)
    ensures PerformAll(writes + [w], st) == Perform(w, PerformAll(writes, st)).0
  {
    hide Perform;
    assert (writes + [w])[..|writes|] == writes;
  }

  lemma {:induction false} AloneCalls(p: Program, st: Store, seen: seq<Answer>)
    requires Alone(HandlerOf(p), st, |seen|).1 == seen
    ensures Calls(p, seen) && Answered(Issued(p, seen), st, seen)
    ensures Alone(HandlerOf(p), st, |seen|).0 == PerformAll(Issued(p, seen), st)
    decreases |seen|
  {
    hide Perform, HandlerOf;
    if seen != [] {
      var n := |seen| - 1;
      var less := seen[..n];
      assert seen == less + [seen[n]];
      hide Alone;
      AloneNext(HandlerOf(p), st, seen);
      AloneCalls(p, st, less);
      HandlerCalls(p, Alone(HandlerOf(p), st, n).0, less);
      IssuedMore(p, less, seen[n]);
      hide Issued, PerformAll, Calls, Answered;
      PerformLast(Issued(p, less), p(less).write, st);
      AnsweredMore(Issued(p, less), p(less).write, st, less, seen[n]);
    }
  }

  lemma EndsPerforms(p: Program, before: Store, seen: seq<Answer>, committed: bool)
    requires EndsAlone(HandlerOf(p), before, seen, committed)
    ensures Performs(p, before, seen, committed,
                     if committed then Alone(HandlerOf(p), before, |seen|).0 else before)
  {
    hide Alone, Perform, PerformAll;
    AloneCalls(p, before, seen);
  }

  // ---------------------------------------------------------------- all of them

  /** The stores between the transactions of a serial run. */
  ghost predicate Chain(programs: seq<Program>, tickets: seq<Ticket<Store, Answer>>, stores: seq<Store>) {
    && |tickets| == |programs| && |stores| == |programs| + 1
    && forall i | 0 <= i < |programs| ::
         && IsDone(tickets[i])
         && Performs(programs[i], stores[i], tickets[i].seen, tickets[i].phase.committed, stores[i + 1])
  }

  lemma {:induction false} ChainOf(programs: seq<Program>, tickets: seq<Ticket<Store, Answer>>, init: Store)
    returns (stores: seq<Store>)
    requires |tickets| == |programs| && Faithful(init, tickets)
    requires forall i | 0 <= i < |programs| :: tickets[i].handler == HandlerOf(programs[i])
    ensures Chain(programs, tickets, stores) && stores[0] == init && stores[|programs|] == Serial(init, tickets)
    decreases |programs|
  {
    hide Performs, HandlerOf, EndsAlone, Alone;
    if programs == [] {
      stores := [init];
    } else {
      var n := |programs| - 1;
      assert Faithful(init, tickets[..n]) by {
        assert forall i | 0 <= i < n :: tickets[..n][..i] == tickets[..i];
      }
      var less := ChainOf(programs[..n], tickets[..n], init);
      EndsPerforms(programs[n], Serial(init, tickets[..n]), tickets[n].seen, tickets[n].phase.committed);
      stores := less + [Serial(init, tickets)];
      assert stores[n] == Serial(init, tickets[..n]);
      forall i | 0 <= i <= n
        ensures IsDone(tickets[i])
             && Performs(programs[i], stores[i], tickets[i].seen, tickets[i].phase.committed, stores[i + 1])
      {
        if i < n {
          assert programs[..n][i] == programs[i] && tickets[..n][i] == tickets[i];
        }
      }
    }
  }

  /**
   Transactions are serializable, on the store itself and for the programs that were started: when
   all have ended, the store is that of performing the writes of those that finished, one program
   after another in the order of arrival, and each was answered as in that serial run.
   */
  lemma ProgramsSerialize(init: Store, events: seq<Event<Store, Answer>>, programs: seq<Program>)
    returns (stores: seq<Store>)
    requires TransactionLock.Run(TransactionLock.Start(init), events).Some?
    requires |Arrivals(events)| == |programs|
    requires forall i | 0 <= i < |programs| :: Arrivals(events)[i] == HandlerOf(programs[i])
    requires forall t | t in TransactionLock.Run(TransactionLock.Start(init), events).value.tickets :: t.phase.Released?
    ensures var l := TransactionLock.Run(TransactionLock.Start(init), events).value;
      && Chain(programs, l.tickets, stores) && stores[0] == init && stores[|programs|] == l.store
  {
    hide TransactionLock.Run, HandlerOf, Chain, Faithful, Serial;
    var l := TransactionLock.Run(TransactionLock.Start(init), events).value;
    TicketsAreArrivals(TransactionLock.Start<Store, Answer>(init), events);
    forall i | 0 <= i < |l.tickets| ensures l.tickets[i].phase.Released? {
      assert l.tickets[i] in l.tickets;
    }
    Serializable(init, events);
    stores := ChainOf(programs, l.tickets, init);
  }
}
