/**
 The promise-chain lock of the in-memory store, as a step system. Every explicit transaction, and
 every single write outside one, takes a ticket; it waits for the promise of the ticket before it,
 captures the store, runs its handler one storage operation at a time, restores the capture if
 the handler throws, and then releases. A transaction opened inside a handler runs inline, so it
 is part of that handler. `S` is the store's contents and `R` what an operation answers.
 */
module TransactionLock {
  import opened Prelude

  /** What a handler does next, given every answer it has seen. */
  datatype Action<!S, !R> = Do(op: S -> (S, R)) | Return | Throw

  type Handler<!S, !R> = seq<R> -> Action<S, R>

  datatype Phase<+S> =
    | Waiting
    | Open(saved: S)
    | Closing(committed: bool)
    | Released(committed: bool)

  /** `previous` is the promise the ticket awaits; none is an already resolved promise. */
  datatype Ticket<!S, !R> = Ticket(
    handler: Handler<S, R>, previous: Option<nat>, phase: Phase<S>, seen: seq<R>)

  /** Tickets in arrival order; `tail` is the promise the next arrival will await. */
  datatype Lock<!S, !R> = Lock(store: S, tickets: seq<Ticket<S, R>>, tail: Option<nat>)

  datatype Event<!S, !R> =
    | Arrive(handler: Handler<S, R>)
    | Acquire(ticket: nat)
    | Operate(ticket: nat)
    | Finish(ticket: nat)
    | Release(ticket: nat)

  function Start<S, R>(store: S): Lock<S, R> {
    Lock(store, [], None)
  }

  /** The promise of a ticket resolves when it and everything it waited for has been released. */
  predicate Resolved<S, R>(tickets: seq<Ticket<S, R>>, promise: Option<nat>)
    decreases if promise.Some? then promise.value + 1 else 0
  {
    match promise
    case None => true
    case Some(t) =>
      && t < |tickets|
      && tickets[t].phase.Released?
      && match tickets[t].previous
         case None => true
         case Some(p) => p < t && Resolved(tickets, Some(p))
  }

  function SetPhase<S, R>(l: Lock<S, R>, t: nat, phase: Phase<S>): Lock<S, R>
    requires t < |l.tickets|
  {
    l.(tickets := l.tickets[t := l.tickets[t].(phase := phase)])
  }

  /** The effect of an event, or nothing when it is not enabled. */
  function Apply<S, R>(l: Lock<S, R>, e: Event<S, R>): Option<Lock<S, R>> {
    match e
    case Arrive(h) =>
      Some(l.(tickets := l.tickets + [Ticket(h, l.tail, Waiting, [])], tail := Some(|l.tickets|)))
    case Acquire(t) =>
      if t < |l.tickets| && l.tickets[t].phase.Waiting? && Resolved(l.tickets, l.tickets[t].previous)
      then Some(SetPhase(l, t, Open(l.store)))
      else None
    case Operate(t) =>
      if t < |l.tickets| && l.tickets[t].phase.Open? then
        match l.tickets[t].handler(l.tickets[t].seen)
        case Do(op) =>
          var (store, answer) := op(l.store);
          var ticket := l.tickets[t].(seen := l.tickets[t].seen + [answer]);
          Some(l.(store := store, tickets := l.tickets[t := ticket]))
        case _ => None
      else None
    case Finish(t) =>
      if t < |l.tickets| && l.tickets[t].phase.Open? then
        match l.tickets[t].handler(l.tickets[t].seen)
        case Return => Some(SetPhase(l, t, Closing(true)))
        case Throw => Some(SetPhase(l, t, Closing(false)).(store := l.tickets[t].phase.saved))
        case Do(_) => None
      else None
    case Release(t) =>
      if t < |l.tickets| && l.tickets[t].phase.Closing? then
        Some(SetPhase(l, t, Released(l.tickets[t].phase.committed)).(
               tail := if l.tail == Some(t) then None else l.tail))
      else None
  }

  function Run<S, R>(l: Lock<S, R>, events: seq<Event<S, R>>): Option<Lock<S, R>>
    decreases |events|
  {
    if events == [] then Some(l)
    else
      match Apply(l, events[0])
      case None => None
      case Some(next) => Run(next, events[1..])
  }

  // ---------------------------------------------------------------- running alone

  /** The store and the answers after a handler has run `n` operations with nobody else around. */
  function Alone<S, R>(h: Handler<S, R>, store: S, n: nat): (S, seq<R>) {
    if n == 0 then (store, [])
    else
      var (st, seen) := Alone(h, store, n - 1);
      match h(seen)
      case Do(op) => (op(st).0, seen + [op(st).1])
      case _ => (st, seen)
  }

  /** Running alone from `store`, the handler sees exactly `seen` and then ends as stated. */
  ghost predicate EndsAlone<S, R>(h: Handler<S, R>, store: S, seen: seq<R>, committed: bool) {
    && Alone(h, store, |seen|).1 == seen
    && (if committed then h(seen).Return? else h(seen).Throw?)
  }

  ghost predicate IsDone<S, R>(t: Ticket<S, R>) {
    t.phase.Closing? || t.phase.Released?
  }

  /** The store after the finished tickets have run one after another, skipping those that threw. */
  ghost function Serial<S, R>(store: S, done: seq<Ticket<S, R>>): S
    requires forall i :: 0 <= i < |done| ==> IsDone(done[i])
  {
    if done == [] then store
    else
      var n := |done| - 1;
      var before := Serial(store, done[..n]);
      assert IsDone(done[n]);
      if done[n].phase.committed then Alone(done[n].handler, before, |done[n].seen|).0 else before
  }

  /** Every finished ticket did what it would have done alone at its place in the order. */
  ghost predicate Faithful<S, R>(store: S, done: seq<Ticket<S, R>>) {
    && (forall i :: 0 <= i < |done| ==> IsDone(done[i]))
    && forall i :: 0 <= i < |done| ==>
         EndsAlone(done[i].handler, Serial(store, done[..i]), done[i].seen, done[i].phase.committed)
  }

  // ---------------------------------------------------------------- invariant

  /** The first `k` tickets are released, the rest have not been; none after `k` has started. */
  ghost predicate Queue<S, R>(l: Lock<S, R>, k: nat) {
    && k <= |l.tickets|
    && (forall i :: 0 <= i < k ==> l.tickets[i].phase.Released?)
    && (forall i :: k < i < |l.tickets| ==> l.tickets[i].phase.Waiting?)
    && (forall i :: k <= i < |l.tickets| ==> !l.tickets[i].phase.Released?)
    && (forall i :: 0 <= i < |l.tickets| && l.tickets[i].phase.Waiting? ==> l.tickets[i].seen == [])
  }

  /** Each ticket awaits the one before it, or arrived when all earlier ones were released. */
  ghost predicate Chained<S, R>(l: Lock<S, R>, k: nat) {
    && (forall i :: 0 <= i < |l.tickets| && l.tickets[i].previous.None? ==> i <= k)
    && (forall i :: 0 <= i < |l.tickets| && l.tickets[i].previous.Some? ==>
          0 < i && l.tickets[i].previous.value == i - 1)
    && (l.tail.None? ==> k == |l.tickets|)
    && (l.tail.Some? ==> 0 < |l.tickets| && l.tail.value == |l.tickets| - 1)
  }

  /** The store is what the finished tickets, and then the open one so far, make of it in order. */
  ghost predicate Replays<S, R>(l: Lock<S, R>, init: S, k: nat)
    requires k <= |l.tickets|
  {
    && Faithful(init, l.tickets[..k])
    && if k == |l.tickets| || l.tickets[k].phase.Waiting? then l.store == Serial(init, l.tickets[..k])
       else
         var t := l.tickets[k];
         if t.phase.Open? then
           && t.phase.saved == Serial(init, l.tickets[..k])
           && Alone(t.handler, t.phase.saved, |t.seen|) == (l.store, t.seen)
         else
           Faithful(init, l.tickets[..k + 1]) && l.store == Serial(init, l.tickets[..k + 1])
  }

  ghost predicate Inv<S, R>(l: Lock<S, R>, init: S, k: nat) {
    Queue(l, k) && Chained(l, k) && Replays(l, init, k)
  }

  lemma {:induction false} UnresolvedPromise<S, R>(l: Lock<S, R>, k: nat, t: nat)
    requires Queue(l, k) && t < |l.tickets| && Resolved(l.tickets, Some(t))
    ensures t < k
  {
  }

  /** Only the first unreleased ticket can ever acquire. */
  lemma AcquirersTurn<S, R>(l: Lock<S, R>, k: nat, t: nat)
    requires Queue(l, k) && Chained(l, k)
    requires t < |l.tickets| && l.tickets[t].phase.Waiting? && Resolved(l.tickets, l.tickets[t].previous)
    ensures t == k
  {
    if l.tickets[t].previous.Some? {
      UnresolvedPromise(l, k, t - 1);
    }
  }

  lemma ArriveKeepsInv<S, R>(l: Lock<S, R>, init: S, k: nat, h: Handler<S, R>)
    requires Inv(l, init, k)
    ensures Inv(Apply(l, Arrive(h)).value, init, k)
  {
    var l' := Apply(l, Arrive(h)).value;
    assert l'.tickets[..k] == l.tickets[..k];
    if k < |l.tickets| {
      assert l'.tickets[..k + 1] == l.tickets[..k + 1];
    }
  }

  lemma AcquireKeepsInv<S, R>(l: Lock<S, R>, init: S, k: nat, t: nat)
    requires Inv(l, init, k) && Apply(l, Acquire(t)).Some?
    ensures t == k && Inv(Apply(l, Acquire(t)).value, init, k)
  {
    AcquirersTurn(l, k, t);
    var l' := Apply(l, Acquire(t)).value;
    assert l'.tickets[..k] == l.tickets[..k];
  }

  lemma OperateKeepsInv<S, R>(l: Lock<S, R>, init: S, k: nat, t: nat)
    requires Inv(l, init, k) && Apply(l, Operate(t)).Some?
    ensures t == k && Inv(Apply(l, Operate(t)).value, init, k)
  {
    var l' := Apply(l, Operate(t)).value;
    assert t == k;
    assert l'.tickets[..k] == l.tickets[..k];
    assert |l'.tickets[k].seen| - 1 == |l.tickets[k].seen|;
  }

  lemma FaithfulExtends<S, R>(init: S, done: seq<Ticket<S, R>>, t: Ticket<S, R>)
    requires Faithful(init, done) && IsDone(t)
    requires EndsAlone(t.handler, Serial(init, done), t.seen, t.phase.committed)
    ensures Faithful(init, done + [t])
    ensures Serial(init, done + [t])
         == if t.phase.committed then Alone(t.handler, Serial(init, done), |t.seen|).0
            else Serial(init, done)
  {
    var all := done + [t];
    forall i | 0 <= i < |all|
      ensures IsDone(all[i])
      ensures EndsAlone(all[i].handler, Serial(init, all[..i]), all[i].seen, all[i].phase.committed)
    {
      if i < |done| {
        assert all[..i] == done[..i];
      } else {
        assert all[..i] == done;
      }
    }
    assert all[..|done|] == done;
  }

  lemma FinishKeepsInv<S, R>(l: Lock<S, R>, init: S, k: nat, t: nat)
    requires Inv(l, init, k) && Apply(l, Finish(t)).Some?
    ensures t == k && Inv(Apply(l, Finish(t)).value, init, k)
  {
    hide Replays, Resolved;
    FinishReplays(l, init, k);
  }

  lemma FinishReplays<S, R>(l: Lock<S, R>, init: S, k: nat)
    requires k < |l.tickets| && Replays(l, init, k) && Apply(l, Finish(k)).Some?
    ensures Replays(Apply(l, Finish(k)).value, init, k)
  {
    hide Resolved, Faithful, Serial, Alone;
    var l' := Apply(l, Finish(k)).value;
    assert l'.tickets[..k] == l.tickets[..k];
    assert l'.tickets[..k + 1] == l.tickets[..k] + [l'.tickets[k]];
    FaithfulExtends(init, l.tickets[..k], l'.tickets[k]);
  }

  /** The same finished tickets, up to whether they have been released. */
  ghost predicate SameWork<S, R>(a: seq<Ticket<S, R>>, b: seq<Ticket<S, R>>) {
    && |a| == |b|
    && forall i :: 0 <= i < |a| ==>
         && IsDone(a[i]) && IsDone(b[i])
         && a[i].handler == b[i].handler && a[i].seen == b[i].seen
         && a[i].phase.committed == b[i].phase.committed
  }

  /** Releasing does not change what a ticket did. */
  lemma {:induction false} SerialIgnoresRelease<S, R>(init: S, a: seq<Ticket<S, R>>, b: seq<Ticket<S, R>>)
    requires SameWork(a, b)
    ensures Serial(init, a) == Serial(init, b)
    decreases |a|
  {
    if a != [] {
      SerialIgnoresRelease(init, a[..|a| - 1], b[..|b| - 1]);
    }
  }

  lemma FaithfulIgnoresRelease<S, R>(init: S, a: seq<Ticket<S, R>>, b: seq<Ticket<S, R>>)
    requires SameWork(a, b) && Faithful(init, a)
    ensures Faithful(init, b)
  {
    forall i | 0 <= i < |b|
      ensures EndsAlone(b[i].handler, Serial(init, b[..i]), b[i].seen, b[i].phase.committed)
    {
      assert EndsAlone(a[i].handler, Serial(init, a[..i]), a[i].seen, a[i].phase.committed);
      SerialIgnoresRelease(init, a[..i], b[..i]);
    }
  }

  lemma ReleaseKeepsInv<S, R>(l: Lock<S, R>, init: S, k: nat, t: nat)
    requires Inv(l, init, k) && Apply(l, Release(t)).Some?
    ensures t == k && Inv(Apply(l, Release(t)).value, init, k + 1)
  {
    hide Replays, Resolved;
    ReleaseReplays(l, init, k);
  }

  lemma ReleaseReplays<S, R>(l: Lock<S, R>, init: S, k: nat)
    requires Queue(l, k) && Replays(l, init, k) && Apply(l, Release(k)).Some?
    ensures Replays(Apply(l, Release(k)).value, init, k + 1)
  {
    var l' := Apply(l, Release(k)).value;
    var a, b := l.tickets[..k + 1], l'.tickets[..k + 1];
    assert forall i :: 0 <= i <= k ==> IsDone(a[i]);
    assert SameWork(a, b);
    FaithfulIgnoresRelease(init, a, b);
    SerialIgnoresRelease(init, a, b);
  }

  /** Each event keeps the invariant and moves the front of the queue only by releasing it. */
  lemma ApplyKeepsInv<S, R>(l: Lock<S, R>, init: S, k: nat, e: Event<S, R>)
    requires Inv(l, init, k) && Apply(l, e).Some?
    ensures Inv(Apply(l, e).value, init, if e.Release? then k + 1 else k)
  {
    match e
    case Arrive(h) => ArriveKeepsInv(l, init, k, h);
    case Acquire(t) => AcquireKeepsInv(l, init, k, t);
    case Operate(t) => OperateKeepsInv(l, init, k, t);
    case Finish(t) => FinishKeepsInv(l, init, k, t);
    case Release(t) => ReleaseKeepsInv(l, init, k, t);
  }

  lemma {:induction false} RunKeepsInv<S, R>(l: Lock<S, R>, init: S, k: nat, events: seq<Event<S, R>>)
    returns (k': nat)
    requires Inv(l, init, k) && Run(l, events).Some?
    ensures Inv(Run(l, events).value, init, k')
    decreases |events|
  {
    if events == [] {
      k' := k;
    } else {
      ApplyKeepsInv(l, init, k, events[0]);
      var next := if events[0].Release? then k + 1 else k;
      k' := RunKeepsInv(Apply(l, events[0]).value, init, next, events[1..]);
    }
  }

  // ---------------------------------------------------------------- theorems

  /** In every schedule at most one transaction is under way, and they start in arrival order. */
  lemma OneAtATimeInOrder<S, R>(init: S, events: seq<Event<S, R>>, i: nat, j: nat)
    requires Run(Start(init), events).Some?
    requires i < j < |Run(Start(init), events).value.tickets|
    ensures var ts := Run(Start(init), events).value.tickets;
      !ts[j].phase.Waiting? ==> ts[i].phase.Released?
  {
    var k := RunKeepsInv(Start(init), init, 0, events);
  }

  /**
   Serializability. When every ticket of a schedule has been released, the store is what the
   transactions make of it one after another in arrival order, those that threw being skipped,
   and each handler got exactly the answers it gets running alone at its place.
   */
  lemma Serializable<S, R>(init: S, events: seq<Event<S, R>>)
    requires Run(Start(init), events).Some?
    requires forall i :: 0 <= i < |Run(Start(init), events).value.tickets| ==>
      Run(Start(init), events).value.tickets[i].phase.Released?
    ensures var l := Run(Start(init), events).value;
      Faithful(init, l.tickets) && l.store == Serial(init, l.tickets)
  {
    var l := Run(Start(init), events).value;
    var k := RunKeepsInv(Start(init), init, 0, events);
    assert k == |l.tickets|;
    assert l.tickets[..k] == l.tickets;
  }

  /** A handler that throws leaves the store exactly as the transactions before it left it. */
  lemma ThrowingLeavesNoTrace<S, R>(init: S, events: seq<Event<S, R>>, t: nat)
    requires Run(Start(init), events).Some?
    requires t < |Run(Start(init), events).value.tickets|
    requires Run(Start(init), events).value.tickets[t].phase == Closing(false)
    ensures var l := Run(Start(init), events).value;
      && (forall i :: 0 <= i < t ==> IsDone(l.tickets[i]))
      && l.store == Serial(init, l.tickets[..t])
  {
    var l := Run(Start(init), events).value;
    var k := RunKeepsInv(Start(init), init, 0, events);
    assert k == t;
    assert l.tickets[..t + 1][..t] == l.tickets[..t];
  }

  lemma {:induction false} ResolvedPrefix<S, R>(l: Lock<S, R>, k: nat, t: nat)
    requires Queue(l, k) && Chained(l, k) && t < k
    ensures Resolved(l.tickets, Some(t))
    decreases t
  {
    if l.tickets[t].previous.Some? {
      ResolvedPrefix(l, k, t - 1);
    }
  }

  /** The lock never wedges: while some ticket is unreleased, the first of them can step. */
  lemma NoDeadlock<S, R>(init: S, events: seq<Event<S, R>>, t: nat)
    requires Run(Start(init), events).Some?
    requires t < |Run(Start(init), events).value.tickets|
    requires !Run(Start(init), events).value.tickets[t].phase.Released?
    ensures var l := Run(Start(init), events).value;
      exists k: nat :: k <= t &&
        ( || Apply(l, Acquire(k)).Some? || Apply(l, Operate(k)).Some?
          || Apply(l, Finish(k)).Some? || Apply(l, Release(k)).Some?)
  {
    var l := Run(Start(init), events).value;
    var k := RunKeepsInv(Start(init), init, 0, events);
    if l.tickets[k].phase.Waiting? && l.tickets[k].previous.Some? {
      ResolvedPrefix(l, k, k - 1);
    }
    if l.tickets[k].phase.Open? {
      var action := l.tickets[k].handler(l.tickets[k].seen);
      assert action.Do? || action.Return? || action.Throw?;
    }
    assert || Apply(l, Acquire(k)).Some? || Apply(l, Operate(k)).Some?
           || Apply(l, Finish(k)).Some? || Apply(l, Release(k)).Some?;
  }
}
