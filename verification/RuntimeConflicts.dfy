/** The conflicts an undo records, from the first recorded one to the last stored one. */
module RuntimeConflicts {
  import opened Prelude
  import opened JsonText
  import opened Lifecycle
  import opened StoreState
  import opened CanonicalJson
  import opened Runtime
  import opened RuntimeInvariant
  import opened RuntimeSteps
  import opened RuntimeTheorems
  import opened RuntimeRequests
  import opened RuntimeOutcomes

  /** What `checkConflicts` and the undo handler of a call record in a schedule, in order. */
  function RecordedIn(events: seq<Event>, c: CallId): seq<ConflictBody> {
    if events == [] then []
    else RecordedBy(events[0], c) + RecordedIn(events[1..], c)
  }

  function RecordedBy(e: Event, c: CallId): seq<ConflictBody> {
    if e.UndoRecord? && e.call == c then [e.conflict] else []
  }

  /** The undo has opened its transaction, which has not ended, and holds these records. */
  ghost predicate Collecting(s: State, c: CallId, id: Text, records: seq<ConflictBody>) {
    && IsUndo(s, c)
    && match s.calls[c].undoPc
       case UndoOpened(run) => run.id == id && records == []
       case Guarded(run, rs) => run.id == id && records == rs
       case Undoing(run, rs) => run.id == id && records == rs
       case _ => false
  }

  /** Its transaction was taken back, and these are the records it kept. */
  ghost predicate TakenBack(s: State, c: CallId, id: Text, records: seq<ConflictBody>) {
    && IsUndo(s, c) && s.calls[c].undoPc.UndoFailing?
    && s.calls[c].undoPc.run.id == id && s.calls[c].undoPc.records == records
  }

  /** Its handler has returned. */
  ghost predicate HandlerReturned(s: State, c: CallId) {
    IsUndo(s, c) && (s.calls[c].undoPc.UndoWrote? || s.calls[c].undoPc.UndoReturned?)
  }

  /** What a step of the undo itself makes of the records. */
  ghost predicate Collected(s: State, c: CallId, id: Text, records: seq<ConflictBody>) {
    Collecting(s, c, id, records) || TakenBack(s, c, id, records) || HandlerReturned(s, c)
  }

  lemma RecordCollects(s: State, conflict: ConflictBody, s': State, c: CallId, id: Text, records: seq<ConflictBody>)
    requires DoUndoRecord(s, c, conflict) == Some(s') && Collecting(s, c, id, records)
    ensures Collected(s', c, id, records + [conflict])
  {
  }

  lemma HandlerCollects(s: State, e: Event, s': State, c: CallId, id: Text, records: seq<ConflictBody>)
    requires Collecting(s, c, id, records)
    requires (e.UndoGuard? && DoUndoGuard(s, c) == Some(s')) || (e.UndoStart? && DoUndoStart(s, c) == Some(s'))
          || (e.UndoThrow? && DoUndoThrow(s, c, e.thrown) == Some(s'))
          || (e.UndoReturn? && DoUndoReturn(s, c, e.data, e.metadata, e.t0) == Some(s'))
    ensures Collected(s', c, id, records)
  {
    hide UpdateRun, GuardError, UndoneUpdate;
  }

  lemma OnlyHandlerSteps(s: State, e: Event, c: CallId, id: Text, records: seq<ConflictBody>, style: Style)
    requires Apply(s, e, style).Some? && Stepper(e) == Some(c) && Collecting(s, c, id, records)
    ensures e.UndoRecord? || e.UndoGuard? || e.UndoStart? || e.UndoThrow? || e.UndoReturn?
  {
    hide UpdateRun, SaveSnapshot, RecordEffect, RecordConflict, CreateRun, ClaimRun, AssertCanBeUndone, UndoTenantMatches;
    hide DoUndoRecord, DoUndoGuard, DoUndoStart, DoUndoThrow, DoUndoReturn;
  }

  lemma OwnCollects(s: State, e: Event, s': State, c: CallId, id: Text, records: seq<ConflictBody>, style: Style)
    requires Apply(s, e, style) == Some(s') && Stepper(e) == Some(c) && Collecting(s, c, id, records)
    ensures Collected(s', c, id, records + RecordedBy(e, c))
  {
    hide Collecting, Collected, DoUndoRecord, DoUndoGuard, DoUndoStart, DoUndoThrow, DoUndoReturn;
    OnlyHandlerSteps(s, e, c, id, records, style);
    if e.UndoRecord? {
      RecordCollects(s, e.conflict, s', c, id, records);
    } else {
      assert records + [] == records;
      HandlerCollects(s, e, s', c, id, records);
    }
  }

  lemma StepCollects(s: State, e: Event, s': State, c: CallId, id: Text, records: seq<ConflictBody>, style: Style)
    requires Apply(s, e, style) == Some(s') && Collecting(s, c, id, records)
    ensures Collected(s', c, id, records + RecordedBy(e, c))
  {
    hide Apply;
    if Stepper(e) == Some(c) {
      OwnCollects(s, e, s', c, id, records, style);
    } else {
      BystanderStays(s, s', e, style, c);
    }
  }

  /** After its transaction has ended, an undo records nothing more. */
  lemma {:induction false} NothingMore(s: State, events: seq<Event>, c: CallId, style: Style)
    requires IsUndo(s, c) && Run(s, events, style).Some?
    requires var pc := s.calls[c].undoPc; pc.UndoFailing? || pc.Flushing? || pc.UndoThrew?
    ensures RecordedIn(events, c) == []
    decreases |events|
  {
    hide Apply;
    if events != [] {
      var next := Apply(s, events[0], style).value;
      if Stepper(events[0]) == Some(c) {
        EndedStays(s, events[0], next, c, style);
      } else {
        BystanderStays(s, next, events[0], style, c);
      }
      NothingMore(next, events[1..], c, style);
    }
  }

  lemma EndedStays(s: State, e: Event, s': State, c: CallId, style: Style)
    requires Apply(s, e, style) == Some(s') && Stepper(e) == Some(c) && IsUndo(s, c)
    requires var pc := s.calls[c].undoPc; pc.UndoFailing? || pc.Flushing? || pc.UndoThrew?
    ensures IsUndo(s', c) && !e.UndoRecord?
    ensures var pc := s'.calls[c].undoPc; pc.UndoFailing? || pc.Flushing? || pc.UndoThrew?
  {
    hide UpdateRun, RecordConflict;
  }

  lemma {:induction false} ReturnedNeverThrows(s: State, events: seq<Event>, c: CallId, style: Style)
    requires HandlerReturned(s, c) && Run(s, events, style).Some?
    ensures HandlerReturned(Run(s, events, style).value, c)
    decreases |events|
  {
    hide Apply;
    if events != [] {
      var next := Apply(s, events[0], style).value;
      if Stepper(events[0]) == Some(c) {
        ReturnedStays(s, events[0], next, c, style);
      } else {
        BystanderStays(s, next, events[0], style, c);
      }
      ReturnedNeverThrows(next, events[1..], c, style);
    }
  }

  lemma ReturnedStays(s: State, e: Event, s': State, c: CallId, style: Style)
    requires Apply(s, e, style) == Some(s') && Stepper(e) == Some(c) && HandlerReturned(s, c)
    ensures HandlerReturned(s', c)
  {
  }

  lemma {:induction false} InOrderAfter(records: seq<ConflictBody>, before: seq<ConflictBody>, list: seq<ConflictBody>)
    requires InOrder(records, list)
    ensures InOrder(records, before + list)
    decreases |list|
  {
    if records != [] {
      var n, m := |records| - 1, |list| - 1;
      assert (before + list)[..|before| + m] == before + list[..m];
      if records[n] == list[m] && InOrder(records[..n], list[..m]) {
        InOrderAfter(records[..n], before, list[..m]);
      } else {
        InOrderAfter(records, before, list[..m]);
      }
    }
  }

  lemma EarlierStart(s: State, id: Text, from: nat, later: nat, records: seq<ConflictBody>)
    requires from <= later <= |Stored(s, id)| && InOrder(records, StoredSince(s, id, later))
    ensures InOrder(records, StoredSince(s, id, from))
  {
    hide InOrder, Stored;
    var all := StoredSince(s, id, from);
    assert all == all[..later - from] + StoredSince(s, id, later);
    InOrderAfter(records, all[..later - from], StoredSince(s, id, later));
  }

  /** From the abort on, the kept records come to be stored in order. */
  lemma KeptAreStored(s: State, events: seq<Event>, s2: State, c: CallId, id: Text, records: seq<ConflictBody>, style: Style)
    requires Reachable(s, style) && TakenBack(s, c, id, records)
    requires Run(s, events, style) == Some(s2) && IsUndo(s2, c) && s2.calls[c].undoPc.UndoThrew?
    ensures Stored(s, id) <= Stored(s2, id) && RecordedIn(events, c) == []
    ensures InOrder(records, StoredSince(s2, id, |Stored(s, id)|))
  {
    hide Reachable, Run, InOrder, Stored, StoredSince;
    FailingUndoEnds(s, c, events, s2, style);
    NothingMore(s, events, c, style);
  }

  lemma {:induction false} CollectedAreStored(s: State, events: seq<Event>, s2: State, c: CallId, id: Text,
                                              records: seq<ConflictBody>, style: Style)
    requires Reachable(s, style) && Collecting(s, c, id, records)
    requires Run(s, events, style) == Some(s2) && IsUndo(s2, c) && s2.calls[c].undoPc.UndoThrew?
    ensures Stored(s, id) <= Stored(s2, id)
    ensures InOrder(records + RecordedIn(events, c), StoredSince(s2, id, |Stored(s, id)|))
    decreases |events|
  {
    hide Reachable, Inv, Apply, InOrder, Stored, StoredSince, Collecting, TakenBack, RecordedBy;
    if events == [] {
      StillCollecting(s, c, id, records);
    } else {
      var e, rest := events[0], events[1..];
      var next := Apply(s, e, style).value;
      var more := records + RecordedBy(e, c);
      ReachableInv(s, style);
      ReachableStep(s, e, next, style);
      ConflictsOnlyGrow(s, next, e, style, id);
      StepCollects(s, e, next, c, id, records, style);
      assert records + RecordedIn(events, c) == more + RecordedIn(rest, c);
      if HandlerReturned(next, c) {
        ReturnedNeverThrows(next, rest, c, style);
      } else if TakenBack(next, c, id, more) {
        KeptAreStored(next, rest, s2, c, id, more, style);
        assert more + RecordedIn(rest, c) == more;
        EarlierStart(s2, id, |Stored(s, id)|, |Stored(next, id)|, more);
      } else {
        CollectedAreStored(next, rest, s2, c, id, more, style);
        EarlierStart(s2, id, |Stored(s, id)|, |Stored(next, id)|, more + RecordedIn(rest, c));
      }
    }
  }

  lemma StillCollecting(s: State, c: CallId, id: Text, records: seq<ConflictBody>)
    requires Collecting(s, c, id, records)
    ensures !s.calls[c].undoPc.UndoThrew?
  {
  }

  /**
   Every conflict that an undo records, before or in its handler, is stored for its run once the undo
   has thrown, and all of them in the order they were recorded, whatever other calls do meanwhile.
   */
  lemma RecordedAreStored(s: State, events: seq<Event>, s2: State, c: CallId, style: Style)
    requires Reachable(s, style) && IsUndo(s, c) && s.calls[c].undoPc.UndoOpened?
    requires Run(s, events, style) == Some(s2) && IsUndo(s2, c) && s2.calls[c].undoPc.UndoThrew?
    ensures var id := s.calls[c].undoPc.run.id;
      && Stored(s, id) <= Stored(s2, id)
      && InOrder(RecordedIn(events, c), StoredSince(s2, id, |Stored(s, id)|))
  {
    hide Reachable, Run, InOrder, Stored, StoredSince;
    CollectedAreStored(s, events, s2, c, s.calls[c].undoPc.run.id, [], style);
    assert [] + RecordedIn(events, c) == RecordedIn(events, c);
  }
}
