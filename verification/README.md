# RollbackKit: a verified model

RollbackKit runs business actions that can be undone. This project models its transactional core in
Dafny and proves what the core promises: over every input, every schedule of concurrent calls, or
every interference of other writers.

Run `dafny verify dfyconfig.toml` with Dafny 4.11. There is one module per file.

## What is modelled

**Canonical JSON and fingerprints** (`JsonText`, `CanonicalJson`, `Sorting`, `Fingerprint`,
`Idempotency`). Text is a sequence of UTF-16 code units. The canonical printer is proved faithful by
a parser that recovers the key-sorted normal form. The key comparator is a parameter, because the
program uses `localeCompare`: soundness holds for any comparator, and a value prints the same in
every key order exactly when no object in it has two distinct keys that tie. `localeCompare` ties
canonically equivalent keys, so this is a condition on the value and not on the comparator. Number
rendering is a parameter that must be injective up to the sign of zero, and made of characters that
cannot end a number early. The fingerprint is the FNV-1a variant of the program, which takes whole
code units where section 2 of draft-eastlake-fnv takes octets.

**The in-memory store** (`Lifecycle`, `Utf8`, `StoreState`, `MemoryStorage`, `JsonOwnership`,
`JsonCopies`, `TransactionLock`, `MemoryTransactions`, `StoreTransactions`). A class holds the maps
and the id counter; every method's contract is an operation on the store's value and says field by
field what is stored, and every operation keeps a representation invariant. `Utf8` is the reference
for the length limit of keys. `JsonOwnership` puts mutable JSON on the heap and proves, over any
history of calls, that arguments, results, captured state and live state share no object.
`TransactionLock` is the promise-chain lock as a step system over arbitrary handlers, with
serializability of writes as its main theorem; `MemoryTransactions` runs the adapter's writes under
it, and `StoreTransactions` states serializability for programs of such writes. Reads take no lock
and are not claimed to be isolated.

**The runtime** (`Runtime`, `RuntimeInvariant`, `RuntimeSteps`, `RuntimeTheorems`,
`RuntimeRequests`, `RuntimeOutcomes`, `RuntimeRecords`, `RuntimeConflicts`, `RuntimeAlone`).
`execute` and `undo` are programs of atomic storage steps; any number of calls interleave, handlers
record, return or throw as they please, and the first read of `undo` may see uncommitted writes. The
lock is held or free here; that the promise chain provides this is what `TransactionLock` proves.
The theorems cover at-most-once handlers, the lifecycle, times, metadata, tenants, undo windows,
idempotency and progress; in `RuntimeOutcomes`, what every execute and every undo ends with under
any schedule, failed ones included; in `RuntimeRecords`, what each call is answered in terms of the
stored run and of the request that made it, and that every record made by a handler that returned
stays and counts; in `RuntimeConflicts`, that a failed undo leaves every conflict it recorded stored
in order; in `RuntimeAlone`, what a call that nothing interrupts ends with.

**The PostgreSQL adapter** (`PostgresRows`, `SqlUpdate`, `SqlHistory`, `SqlRecords`, `SqlClaim`,
`Pagination`). The generated statements get a small semantics: numbered parameters, the one of
`LIMIT` included, three-valued comparison, joins, order, rows in which SQL NULL differs from JSON
null. The builders are proved to mean what the in-memory store does. The database and the program
each sort ids by an order of their own; `Pagination.StoresAgreeIff` says exactly when every page of
the two is the same.

**The migration runner** (`MigrationStatus`, `MigrationProtocol`, `MigrationRows`,
`MigrationAlone`). Its checks are proved exact, and any number of runners, statement failures, lost
connections and lost answers to a `COMMIT` are modelled as a protocol around the advisory lock and
the transaction, whose inserts and statements stay uncommitted until it ends. Each runner has a
session of its own, because a session may take its advisory lock twice. Ids are assumed ascending
and unique, the clock non-decreasing, and checksums never blank; checksums are otherwise an
arbitrary function of the SQL.

**The demo actions** (`DemoState`, `DemoWriters`, `MemberRemove`, `ProjectArchive`, `DemoDatabase`).
Tables with their foreign keys and unique columns, conditional updates with row counts, and revisions
that are fresh for every writing transaction. Between the read, the execute transaction and the undo
transaction any other transactions may write anything.

## What the code does where its description could be read otherwise

- An undo is refused by the time read for the check. The stored undo start is a second, later reading
  of the clock, so it may lie past the expiry (`packages/core/src/runtime/rollbackkit.ts:317-321`):
  `RuntimeRequests.StartCanPassExpiry`, and for every claimed undo `RuntimeOutcomes.StartIsSecondReading`.
- Conflicts recorded by an undo handler that then returns are dropped
  (`packages/core/src/runtime/rollbackkit.ts:365`, `:390`); only those of `checkConflicts` block it.
- A run without a tenant can be undone only by a request without one, and the reverse
  (`packages/core/src/runtime/runtime-errors.ts:57-63`).
- The conflict check of `member.remove` looks for the member id in its own workspace, while ids are
  unique across workspaces. `MemberRemove.CheckMissesOtherWorkspace` gives a state in which the check
  passes and the undo conflicts; `MemberRemove.UndoSucceedsIff` gives the exact condition.
- The conflict check of `project.archive` looks at the status, while the undo compares the revision:
  `ProjectArchive.CheckMissesRewrite` and `ProjectArchive.RestoreIffUntouched`.
- Two distinct keys that the collation ties keep their input order, so a replay whose keys storage
  reordered would be refused: `CanonicalJson.TiedKeysPrintApart`. The exact condition on the stored
  input is in `Idempotency.ReorderedReplaysAccepted`.
- The two stores sort ids by different orders, so they can list runs of one millisecond differently
  although neither order ties anything: `Pagination.OrdersCanDisagree`. Their pages are the same for
  every cursor and limit exactly when the database order ties no two matching runs of one millisecond
  and both orders decide each such pair alike, a tie in memory keeping the stored order:
  `Pagination.StoresAgreeIff`.
- A migration whose `COMMIT` took effect but whose answer was lost is reported as failed with its rows
  changed; the next run then finds nothing to do. `MigrationProtocol.FailureLeavesRows` separates the
  two kinds of failure.
- `btrim` removes spaces only and JavaScript's `trim` all white space, so a checksum of tabs is neither
  repaired nor accepted: `MigrationStatus.TabChecksumStaysUnreadable`, and the exact condition in
  `MigrationStatus.RepairedReadsIff`.

## Model

| member | source | states |
|---|---|---|
| `Sorting.SortSorted` | packages/core/src/runtime/idempotency.ts:111-113 | the stable sort by a consistent comparator yields an ordered sequence |
| `Sorting.SortMembers` | packages/core/src/runtime/idempotency.ts:111-113 | sorting drops and invents nothing, for any comparator, consistent or not |
| `Sorting.SortStable` | packages/core/src/runtime/idempotency.ts:111-113 | what comes before something that does not compare as smaller still does after sorting, so tied keys keep their input order |
| `Sorting.SortsAgreeIff` | packages/core/src/storage/memory-storage.ts:319-327 | sorting by two consistent comparators gives the same sequence if and only if both decide alike, for every pair, whether the later element may stay behind the earlier |
| `JsonText.ReadQuoted` | packages/core/src/runtime/idempotency.ts:103-105 | reading a quoted string back, whatever text follows it, gives exactly that string and that rest, for every UTF-16 text, lone surrogates included |
| `JsonText.QuotedIsLegal` | packages/core/src/runtime/idempotency.ts:103-105 | a quoted string holds no control character and no lone surrogate, whatever the text |
| `JsonText.EscapeForms` | packages/core/src/runtime/idempotency.ts:103-105 | a code unit stands for itself exactly when it is no control character, quote, backslash or surrogate, and has a two-character escape exactly when it is one of the seven that have a short one; `/` is never escaped |
| `JsonText.EscapeSpellings` | packages/core/src/runtime/idempotency.ts:103-105 | the spelling of every short escape, and of one `\u` escape in lower-case digits |
| `CanonicalJson.ParsePrinted` | packages/core/src/runtime/idempotency.ts:98-118 | a parser reads every printed value back as its key-sorted normal form and stops exactly at its end |
| `CanonicalJson.NormalDetermines` | packages/core/src/runtime/idempotency.ts:111-117 | values with the same normal form are equal up to property order at every depth |
| `CanonicalJson.EqualTextIsSound` | packages/core/src/runtime/idempotency.ts:54-67 | equal canonical text implies equal values up to property order, whatever the comparator does |
| `CanonicalJson.SamePrintsAlike` | packages/core/src/runtime/idempotency.ts:111-117 | when no object of the value has two distinct keys that tie, any reordering of properties at any depth prints the same text |
| `CanonicalJson.EqualTextIffSame` | packages/core/src/runtime/idempotency.ts:98-118 | for such a value the texts are equal if and only if the values are equal up to property order |
| `CanonicalJson.TiedKeysPrintApart` | packages/core/src/runtime/idempotency.ts:111-113 | two distinct keys the comparator ties give two objects that are the same but print differently |
| `CanonicalJson.OrderIndependentIffKeysApart` | packages/core/src/runtime/idempotency.ts:111-113 | for a consistent comparator, every reordering of a value prints alike if and only if no object in it, at any depth, has two distinct keys that tie |
| `CanonicalJson.PrintedMarks` | packages/core/src/runtime/idempotency.ts:98-105 | the literals, a string, and the empty array and object are spelled as in JSON |
| `CanonicalJson.NumbersPrintAlike` | packages/core/src/runtime/idempotency.ts:99-101 | two numbers print alike exactly when they are the same double or both zeros |
| `CanonicalJson.PrintedArray` | packages/core/src/runtime/idempotency.ts:107-109 | items in order, in square brackets, with commas and no space between |
| `CanonicalJson.PrintedObject` | packages/core/src/runtime/idempotency.ts:115-117 | a member is its quoted key, a colon and its value, in braces |
| `CanonicalJson.PrintedInOrder` | packages/core/src/runtime/idempotency.ts:111-117 | of two members the one whose key compares as smaller is printed first, whichever came first |
| `Fingerprint.CreateHash` | packages/core/src/runtime/idempotency.ts:120-129 | the loop keeps its state below 2^64 and returns the rendering of the folded state |
| `Fingerprint.StepIsPermutation` | packages/core/src/runtime/idempotency.ts:124-125 | for a fixed code unit one iteration is undone by multiplying with the inverse prime and the same exclusive or, from both sides |
| `Fingerprint.FoldInjective` | packages/core/src/runtime/idempotency.ts:123-126 | reading any fixed text is injective on the 64-bit states |
| `Fingerprint.RenderFaithful` | packages/core/src/runtime/idempotency.ts:128 | the rendering is always 16 hexadecimal digits and reads back as the state |
| `Fingerprint.OneUnitChangesFingerprint` | packages/core/src/runtime/idempotency.ts:120-129 | texts that differ in exactly one code unit never share a fingerprint |
| `Fingerprint.CommonSuffixKeepsApart` | packages/core/src/runtime/idempotency.ts:123-128 | two texts with a common ending collide if and only if their beginnings already did |
| `Fingerprint.KnownHashes` | packages/core/src/runtime/idempotency.ts:6-8 | known values of the hash state, computed by hand from the offset and the prime: of the empty text, of `a`, and of `a` followed by the code unit 256, which only a hash over whole code units tells from octets |
| `Idempotency.TargetValueFaithful` | packages/core/src/runtime/idempotency.ts:87-96 | targets compare by id and type only; a label or metadata never distinguishes them |
| `Idempotency.MatchDecidesSameRequest` | packages/core/src/runtime/idempotency.ts:44-85 | when no object of the stored input has tied keys, a replay is accepted if and only if its input is the same up to key order and its target has the same identity |
| `Idempotency.AcceptedReplayIsSame` | packages/core/src/runtime/idempotency.ts:54-74 | whatever the comparator, an accepted replay asks for the same input and target |
| `Idempotency.ResentIsAccepted` | packages/core/src/runtime/idempotency.ts:44-67 | the identical input with the same target identity is always accepted, whatever the comparator and the number rendering |
| `Idempotency.ReorderedReplaysAccepted` | packages/core/src/runtime/idempotency.ts:44-67 | a stored run accepts every reordering of its own input if and only if no object in that input has two distinct keys that tie |
| `Idempotency.InputHashIgnoresKeyOrder` | packages/core/src/runtime/idempotency.ts:17-24 | the stored hash of an input without tied keys survives any reordering of keys by storage |
| `Idempotency.InputHashForm` | packages/core/src/runtime/idempotency.ts:17-24 | the stored hash is `fnv1a64:` and sixteen hexadecimal digits that read back as the hash of the canonical text |
| `Lifecycle.KeyLengths` | packages/core/src/runtime/idempotency.ts:26-42 | a key of up to 85 code units always fits, one of more than 255 never does, and an ASCII key fits exactly up to 255 |
| `Utf8.LengthIsUtf8` | packages/core/src/runtime/idempotency.ts:26-29 | the length compared with the limit is the number of octets in the UTF-8 form of the key, for every text, surrogate pairs and lone surrogates included |
| `Utf8.EncodeReadsBack` | packages/core/src/runtime/idempotency.ts:26-29 | that UTF-8 form is read back, code point by code point, by a decoder that takes the shortest form only |
| `StoreState.MakeIdInjective` | packages/core/src/storage/memory-storage.ts:448-453 | two generated ids are equal only if kind and number are equal |
| `StoreState.KnownIds` | packages/core/src/storage/memory-storage.ts:448-453 | identifiers are the prefix, the name of the kind, an underscore and the number in decimal |
| `StoreState.CreateRunKeepsValid` | packages/core/src/storage/memory-storage.ts:89-123 | creating a run keeps the representation invariant, uses an unused id and adds exactly that run |
| `StoreState.CreateRunStores` | packages/core/src/storage/memory-storage.ts:89-123 | exactly the keys longer than 255 octets are refused, by code; otherwise the one new run has every field of the input (input, hash, target, actor, tenant, key, reversibility, expiry, metadata), the given time, status created and no later field, and no other part of the store changes |
| `StoreState.UpdateRunKeepsValid` | packages/core/src/storage/memory-storage.ts:153-185 | a partial update keeps the representation invariant |
| `StoreState.UpdateRunStores` | packages/core/src/storage/memory-storage.ts:153-185 | an unknown run is refused by code; otherwise every given field replaces that of the one run, the others stay, and nothing else in the store changes |
| `StoreState.SaveSnapshotKeepsValid` | packages/core/src/storage/memory-storage.ts:187-211 | saving a snapshot keeps ids distinct and every list inside its own run |
| `StoreState.SaveSnapshotAppends` | packages/core/src/storage/memory-storage.ts:187-211 | one snapshot with exactly the given content and time goes to the end of its own list and no other list changes; an unknown run is refused by code |
| `StoreState.RecordEffectKeepsValid` | packages/core/src/storage/memory-storage.ts:217-243 | recording a side effect keeps the representation invariant |
| `StoreState.RecordEffectAppends` | packages/core/src/storage/memory-storage.ts:217-243 | one side effect with exactly the given content, its status included, and time goes to the end of its own list and no other list changes; an unknown run is refused by code |
| `StoreState.RecordConflictKeepsValid` | packages/core/src/storage/memory-storage.ts:255-274 | recording a conflict keeps the representation invariant |
| `StoreState.RecordConflictAppends` | packages/core/src/storage/memory-storage.ts:255-274 | the same for conflicts |
| `StoreState.FindScopeDecides` | packages/core/src/storage/memory-storage.ts:432-446 | the scan finds a run if and only if some stored run has that name, actor, tenant and key |
| `StoreState.RecordOneAppends` | packages/core/src/storage/memory-storage.ts:255-274 | one recorded conflict is appended to its own run and changes no other list |
| `MemoryStorage.MemoryStorageAdapter.constructor` | packages/core/src/storage/memory-storage.ts:35-48 | the empty store is valid and counts from one |
| `MemoryStorage.MemoryStorageAdapter.CreateId` | packages/core/src/storage/memory-storage.ts:448-453 | the id carries the current number, which then advances by one and nothing else changes |
| `MemoryStorage.MemoryStorageAdapter.CreateActionRun` | packages/core/src/storage/memory-storage.ts:89-123 | the whole new state: one fresh run made for the input, field by field, or an oversized key refused by code with nothing changed |
| `MemoryStorage.MemoryStorageAdapter.FindClaimed` | packages/core/src/storage/memory-storage.ts:432-446 | the loop returns the first run of the scope, and none exactly when no stored run has it |
| `MemoryStorage.MemoryStorageAdapter.ClaimActionRun` | packages/core/src/storage/memory-storage.ts:125-145 | an existing run of the scope is returned unchanged, otherwise exactly one is created, made for the input field by field |
| `MemoryStorage.MemoryStorageAdapter.GetActionRun` | packages/core/src/storage/memory-storage.ts:147-151 | the stored run with that id, if any |
| `MemoryStorage.MemoryStorageAdapter.UpdateActionRun` | packages/core/src/storage/memory-storage.ts:153-185 | only that run changes: each given field replaces the old one, the others stay, its identity always; an unknown id is refused by code and changes nothing |
| `MemoryStorage.MemoryStorageAdapter.SaveSnapshot` | packages/core/src/storage/memory-storage.ts:187-211 | appends one snapshot with the given content and time to its run under a fresh id, or refuses an unknown run with nothing changed |
| `MemoryStorage.MemoryStorageAdapter.RecordSideEffect` | packages/core/src/storage/memory-storage.ts:217-243 | appends one side effect with the given content and time to its run under a fresh id, or refuses an unknown run |
| `MemoryStorage.MemoryStorageAdapter.RecordConflict` | packages/core/src/storage/memory-storage.ts:255-274 | appends one conflict with the given content and time to its run under a fresh id, or refuses an unknown run |
| `MemoryStorage.MemoryStorageAdapter.GetConflicts` | packages/core/src/storage/memory-storage.ts:276-284 | a query with neither a tenant nor a full actor is refused by code, one whose tenant or actor is not the run's sees nothing, any other sees the whole list |
| `MemoryStorage.MemoryStorageAdapter.RestoreState` | packages/core/src/storage/memory-storage.ts:482-489 | restoring a captured state gives back exactly that state |
| `MemoryStorage.DeferredConflictRecorder.Flush` | packages/core/src/runtime/snapshot-bindings.ts:163-173 | the recorder is emptied and the store is as after recording each conflict in turn |
| `MemoryStorage.RecordAllAppends` | packages/core/src/runtime/snapshot-bindings.ts:163-173 | a flush appends exactly the recorded conflicts, in order, after those already stored, to that run alone |
| `MemoryStorage.LatestSnapshot` | packages/core/src/runtime/snapshot-bindings.ts:53-58 | the newest snapshot with the key, and none exactly when no snapshot has it |
| `MemoryStorage.SaveThenGet` | packages/core/src/runtime/snapshot-bindings.ts:24-58 | the last saved value for a key is what reading that key returns |
| `JsonOwnership.CopiedIsSame` | packages/core/src/storage/memory-storage.ts:608-618 | a copy through JSON text is the same value, and copying it again changes nothing |
| `JsonCopies.CopyIsReadBack` | packages/core/src/storage/memory-storage.ts:612-618 | the copied value is exactly what a parser reads from the text a printer that keeps key order gives for the original |
| `JsonOwnership.DeepCopy` | packages/core/src/storage/memory-storage.ts:612-618 | every array and object of the copy is new, whatever the original shares |
| `JsonOwnership.CloneAll` | packages/core/src/storage/memory-storage.ts:514-575 | all JSON parts of a record are copied into new objects |
| `JsonOwnership.JsonRecords.Create` | packages/core/src/storage/memory-storage.ts:92-122 | the store keeps copies only, and what it returns shares no object with what it keeps |
| `JsonOwnership.JsonRecords.Get` | packages/core/src/storage/memory-storage.ts:147-151 | reading hands out new objects only |
| `JsonOwnership.JsonRecords.Update` | packages/core/src/storage/memory-storage.ts:157-184 | every given part is replaced by a copy, the others stay, and the result shares nothing with the store |
| `JsonOwnership.JsonRecords.CaptureState` | packages/core/src/storage/memory-storage.ts:455-480 | a captured state shares no object with the live one |
| `JsonOwnership.JsonRecords.RestoreState` | packages/core/src/storage/memory-storage.ts:482-489 | restoring installs the captured values and owns exactly their objects |
| `JsonOwnership.AnyHistory` | packages/core/src/storage/memory-storage.ts:89-185 | any history of creates, reads, updates, captures and aborts by a caller that before every call overwrites everything it passed in or got back: the store holds what the calls alone determine and shares no object with the caller |
| `TransactionLock.AcquirersTurn` | packages/core/src/storage/memory-storage.ts:55-64 | only the first ticket not yet released can ever acquire |
| `TransactionLock.OneAtATimeInOrder` | packages/core/src/storage/memory-storage.ts:50-87 | in every schedule at most one transaction is under way and they start in arrival order |
| `TransactionLock.Serializable` | packages/core/src/storage/memory-storage.ts:50-87 | the final store is that of running only the handlers that did not throw, one after another in arrival order, and each handler saw the answers of that serial run |
| `TransactionLock.ThrowingLeavesNoTrace` | packages/core/src/storage/memory-storage.ts:70-78 | a handler that throws leaves exactly the store the transactions before it left |
| `TransactionLock.NoDeadlock` | packages/core/src/storage/memory-storage.ts:55-86 | while some ticket is unreleased, one not after it can step |
| `MemoryTransactions.PerformKeepsValid` | packages/core/src/storage/memory-storage.ts:89-274 | every write of the adapter, accepted or rejected, keeps the representation invariant |
| `MemoryTransactions.PerformAnswers` | packages/core/src/storage/memory-storage.ts:89-274 | what each write answers: a rejected one changes nothing, a created run is made for its input, an update changes the given fields, a record is appended as given |
| `MemoryTransactions.StoreStaysValid` | packages/core/src/storage/memory-storage.ts:50-274 | at every moment of every schedule of transactions, aborts included, the representation invariant of the store holds |
| `MemoryTransactions.RunTransaction` | packages/core/src/storage/memory-storage.ts:66-78 | on the adapter itself: a transaction that throws after any writes leaves the whole state as it was, ids included, and one that returns leaves exactly its writes |
| `MemoryTransactions.DeferConflicts` | packages/core/src/runtime/snapshot-bindings.ts:131-174 | conflicts deferred around a transaction that is taken back: the recorder is non-empty exactly when something was recorded, and its flush appends all of them, in order, to that run alone |
| `StoreTransactions.ProgramsSerialize` | packages/core/src/storage/memory-storage.ts:50-87 | for any programs of adapter writes that arrive in any schedule and have all ended: the store is that of performing the writes of those that finished, one program after another in the order of arrival, nothing of those that failed, and every write was answered as in that serial run |
| `StoreTransactions.TicketsAreArrivals` | packages/core/src/storage/memory-storage.ts:55-64 | every transaction that arrives gets the ticket of its turn, and only those get one |
| `RuntimeSteps.GuardReadsEverything` | packages/core/src/runtime/rollbackkit.ts:345-361 | the guard's scoped queries return all conflicts and effects of the run, and it passes exactly when there is no conflict and no completed irreversible effect |
| `RuntimeSteps.ApplyKeepsInv` | packages/core/src/runtime/rollbackkit.ts:145-409 | every step of every call keeps the protocol invariant |
| `RuntimeSteps.RunKeepsInv` | packages/core/src/runtime/rollbackkit.ts:145-409 | so does every schedule of any number of calls |
| `RuntimeTheorems.HandlersStartAtMostOnce` | packages/core/src/runtime/rollbackkit.ts:235-265 | no execute or undo handler of a run starts twice in any schedule, and undo only after execute committed |
| `RuntimeTheorems.UndoHandlerStartsGuarded` | packages/core/src/runtime/rollbackkit.ts:313-369 | when an undo handler starts, its run is committed as claimed exactly once, no undo of it started before, and nothing blocks it |
| `RuntimeTheorems.BlockedUndoNeverStarts` | packages/core/src/runtime/rollbackkit.ts:346-367 | a stored conflict, a completed irreversible effect or a recorded conflict ends the undo with a conflict and the captured store |
| `RuntimeTheorems.ApplyAdvances` | packages/core/src/runtime/rollbackkit.ts:199-275 | each step moves every committed run along at most one edge of the lifecycle and leaves its identity alone |
| `RuntimeTheorems.LifecycleHolds` | packages/core/src/runtime/rollbackkit.ts:145-409 | over any schedule statuses follow the lifecycle and identity fields, input, reversibility and expiry never change |
| `RuntimeTheorems.ReadsSeeOpenRun` | packages/core/src/runtime/rollbackkit.ts:235-265 | a stored run is the committed one unless it is the run of the open transaction: then it is running or completed where the committed run is created, or undone where that is being undone |
| `RuntimeTheorems.StoreAdvances` | packages/core/src/runtime/rollbackkit.ts:235-275 | each step moves every stored run, uncommitted ones included, along one edge of created, running, completed, undo_running, undone or undo_failed; only a throwing execute handler takes its run back from running to created |
| `RuntimeTheorems.NeverCompletedAgain` | packages/core/src/runtime/runtime-errors.ts:21-38 | once an undo claimed a run, no later step makes it completed again |
| `RuntimeTheorems.TimesAreOrdered` | packages/core/src/runtime/rollbackkit.ts:259-321 | creation, execution, undo start and undo end times are in order whenever present, in committed and uncommitted state |
| `RuntimeTheorems.UndoWasInTime` | packages/core/src/runtime/runtime-errors.ts:40-54 | every claimed undo was checked on an undoable run, after execution and strictly before expiry |
| `RuntimeTheorems.MetadataIsMerged` | packages/core/src/runtime/lifecycle-helpers.ts:33-49 | metadata is the right-biased merge of request, execute and undo metadata, as far as the run has come |
| `RuntimeTheorems.OneRunPerKey` | packages/core/src/storage/memory-storage.ts:125-145 | at most one run exists per tenant or none, name, actor and idempotency key |
| `RuntimeTheorems.SameKeySameRun` | packages/core/src/runtime/rollbackkit.ts:199-233 | all keyed calls of one scope name the same run |
| `RuntimeTheorems.ReplayStoresNothing` | packages/core/src/runtime/rollbackkit.ts:212-233 | unconditionally, a keyed retry stores nothing and gets the existing run or an idempotency conflict; the identical request is always accepted, and an accepted one asks for the same input and target |
| `RuntimeTheorems.ReplayDecides` | packages/core/src/runtime/rollbackkit.ts:212-233 | when no object of the stored input has tied keys, a keyed retry gets the existing run if its input is the same up to key order and its target has the same identity, and an idempotency conflict otherwise |
| `RuntimeTheorems.ReturningHandlerDropsConflicts` | packages/core/src/runtime/rollbackkit.ts:369-392 | an undo handler that returns stores none of the conflicts it recorded |
| `RuntimeTheorems.FlushStoresAll` | packages/core/src/runtime/snapshot-bindings.ts:163-173 | uninterrupted, the flush steps store every deferred conflict in order and then throw the error |
| `RuntimeTheorems.FailedUndoEndsClosed` | packages/core/src/runtime/rollbackkit.ts:393-408 | uninterrupted, each of the three aborts (a stored blocker, recorded conflicts, an exception) is followed by its writes gone, the run undo_failed with its error, and the recorded conflicts after the stored ones |
| `RuntimeTheorems.NeverStuck` | packages/core/src/runtime/rollbackkit.ts:145-409 | the holder of the lock can always step, and when it is free every unfinished call can; the writes after an abort never fail |
| `RuntimeRequests.UndoStaysInTenant` | packages/core/src/runtime/runtime-errors.ts:57-63 | every undo past its first read works on the run it asked for, and that run has the asking tenant |
| `RuntimeRequests.FirstReadDecides` | packages/core/src/runtime/rollbackkit.ts:279-300 | although it may see uncommitted writes, the first read of an undo admits and refuses by the committed run: an unknown run as not found, another tenant as denied, any other refusal with its own code, nothing changed |
| `RuntimeRequests.UndoClaimAnswers` | packages/core/src/runtime/runtime-errors.ts:21-55 | every claim of an undo, from every reachable state, gets by the stored run and the time alone exactly one of five answers: not found, already undone, not undoable, expired, or the run with its undo started at the second reading; a refusal leaves store and history alone |
| `RuntimeRequests.LaterUndoIsRefused` | packages/core/src/runtime/runtime-errors.ts:21-42 | once an undo claimed a run, every later undo of it in any schedule is refused and stores nothing, as already undone exactly when it is undone |
| `RuntimeRequests.UndoWindowHolds` | packages/core/src/runtime/lifecycle-helpers.ts:19-31 | whatever happens after a run is created: while it is completed, an undo is claimed exactly when the action is undoable and the requested window, counted from the clock read before the call waited for the lock, has not passed, and is otherwise told which of the two is missing; every claimed undo was in it |
| `RuntimeRequests.FailedExecuteEndsClosed` | packages/core/src/runtime/rollbackkit.ts:266-275 | uninterrupted, an execute handler that throws leaves only its run marked failed with that error and time; all it wrote is gone |
| `RuntimeRequests.StartCanPassExpiry` | packages/core/src/runtime/rollbackkit.ts:317-321 | a reachable state in which a claimed run starts its undo after its expiry, because the check read the clock before |
| `RuntimeOutcomes.StartIsSecondReading` | packages/core/src/runtime/rollbackkit.ts:317-321 | every claimed undo passed the check at the first reading and is stored, for ever, with the second: its start is in the window exactly when the second reading precedes the expiry |
| `RuntimeOutcomes.ApplyOnlyOwners` | packages/core/src/runtime/rollbackkit.ts:199-408 | a step writes no committed run but that of the call taking it, except to create one or to claim a completed one |
| `RuntimeOutcomes.ExecuteEnds` | packages/core/src/runtime/rollbackkit.ts:199-276 | whatever other calls do in between: an execute that returned left its run completed with that answer, at most claimed by an undo since; one that threw left it failed with that error and otherwise as created; before that the committed run is as created |
| `RuntimeOutcomes.ExecuteReturns` | packages/core/src/runtime/rollbackkit.ts:249-265 | the answer, metadata and time an execute handler returns with are what is committed, under any schedule |
| `RuntimeOutcomes.UndoEnds` | packages/core/src/runtime/rollbackkit.ts:313-408 | whatever other calls do in between: an undo that returned left its run undone by the asking actor, one that threw left it exactly as claimed but undo_failed with that error |
| `RuntimeOutcomes.UndoReturns` | packages/core/src/runtime/rollbackkit.ts:369-392 | the answer, metadata and time an undo handler returns with are what is committed and stays committed, under any schedule |
| `RuntimeOutcomes.ConflictsOnlyGrow` | packages/core/src/runtime/rollbackkit.ts:345-408 | no step of any call takes back or reorders a committed conflict |
| `RuntimeOutcomes.FailingUndoEnds` | packages/core/src/runtime/rollbackkit.ts:393-408 | after any of the three aborts and under every schedule: when the undo has thrown, its run is as claimed but undo_failed with that error, and the conflicts stored since hold the recorded ones in order |
| `RuntimeOutcomes.FailedRunsHaveNoSnapshots` | packages/core/src/runtime/rollbackkit.ts:266-275 | in every reachable state a failed run has no snapshot: what its handler saved is gone |
| `RuntimeRecords.ExecuteClaims` | packages/core/src/runtime/rollbackkit.ts:183-233 | what claiming gives every execute from every reachable state: a key that does not fit is refused, a taken key leads to the run that has it with nothing stored, and anything else to one new run holding the request field by field, its window counted from the first reading when the action is undoable and absent otherwise |
| `RuntimeRecords.RetryGetsRun` | packages/core/src/runtime/rollbackkit.ts:199-233 | after any schedule, a request with the key, action, actor and tenant of an earlier one stores nothing and gets the run that one made, or an idempotency conflict; it gets the run whenever it asks for the same input and target, and one that gets it asked for the same input up to key order and the same target |
| `RuntimeRecords.GuardAnswers` | packages/core/src/runtime/rollbackkit.ts:345-361 | from every reachable state the guard passes exactly when the run has no stored conflict and no completed irreversible effect; otherwise the undo fails with a conflict and the captured store is back |
| `RuntimeRecords.StartAnswers` | packages/core/src/runtime/rollbackkit.ts:362-369 | after the conflict check the undo handler starts exactly when nothing was recorded |
| `RuntimeRecords.StoredRecordsStay` | packages/core/src/runtime/rollbackkit.ts:145-409 | over any schedule a committed snapshot, side effect or conflict stays in its run's list, in its place |
| `RuntimeRecords.HandlerRecordsAreKept` | packages/core/src/runtime/rollbackkit.ts:235-265 | a snapshot or side effect recorded by an execute handler is stored as given and at that time, and once that execute has returned it is committed, under any schedule |
| `RuntimeRecords.OutsideRecordsAreKept` | packages/core/src/storage/memory-storage.ts:217-274 | a side effect or conflict recorded outside any transaction is committed at once as given |
| `RuntimeRecords.ForbiddenForEver` | packages/core/src/runtime/rollbackkit.ts:345-361 | once a conflict or a completed irreversible effect of a run is committed, every later guard of an undo of that run, in every schedule, refuses with a conflict |
| `RuntimeRecords.FlushStoresNext` | packages/core/src/runtime/snapshot-bindings.ts:163-173 | each step of a flush stores the next deferred conflict as recorded and at that time, or ends the undo with its error |
| `RuntimeRecords.RecordedConflictCounts` | packages/core/src/runtime/rollbackkit.ts:362-408 | under any schedule, a conflict recorded by the conflict check keeps the undo handler from ever starting, and any recorded conflict is stored for the run by the time its undo has thrown |
| `RuntimeConflicts.RecordedAreStored` | packages/core/src/runtime/rollbackkit.ts:345-408 | from the opening of its transaction to its error, under any schedule: every conflict an undo recorded, before or in its handler, is stored for its run, all in the order they were recorded |
| `RuntimeAlone.ExecuteAlone` | packages/core/src/runtime/rollbackkit.ts:183-265 | an execute nothing interrupts, whose key is free and whose handler returns, ends with one new run: the request's fields, completed, with the handler's answer, time and metadata |
| `RuntimeAlone.UndoAlone` | packages/core/src/runtime/rollbackkit.ts:279-392 | an undo nothing interrupts, of a completed run of its tenant, in its window, with nothing against it, ends with that run undone by the asking actor, with the handler's answer, times and metadata, and every other field and run as before |
| `RuntimeAlone.ExecuteThenUndo` | packages/core/src/runtime/rollbackkit.ts:145-409 | left alone, what was executed can be undone in its window, and the final run holds both answers |
| `Pagination.SortedStrictly` | packages/core/src/storage/memory-storage.ts:319-327 | runs with distinct ids, none of which tie, come out in strict order |
| `Pagination.MatchingIsExact` | packages/core/src/storage/memory-storage.ts:286-327 | the listed runs are exactly the matching ones, each once |
| `Pagination.CursorFound` | packages/postgres/src/store.ts:564-578 | the in-memory cursor is found exactly when its run exists and satisfies the query's own filters |
| `Pagination.IndexSliceIsKeyset` | packages/postgres/src/store.ts:564-594 | when the ids of the matching runs do not tie, dropping through the cursor and comparing with the cursor give the same page for every filter, cursor and limit |
| `Pagination.PagesAgreeIffApart` | packages/postgres/src/store.ts:564-594 | for one consistent order on ids, dropping through the cursor and comparing with it agree for every cursor and limit if and only if no two distinct ids among the matching runs of one time tie |
| `Pagination.SameListIff` | packages/core/src/storage/memory-storage.ts:319-327 | two orders on ids list the matching runs alike if and only if they decide every pair of one time alike |
| `Pagination.PagesAgreeIffListsDo` | packages/core/src/storage/memory-storage.ts:286-342 | two orders on ids give the same pages for every cursor and limit if and only if they give the same list |
| `Pagination.StoresAgreeIff` | packages/postgres/src/store.ts:523-601 | two stores with the same runs, stored in any order, each sorting ids its own way: keyset pages and index-slice pages agree for every cursor and limit if and only if the keyset order ties no two matching runs of one time and both orders decide each such pair alike |
| `Pagination.AlikeWhenApart` | packages/postgres/src/store.ts:589-594 | against an order without ties, ordering the ids alike is the same as deciding all pairs alike without ties |
| `Pagination.OrdersCanDisagree` | packages/postgres/src/store.ts:589-594 | two runs of one millisecond and two orders, neither with a tie, under which the two stores list them differently |
| `Pagination.PageAt` | packages/core/src/storage/memory-storage.ts:329-339 | the page asked for by an id is the stretch after that run, of exactly as many runs as the limit, held between zero and what is left, allows |
| `Pagination.LimitedIs` | packages/core/src/storage/memory-storage.ts:335-337 | limiting keeps the first runs, as many as the limit, held between zero and the length, says |
| `Pagination.PageIs` | packages/core/src/storage/memory-storage.ts:286-339 | every page is a stretch of the filtered order, starting after the cursor if that is found and at the start otherwise, of exactly as many runs as the limit allows |
| `Pagination.ListedAre` | packages/core/src/storage/memory-storage.ts:286-327 | the filtered order, filter by filter: exactly the stored runs with the asked tenant, actor, target, name and status, once each, newest first and by descending id within a millisecond |
| `Pagination.KeysetAre` | packages/postgres/src/store.ts:564-601 | the keyset page is as many of the runs after the cursor, newest first, as the limit allows |
| `Pagination.WalkPages` | packages/core/src/storage/memory-storage.ts:286-342 | paging by the last id with a positive limit ends and yields the whole filtered order, each run once, in pages of exactly that size but the last, which is not longer |
| `SqlHistory.ConditionBuilder.AddCondition` | packages/postgres/src/store.ts:531-534 | the new placeholder is bound to the value just pushed, and the clause is true exactly for the rows kept so far that have it |
| `SqlHistory.ConditionBuilder.AddKeyset` | packages/postgres/src/store.ts:567-577 | the two placeholders are bound to the cursor's time and id, and the clause keeps exactly the later rows |
| `SqlHistory.AddFilters` | packages/postgres/src/store.ts:536-562 | the clause is true under three-valued logic exactly for rows whose columns match |
| `SqlHistory.BuildWhere` | packages/postgres/src/store.ts:528-580 | the whole condition is true exactly for the rows whose run matches the filters and lies after the cursor, if that is found |
| `SqlHistory.ColumnsMatchRecord` | packages/postgres/src/store.ts:748-778 | on rows that satisfy the audit constraints the columns match exactly when the mapped run does |
| `SqlHistory.SelectedIsFilter` | packages/postgres/src/store.ts:589-600 | filtering rows in SQL and mapping them is mapping them and filtering in memory |
| `SqlHistory.QueryActionRuns` | packages/postgres/src/store.ts:523-601 | the database query, its limit bound as a parameter, returns exactly as many of the rows after the cursor, in its own order on ids, as the limit allows, always; and the page of an in-memory store with the same runs whenever the two orders agree as `Pagination.StoresAgreeIff` requires |
| `SqlRecords.CreateRecordScope` | packages/postgres/src/store.ts:718-746 | the scope numbered after the run id is true exactly when tenant and actor of the run match |
| `SqlRecords.ReadScoped` | packages/postgres/src/store.ts:498-521 | the joined, scoped and ordered read of child records has the records the in-memory read has, always, for unknown runs too, and in the same order when creation times increase |
| `SqlUpdate.UpdateBuilder.PushAssignment` | packages/postgres/src/action-run-update-query.ts:17-20 | the placeholder refers to the value just pushed, and evaluating the list merges one more field |
| `SqlUpdate.PushMeans` | packages/postgres/src/action-run-update-query.ts:22-56 | appending an assignment never disturbs those already built |
| `SqlUpdate.CreateActionRunUpdateQuery` | packages/postgres/src/action-run-update-query.ts:10-71 | evaluated on any row and mapped back, the statement is the in-memory merge; there is none exactly for an empty update |
| `SqlUpdate.UpdateActionRun` | packages/postgres/src/store.ts:275-299 | an unknown id is reported and changes nothing; otherwise only that row changes, to the merge that is returned, and an empty update changes nothing |
| `PostgresRows.ReadingLosesNothing` | packages/postgres/src/mappers.ts:104-107 | mapping a row keeps every column, and an absent result stays distinct from a JSON null |
| `PostgresRows.InsertReadsBack` | packages/postgres/src/store.ts:153-225 | the inserted row holds every field of the input, and mapped back it is the run the in-memory store creates, with agreeing identity columns |
| `SqlClaim.ClaimActionRun` | packages/postgres/src/store.ts:116-151 | a claim inserts exactly when no row has the scope, and what it inserts holds every field of the input; otherwise it returns the only row that has it, also when other sessions wrote between the insert and the lookup; storage never reports a lost conflict |
| `SqlClaim.ArbiterIsRight` | packages/postgres/src/store.ts:665-679 | the conflict clause names the only partial index the new row falls under, so it decides the conflict |
| `SqlClaim.MatchingIsScope` | packages/postgres/src/store.ts:242-273 | the lookup condition holds exactly for rows of the input's scope, the missing tenant included |
| `SqlClaim.InsertKeepsIndexes` | packages/postgres/src/migrations/0002-action-run-idempotency.ts:10-16 | an insert that met no conflict keeps both partial unique indexes |
| `SqlClaim.OneRowPerScope` | packages/postgres/src/migrations/0002-action-run-idempotency.ts:10-16 | the indexes leave one row per scope |
| `MigrationStatus.AssertUniqueMigrationIds` | packages/postgres/src/migration-runner.ts:388-403 | the loop objects exactly to bundles with a repeated id and names one |
| `MigrationStatus.AssertAppliedChecksums` | packages/postgres/src/migration-runner.ts:440-472 | the loop returns the first objection to the recorded checksums |
| `MigrationStatus.ChecksumFailureExact` | packages/postgres/src/migration-runner.ts:440-472 | there is no objection exactly when every applied id is bundled with an accepted checksum |
| `MigrationStatus.ChecksumFailureIsFirst` | packages/postgres/src/migration-runner.ts:440-472 | the objection is about the first applied row that is not bundled with an accepted checksum, and says which of the two it is |
| `MigrationStatus.AssertBundledPrefix` | packages/postgres/src/migration-runner.ts:474-504 | the loop returns the first objection to the recorded order |
| `MigrationStatus.PrefixFailureExact` | packages/postgres/src/migration-runner.ts:474-504 | there is no objection exactly when the applied ids are a prefix of the bundle at non-decreasing times |
| `MigrationStatus.PrefixFailureIsFirst` | packages/postgres/src/migration-runner.ts:474-504 | the objection is about the first row that is not the next of the bundle or is older than the one before, and says which of the two it is |
| `MigrationStatus.StatusIsPrefix` | packages/postgres/src/migration-runner.ts:364-379 | a status exists exactly for a prefix with accepted checksums in time order; skipped is that prefix and pending the rest |
| `MigrationStatus.StatusFailsWith` | packages/postgres/src/migration-runner.ts:364-379 | checksums are objected to before the order is |
| `MigrationStatus.BackfillExact` | packages/postgres/src/migration-runner.ts:265-277 | repair gives each blank checksum of a bundled migration that migration's checksum and touches no other row |
| `MigrationStatus.RepairedReadsIff` | packages/postgres/src/migration-runner.ts:243-313 | after a successful repair the table can be read if and only if every checksum the program calls blank was one the database calls blank, of a bundled migration |
| `MigrationStatus.TabChecksumStaysUnreadable` | packages/postgres/src/migration-runner.ts:265-313 | a checksum of one tab is left alone by the repair, which succeeds, and then refused by the read |
| `MigrationStatus.SpacesAreRepaired` | packages/postgres/src/migration-runner.ts:265-277 | a checksum of any number of spaces, none included, is repaired |
| `MigrationStatus.EnsureSucceedsIff` | packages/postgres/src/migration-runner.ts:243-280 | the ensure step refuses exactly tables with a blank checksum, or, with the opt-in, those where a missing one belongs to no bundled migration, each with its own error |
| `MigrationStatus.ReadFailsIff` | packages/postgres/src/migration-runner.ts:301-313 | reading refuses exactly a table in which some checksum is blank, with its own error |
| `MigrationProtocol.ReadsAscending` | packages/postgres/src/migration-runner.ts:301-313 | rows with distinct ids are read once each in strictly ascending order |
| `MigrationProtocol.ReadAfterCommit` | packages/postgres/src/migration-runner.ts:197-213 | after a commit the table reads as the old rows followed by the new ones in bundle order |
| `MigrationProtocol.CommitCompletes` | packages/postgres/src/migration-runner.ts:183-215 | the status after a commit succeeds with nothing pending |
| `MigrationProtocol.LockStays` | packages/postgres/src/migration-runner.ts:315-337 | only the holder of the advisory lock is ever inside, in every step |
| `MigrationProtocol.RunKeepsInv` | packages/postgres/src/migration-runner.ts:161-236 | every schedule of any number of runners keeps the protocol invariant |
| `MigrationProtocol.ExactlyOnce` | packages/postgres/src/migration-runner.ts:161-236 | each migration is committed at most once and in bundle order, none that was already there, and every commit is reported as applied by its runner, unless the answer to its COMMIT was lost and that runner failed |
| `MigrationProtocol.ReportsCoverBundle` | packages/postgres/src/migration-runner.ts:167-215 | each successful runner reports as skipped what was there and as applied what it added, together the whole bundle in order |
| `MigrationProtocol.FailureLeavesRows` | packages/postgres/src/migration-runner.ts:216-234 | from the ensure step on, under every schedule, a runner that fails leaves rows and effects as they were at the ensure step, unless the answer to its COMMIT was lost: then the rest of the bundle is there and nothing is pending |
| `MigrationProtocol.EnsureOnlyFillsChecksums` | packages/postgres/src/migration-runner.ts:243-280 | the ensure step, failing or not, touches only blank checksums, and only with the opt-in |
| `MigrationProtocol.CommitSettles` | packages/postgres/src/migration-runner.ts:197-215 | a commit, its answer lost or not, leaves nothing pending and nothing to repair |
| `MigrationProtocol.SettledStays` | packages/postgres/src/migration-runner.ts:161-172 | on a settled table no step of any runner changes anything |
| `MigrationProtocol.FollowingRunAppliesNothing` | packages/postgres/src/migration-runner.ts:161-172 | a following migrate succeeds, applies nothing and skips the whole bundle |
| `MigrationRows.CommitWrites` | packages/postgres/src/migration-runner.ts:183-215 | whatever other runners do between the begin and the commit of a transaction: the commit adds, to exactly the rows there were at its begin, one row for each missing migration in bundle order, with the checksum of its SQL and the time the transaction began |
| `MigrationRows.OldRowsStay` | packages/postgres/src/migration-runner.ts:161-280 | in every schedule of any number of runners a row that was there keeps its place, id and time, and its checksum too, unless that was blank and some runner had the opt-in: then it may have become that of its bundled migration |
| `MigrationAlone.MigrateAlone` | packages/postgres/src/migration-runner.ts:161-236 | left alone on a table the ensure step accepts and whose status can be read, migrating succeeds: it reports the rest of the bundle as applied and what was there as skipped, exactly those migrations have taken effect, and each has its row |
| `MigrationAlone.RecoversFromCrash` | packages/postgres/src/migration-runner.ts:216-236 | a runner that loses its connection at any point of any schedule leaves the lock free and nothing half done: a runner started next completes the bundle and no migration takes effect twice |
| `DemoState.CountIsLength` | apps/demo-next/lib/server/repositories/member-repository.ts:94-104 | a row count equals the list length exactly when every listed row matches |
| `DemoState.ProjectAfterWrites` | apps/demo-next/lib/server/repositories/project-repository.ts:76-83 | rows nobody wrote are unchanged, and a row somebody wrote carries a newer revision |
| `DemoState.MemberAfterWrites` | apps/demo-next/lib/server/repositories/member-repository.ts:106-115 | the same for member rows |
| `DemoWriters.AnythingCanBeWritten` | apps/demo-next/db/schema.sql:8-57 | the other writers can take the tables from any state to any other, up to revisions, so nothing proved under their interference depends on what they cannot do |
| `MemberRemove.DeleteKeepsConstraints` | apps/demo-next/db/schema.sql:8-57 | removing a member keeps every foreign key and unique email |
| `MemberRemove.InsertKeepsConstraints` | apps/demo-next/db/schema.sql:8-57 | re-inserting the member keeps them |
| `MemberRemove.UndoKeepsConstraints` | apps/demo-next/db/schema.sql:8-57 | the whole undo keeps them |
| `MemberRemove.RemoveSucceeds` | apps/demo-next/lib/server/actions/member-remove.action.ts:140-165 | removing right after reading succeeds and clears every link to the member |
| `MemberRemove.RemovalClearsExactlyListed` | apps/demo-next/lib/server/repositories/member-repository.ts:90-138 | a removal that succeeds among other writers deleted the row that was read and cleared exactly the links that existed |
| `MemberRemove.ReadAnswers` | apps/demo-next/lib/server/actions/member-remove.action.ts:143-149 | the read answers not found for no such member of the workspace, a conflict for an owner, and the row otherwise |
| `MemberRemove.SnapshotHolds` | apps/demo-next/lib/server/actions/member-remove.action.ts:499-514 | the snapshot holds every column of the row, the creation time cut to the millisecond, and both lists |
| `MemberRemove.DeleteAnswers` | apps/demo-next/lib/server/repositories/member-repository.ts:90-138 | a removal conflicts exactly when a listed link or the row is not as read, breaks a foreign key exactly when the member owns anything unlisted, and otherwise clears the listed links and deletes the row |
| `MemberRemove.UndoSucceedsIff` | apps/demo-next/lib/server/actions/member-remove.action.ts:181-255 | undo succeeds if and only if the conflict check passes in the same state and the member id is free in every workspace |
| `MemberRemove.UndoAnswers` | apps/demo-next/lib/server/repositories/member-repository.ts:140-162 | a refused undo breaks a foreign key exactly when only the workspace is missing, and is a conflict otherwise |
| `MemberRemove.CheckAnswers` | apps/demo-next/lib/server/actions/member-remove.action.ts:377-497 | the check passes exactly when id, workspace, email and the owners of the listed projects and documents allow the restore, and objects with a conflict only |
| `MemberRemove.CheckMissesOtherWorkspace` | apps/demo-next/lib/server/actions/member-remove.action.ts:382-392 | a member read and removed, then one write of another transaction: the check passes and the undo conflicts, because another workspace holds the id |
| `MemberRemove.UndoRestoresExactly` | apps/demo-next/lib/server/actions/member-remove.action.ts:202-255 | under any interference a successful undo restores the snapshotted row, its creation time the snapshotted millisecond, and exactly the listed links, and leaves every other row alone |
| `MemberRemove.RemovalCanBeUndone` | apps/demo-next/lib/server/actions/member-remove.action.ts:140-255 | right after a removal the check passes and the undo succeeds |
| `MemberRemove.RemoveThenUndo` | apps/demo-next/lib/server/actions/member-remove.action.ts:140-255 | with nothing in between all tables equal the originals apart from revisions, the creation time `t` being `t - t % 1000` microseconds |
| `MemberRemove.RoundTripAmongWriters` | apps/demo-next/lib/server/actions/member-remove.action.ts:140-255 | writers between the read of the row, the two reads of the owned links, the removal and the undo: the row read is the row deleted and the row restored, created at `t - t % 1000` where it was read with `t`, with exactly the links cleared |
| `ProjectArchive.ArchiveSeesReadRow` | apps/demo-next/lib/server/repositories/project-repository.ts:71-107 | archiving succeeds if and only if nobody wrote the row since it was read |
| `ProjectArchive.ReadAnswers` | apps/demo-next/lib/server/actions/project-archive.action.ts:110-123 | the read answers not found, a conflict for an archived project, or the row with its times cut to the millisecond |
| `ProjectArchive.ArchiveAnswers` | apps/demo-next/lib/server/repositories/project-repository.ts:65-111 | archiving conflicts exactly when the project is not in the workspace, not active or has another revision; otherwise status, archive time and update time change and nothing else |
| `ProjectArchive.RestoreAnswers` | apps/demo-next/lib/server/repositories/project-repository.ts:113-165 | restoring conflicts exactly when the project is not in the workspace, not archived or has another revision; otherwise status and both times are those of the snapshot and nothing else changes |
| `ProjectArchive.RestoreIffUntouched` | apps/demo-next/lib/server/repositories/project-repository.ts:113-161 | undo succeeds if and only if nobody wrote the row since the archive |
| `ProjectArchive.ArchiveCheckAnswers` | apps/demo-next/lib/server/actions/project-archive.action.ts:140-173 | the check passes exactly for a project of the workspace that is archived, and objects with a conflict only |
| `ProjectArchive.ArchiveRoundTrip` | apps/demo-next/lib/server/actions/project-archive.action.ts:107-192 | when archive and undo both commit, nobody wrote the row in between and it is as it was read, each time `t` being `t - t % 1000` microseconds, every other row untouched |
| `ProjectArchive.CheckMissesRewrite` | apps/demo-next/lib/server/actions/project-archive.action.ts:162-172 | a write after which the check still passes although the undo conflicts: it looks at the status, not the revision |
| `ProjectArchive.RoleCheckIsExact` | apps/demo-next/lib/server/actions/member-change-role.action.ts:156-189 | for roles the check passes exactly when the undo in the same state succeeds |
| `ProjectArchive.RoleCheckAnswers` | apps/demo-next/lib/server/actions/member-change-role.action.ts:156-177 | the check before the undo answers not found for no such member of the workspace, a conflict for a role changed since, and passes otherwise |
| `ProjectArchive.RoleReadAnswers` | apps/demo-next/lib/server/actions/member-change-role.action.ts:116-134 | the read before a role change answers not found, a conflict for an owner or for the role already held, or the snapshot of the role |
| `ProjectArchive.RoleAnswers` | apps/demo-next/lib/server/repositories/member-repository.ts:68-88 | the change conflicts exactly when the member is not in the workspace or has another role than expected, and otherwise changes the role and nothing else |
| `ProjectArchive.RoleRoundTrip` | apps/demo-next/lib/server/actions/member-change-role.action.ts:113-202 | when change and undo both commit among other writers, only the role moves back to the one read |
| `DemoDatabase.UpdateOwners` | apps/demo-next/lib/server/repositories/member-repository.ts:164-214 | the row-by-row update with its counter, shared by the four bulk link statements: exactly the listed rows of the workspace with the expected owner change, and the count is their number |
| `DemoDatabase.Tables.DeleteDemoMember` | apps/demo-next/lib/server/repositories/member-repository.ts:90-138 | deletes with early exits on row counts, or reports why not |
| `DemoDatabase.Tables.RemoveMember` | apps/demo-next/lib/server/actions/member-remove.action.ts:157-178 | inside its transaction a refused removal leaves all tables as they were |
| `DemoDatabase.Tables.InsertDemoMember` | apps/demo-next/lib/server/repositories/member-repository.ts:140-162 | inserts the snapshotted row, its creation time the snapshotted millisecond, or nothing when id or email is taken |
| `DemoDatabase.Tables.UndoRemoveMember` | apps/demo-next/lib/server/actions/member-remove.action.ts:202-255 | restores the row, created at the snapshotted millisecond, and the links with the snapshotted counts, or leaves all tables as they were |
| `DemoDatabase.Tables.ArchiveDemoProject` | apps/demo-next/lib/server/repositories/project-repository.ts:65-111 | compare-and-set on status and revision; answers the revision undo expects |
| `DemoDatabase.Tables.RestoreDemoProject` | apps/demo-next/lib/server/repositories/project-repository.ts:113-165 | compare-and-set on archived status and the recorded revision; status and both times are those of the snapshot, in whole milliseconds |
| `DemoDatabase.Tables.ChangeDemoMemberRole` | apps/demo-next/lib/server/repositories/member-repository.ts:68-88 | compare-and-set on the role |
| `DemoDatabase.RemoveAndUndo` | apps/demo-next/lib/server/actions/member-remove.action.ts:140-255 | removing and undoing at once, on the tables themselves, keeps the constraints and what a user sees |

## Left out

- Preview, the action registry, input parsing and the text of authorization: they decide whether a call starts; here a call starts validated, and a refusal is an arbitrary error.
- User interface, command line, connection pooling, environment files and the documentation checker: no logic of the core.
- SHA-256, UUIDs, `Intl`, the real collation of `localeCompare` and of PostgreSQL, and date parsing: parameters with the properties named above; the number renderer likewise.
- Error messages and details: only the error code is kept, also in the stored `error` of a run.
- Calls of `execute` or `undo` made inside another call's handler, and work that outlives its transaction: an outer abort would restore `completed`, so the at-most-once theorems are about calls made outside handlers.
- Handlers that bypass their bound recorders and write other runs through the storage adapter.
- The per-run lock inside the transaction lock of the in-memory store: while the transaction lock is held, nobody else can be waiting for it.
- Calls that never return: progress is stated as "a step is possible", not as fairness.
- The runtime over PostgreSQL: `BEGIN`, row locks and isolation are the database's; the adapter is proved statement by statement.
- The newest snapshot by key in PostgreSQL: rows of one millisecond are ordered by random ids, so there is no last-write-wins to prove.
- The inserts of side effects, snapshots and conflicts into PostgreSQL: they would repeat the insert and mapping of runs; `SqlRecords` models how they are read.
- Key order and number spelling inside `jsonb` columns: a stored JSON value is taken to be read back as it was.
- JsonOwnership.JsonRecords.Create: dates and the plain objects around the JSON values are not objects of this model; a clock that hands out one mutable date could still be changed by its owner.
- JsonOwnership.AnyHistory: this class holds the JSON parts of records only; `MemoryStorage` holds the same store as values, and the two are not tied by a proof. The caller builds new arguments for each call; `Create` and `Update` themselves take any objects, also those the caller was handed.
- JsonOwnership.DeepCopy: the text between printing and parsing is not built; the copy is made node by node, and `JsonCopies.CopyIsReadBack` says that its value is the one read back from that text.
- MigrationProtocol.FollowingRunAppliesNothing: the status and listing calls of the runner read the same rows and are not steps of the protocol.
- MemberRemove.RoundTripAmongWriters: other transactions run between the three reads, the removal and the undo, not between the statements that write in one transaction; and the interference is assumed to have left the constraints in force, as the database enforces them.
- TransactionLock.Serializable: writes only; a read that takes no lock may see an open transaction.
- The remaining demo tables and pages, seeding, and the schema script: only the constraints used above.
