# AgentC core: verified models

Dafny models of six components of AgentC, and proofs of what they promise over all inputs and all runs.
`dafny verify dfyconfig.toml` checks the whole project.

**Transactional slab arena** (`Common`, `ArenaModel`, `ArenaInvariant`, `ArenaRuns`, `Arena`; `BlobModel`,
`BlobArena`). A reference-counted slot allocator with nested checkpoints. The state (reference counts, slab counters,
allocation log, the three checkpoint stacks, quarantined slots) is a value on which every operation is a function or
relation; runs of these are what the theorems speak of. `Arena.Allocator` is the allocator with its slabs and loops,
each method proved to perform the model's step. The blob arena is treated the same way.

**Resource broker** (`BrokerModel`, `BrokerProtocol`, `Broker`, `MailboxRing`). What each operation does uninterrupted;
then its atomic steps, with the unlocked compare-and-swap falling anywhere between the word accesses of whoever holds
the mutex; then the broker object. The single-producer, single-consumer ring is modelled load by load and store by
store, with wrapping 64-bit indices.

**Edict VM** (`Bytecode`, `VmModel`, `NestedModel`, `VmMeaning`, `TailCalls`, `EdictVm`, `Rewriting`). Conditionals run
as a flat scan over encoded instructions; the meaning they should have is that of a tree of nested conditionals. The
instruction set other than THROW, CATCH, PUSHEXT and EVAL is a parameter. The rewrite engine is proved against a
declarative specification of longest-suffix rewriting.

**Wire formats** (`Json`, `Schema`, `Protocol`, `Resolver`; `JsonExact`, `SchemaExact`, `WireExact`, `ResolverExact`).
Text functions for the printers, reader functions for the parsers, round trips between them, exactly which texts the
parsers take, and the writer and parser objects proved against both. Text functions take the text that follows as an
argument, which is why several methods have a ghost parameter `rest`. The JSON is a subset of RFC 8259: section 7
escapes limited to the five the code uses.

**Linked containers** (`Ring`, `SearchTree`). Splice and remove of the circular list, and add, find, remove and walk of
the search tree, first as functions on values, then on nodes whose links are assigned.

**Deferred imports and boxing** (`ImportModel`, `ImportService`, `Boxing`, `CTypes`). The state machine of queue calls,
child process and reader thread with the disconnect race, and the packing of nested records into bytes.

## What the proofs show about the code

* The documentation calls a checkpoint one integer and a rollback the resetting of it (`README.md:56`). That is so while
  no last reference has been dropped: then the three routes agree (`ArenaInvariant.RoutesAgree`). Otherwise the code
  replays its log, and what is restored is stated by `ArenaRuns.RollbackRestores`.
* Rollback checks a handle only by depth and log position (`core/alloc.h:1472`), but the fast paths use the handle's own
  watermark (`core/alloc.h:1482`). `ArenaRuns.StaleHandleLosesSlot` is the failing case and
  `ArenaRuns.HandleExact` the exact condition, for the strict reset and the downward walk alike.
  `ArenaRuns.RollbackRestores` is about rollbacks with the handle of their own checkpoint.
* A slot lives as long as one plus its retains exceeds its releases at every point since its allocation
  (`ArenaRuns.SharedSlotLives`). Counting at the last point alone is right while nobody touches the slot once dead
  (`ArenaRuns.ReferencesExact`) and not in general: a release or retain of a dead slot does nothing
  (`ArenaRuns.LateRetain`), and the slot can be allocated again.
* A blob slab filled exactly gives a watermark of 0 (`core/alloc.h:408`, a cast to 16 bits), so even an immediate rollback
  empties it (`BlobModel.FullSlabTruncates`). The reserved null address is lost when the checkpoint was taken before slab
  0 existed, or when slab 0 was the only slab and exactly full (`BlobModel.NullStaysReserved`). Slabs below the watermark
  that first-fit has grown are not shrunk (`BlobModel.RollbackCounts`, with the run `BlobModel.GrownSlabStays`).
* A participant id used by two threads at once can end up waiting for itself (`BrokerProtocol.QueueingExact`). Between
  collecting and recovering expired leases the mutex is free, and a fresh lease of the same owner can be recovered
  (`BrokerProtocol.FreshLeaseRecovered`); `BrokerProtocol.RecoveryExact` says exactly when. A lease renewed past a tick is
  not collected at it (`BrokerProtocol.RenewedNotCollected`).
* A scan that reaches an EVAL at the very end of its frame never advances (`edict/edict_vm_core.cpp:2251`):
  `VmMeaning.ScanFinishes` is exact, and `VmMeaning.FlatMeansNested` assumes frames with conditionals do not end so.
* The success flag of a decoded status message is computed from the status, and mode and id are the result's
  (`Protocol.StatusExact`).
* A null stored under the empty name makes a tree node look empty (`core/container.h:88`); the next add renames it in
  place (`SearchTree.AddedExact`, `SearchTree.NullUnderEmptyName`).
* A request id used twice lets a status run backward (`ImportModel.ReusedIdRunsBackward`); `ImportModel.StepForwardExact`
  names the steps that do it.
* `canonicalType` takes ten unsigned eight-byte types, `size_t` and `__dev_t` among them, for signed long, and three
  unsigned four-byte types for int: a value in the upper half makes packing throw (`Boxing.LongAliasExact`,
  `Boxing.UnsignedAliasExact`; which names are unsigned is taken from glibc on x86-64). The second test for
  `__syscall_ulong_t` is never reached. `__pid_t`, `__uid_t` and `__gid_t` have four bytes and get eight, which overlaps
  the next field or runs past the record (`Boxing.IdFirstExact`, `Boxing.IdLastOverruns`). Packing has no bounds check:
  `Boxing.Fits` is a precondition.

## Assumptions

* Arena: no static-immortal marks; last references are dropped through `deallocate`; slot payloads own no references;
  reference counts do not overflow; slab size and slab count fit their 16-bit fields. `getAllocator`'s first allocation
  belongs to the constructor.
* Broker: participant ids below 2^63, one `ResourceState` per key, tokens and ids do not run out, a participant makes
  one call at a time. Atomic accesses interleave; weaker memory orders are not modelled.
* VM: a frame's length fits an int; the operations left as a parameter push only matched code.
* Text is `seq<char>` in place of bytes; `size_t` is 64 bits; an `int` is 32 bits.
* Search tree names compare character by character. Callbacks of `forEach` leave the structure alone.
* Service: writing one framed message is one step. Boxing: little-endian LP64; field conversions throw where the
  `std::sto*` functions do, and an exception leaves the buffer partly written.

## Model

| member | source | states |
|---|---|---|
| ArenaInvariant.InitialInv | core/alloc.h:895-902 | A new allocator, with its null slot taken, satisfies the arena invariant |
| ArenaInvariant.AllocatedKeepsInv | core/alloc.h:922-952 | An allocation, first-fit outside checkpoints and append-only inside, keeps the invariant |
| ArenaInvariant.FreedKeepsInv | core/alloc.h:1504-1534 | Dropping the last reference (counter, slab deletion, quarantine, cleared fast-path flags) keeps the invariant |
| ArenaInvariant.FreeSlotExists | core/alloc.h:929-936 | A slab whose counter is below its size has a free slot: the counter never undercounts live slots |
| ArenaInvariant.OpenedKeepsInv | core/alloc.h:954-962 | Opening a checkpoint keeps the invariant |
| ArenaInvariant.CommittedKeepsInv | core/alloc.h:1452-1468 | Committing a checkpoint keeps the invariant |
| ArenaInvariant.RoutesAgree | core/alloc.h:1477-1491 | While the top append-only flag is set, strict reset, downward walk and log replay leave the same reference counts on the same slots |
| ArenaInvariant.WalkedUse | core/alloc.h:813-830 | The downward walk removes exactly the live slots between the starting point and the watermark |
| ArenaInvariant.ReplayedUse | core/alloc.h:1488-1490 | Replaying a log range removes exactly the slots it names, whatever order and repetitions |
| ArenaInvariant.UndoneEffect | core/alloc.h:1480-1491 | Whichever route is taken, what goes is exactly the live part of the log since the checkpoint |
| ArenaInvariant.RolledBackKeepsInv | core/alloc.h:1470-1502 | A rollback by any route keeps the invariant at every level below |
| ArenaInvariant.StepKeepsInv | core/alloc.h:922-1534 | Every operation of the arena keeps the invariant |
| ArenaRuns.ReachableSafety | core/alloc.h:922-952 | In every reachable state: counters cover live slots (exactly, without the strict reset), an allocated slot is in range, was not live and not quarantined, and a slab vanishes only when nothing in it is live |
| ArenaRuns.SinceRun | core/alloc.h:945-962 | Through any run under an open checkpoint, what is live was live at the checkpoint or is in the log since |
| ArenaRuns.RollbackRestores | core/alloc.h:1470-1502 | For every run with arbitrarily nested checkpoints: a rollback leaves live exactly the slots live at its checkpoint and at every step since, with their reference counts |
| ArenaRuns.CommitKeeps | core/alloc.h:1452-1468 | A commit keeps every slot and every counter |
| ArenaRuns.QuarantineHolds | core/alloc.h:1517-1520 | A slot released under a checkpoint is not reused until the outermost checkpoint closes, over any run |
| ArenaRuns.ReferenceStep | core/alloc.h:1504-1587 | What one operation does to a live slot that no rollback takes: its count goes up by a retain, down by a release, it dies exactly with the release of its last reference, and nothing else touches it |
| ArenaRuns.CountedReferences | core/alloc.h:1504-1587 | While a slot lives and no rollback takes it, its count is what it was plus the retains minus the releases of it since |
| ArenaRuns.SharedSlotLives | core/alloc.h:1504-1587 | Over any run, with no rollback taking it: a slot stays live from its allocation up to a step if and only if at every point between, one plus its retains exceeded its releases, and that difference is its reference count |
| ArenaRuns.ReferencesExact | core/alloc.h:1504-1587 | If nobody retains, releases or is given the slot again once it is dead, it is live at a step if and only if one plus the retains since its allocation exceeds the releases |
| ArenaRuns.LateRetain | core/alloc.h:1577-1587 | Otherwise not: a retain after the last release is refused, so the slot is dead although the retains, and one, outnumber the releases |
| ArenaRuns.StaleHandleLosesSlot | core/alloc.h:1472-1475 | A handle of an earlier, committed checkpoint can pass the check at line 1472; strict reset and downward walk both then take a slot live at the checkpoint |
| ArenaRuns.HandleExact | core/alloc.h:1472-1486 | With the flag set and any accepted handle, strict reset or walk is right if and only if the slots it takes are those above the recorded watermark: it takes what lies above the handle's watermark or, when the walk never comes to that, all but the null slot |
| ArenaRuns.ReplayIgnoresWatermark | core/alloc.h:1487-1491 | After a last reference was dropped, the handle's watermark no longer matters and the replay is right |
| Arena.Allocator.constructor | core/alloc.h:895-902 | A new allocator shows the initial state of the model |
| Arena.Allocator.CurrentHighWatermark | core/alloc.h:709-722 | The two downward loops find the highest live slot |
| Arena.Allocator.AllocateAppendOnlyRaw | core/alloc.h:783-811 | The loops over slabs and offsets return the least slot above everything live that is not quarantined, or fail when there is none |
| Arena.Allocator.FirstFitRaw | core/alloc.h:929-942 | The loops return the first free slot of the first slab not counted full, or fail when all are full |
| Arena.Allocator.AllocRaw | core/alloc.h:922-952 | One allocation, by either policy, is the model's allocation step |
| Arena.Allocator.TryRetain | core/alloc.h:1577-1587 | A reference is added exactly to a live slot other than the null slot |
| Arena.Allocator.InvalidateCheckpointFastPath | core/alloc.h:703-707 | Clears the flag of every open level |
| Arena.Allocator.Deallocate | core/alloc.h:1504-1534 | One reference is dropped; only with the last one do the slot, its counter, its slab when empty, the quarantine and the flags change, as the model says (whose counting is ArenaRuns.SharedSlotLives) |
| Arena.Allocator.OpenCheckpoint | core/alloc.h:954-962 | Pushes a level and returns its handle |
| Arena.Allocator.CommitCheckpoint | core/alloc.h:1452-1468 | Pops the level exactly when the handle is accepted |
| Arena.Allocator.ReplayLog | core/alloc.h:1488-1490 | The loop over the log, last entry first, is the model's replay |
| Arena.Allocator.WalkDown | core/alloc.h:813-830 | The loop is the model's downward walk; it ends by a lexicographic measure |
| Arena.Allocator.ResetAbove | core/alloc.h:836-868 | The fills of the strict reset leave exactly the counts below the watermark and set the slab counters as the model says |
| Arena.Allocator.RollbackCheckpoint | core/alloc.h:1470-1502 | The whole rollback, whichever route it takes, is the model's rollback |
| BlobModel.AllocatesExtent | core/alloc.h:372-389 | A successful blob allocation holds its bytes and is disjoint from every extent held before, which keeps its bytes |
| BlobModel.AllocatesFails | core/alloc.h:372-389 | The null result is returned exactly for a bad length or when no slab has room |
| BlobModel.StepKeepsInv | core/alloc.h:372-437 | Every blob operation keeps the shape of the slabs and the stack of marks |
| BlobModel.ExtentSurvives | core/alloc.h:404-437 | Over any run with nested checkpoints, an extent held at a checkpoint still holds its bytes after the rollback and was disjoint from everything allocated meanwhile |
| BlobModel.FullSlabTruncates | core/alloc.h:404-415 | Rolling straight back gives the checkpoint's counters if and only if there was no slab or the top slab was not exactly full, whose 65536 bytes read 0 in 16 bits |
| BlobModel.FullSlabLosesExtent | core/alloc.h:417-430 | Then a rollback cuts the slab to nothing and an extent held at the checkpoint is lost |
| BlobModel.EmptyCheckpointLosesNull | core/alloc.h:378-378 | A checkpoint taken before slab 0 exists, rolled back, frees the null address for the next blob |
| BlobModel.NullStaysReserved | core/alloc.h:404-430 | A checkpoint and its rollback keep the null address reserved if and only if there is still no slab, or slab 0 existed at the checkpoint and was not both the only slab and exactly full |
| BlobModel.GrownSlabStays | core/alloc.h:375-387 | A legal run in which first-fit grows a slab below the watermark and the rollback leaves it grown |
| BlobModel.RollbackCounts | core/alloc.h:417-430 | A rollback gives back exactly the checkpoint's counters if and only if no slab below the watermark has grown |
| BlobArena.BlobAllocator.Allocate | core/alloc.h:372-389 | The first-fit loop, creating slabs on the way, is the model's allocation |
| BlobArena.BlobAllocator.OpenCheckpoint | core/alloc.h:404-415 | The scan from the top finds the watermark, with the cast to 16 bits |
| BlobArena.BlobAllocator.Rollback | core/alloc.h:417-430 | The loop over the slabs above the watermark cuts the counters as the model says, and leaves every byte |
| BlobArena.BlobAllocator.Commit | core/alloc.h:432-437 | Pops the mark exactly when the handle is accepted |
| MailboxRing.SlotIndex | core/root1_resource_broker.cpp:223-223 | Wrapping 64-bit indices still name the right slot, because the capacity divides 2^64 |
| MailboxRing.WrappedDifference | core/root1_resource_broker.cpp:219-219 | The wrapped difference of the two indices is the number of unread slots |
| MailboxRing.StepKeepsInv | core/root1_resource_broker.cpp:216-238 | Every single load, slot access and store of either side keeps the ring's invariant |
| MailboxRing.FifoUnderInterleaving | core/root1_resource_broker.cpp:216-238 | Under every interleaving: what was popped is a prefix of what was pushed, at most the capacity is unread, and no slot is overwritten unread or read unpublished |
| MailboxRing.RefusalExact | core/root1_resource_broker.cpp:219-233 | What a refusal by either side says about the ring at the moment of its second load |
| MailboxRing.MailboxRing.TryPush | core/root1_resource_broker.cpp:216-226 | Uninterrupted, appends to the queue, or refuses exactly when it is full |
| MailboxRing.MailboxRing.TryPop | core/root1_resource_broker.cpp:228-238 | Uninterrupted, takes the head of the queue, or refuses exactly when it is empty |
| BrokerModel.HandedOverShape | core/root1_resource_broker.cpp:734-768 | A hand-off makes the longest waiter owner, moves the others up one, sends one event with a token above all earlier ones, and touches no other resource |
| BrokerModel.HandedOverKeepsInv | core/root1_resource_broker.cpp:734-768 | A hand-off keeps word and queue consistent |
| BrokerModel.EnqueuedStands | core/root1_resource_broker.cpp:716-721 | Queueing leaves the caller in the queue: where it stood already, else at the end; nobody else moves and no other resource changes |
| BrokerModel.AcquireAnswers | core/root1_resource_broker.cpp:693-722 | Acquired is answered exactly to who then owns the resource, Queued exactly to a registered caller while somebody else owns it, who then stands in the queue; a refused call changes nothing |
| BrokerModel.OnlyOwnersRelease | core/root1_resource_broker.cpp:724-769 | A release or a recovery changes the owner if and only if it is made in the owner's name, and otherwise changes nothing |
| BrokerModel.RecoverNext | core/root1_resource_broker.cpp:863-870 | Recovering one more collected lease extends the account of what has been recovered |
| BrokerProtocol.StepKeepsInv | core/root1_resource_broker.cpp:686-769 | Every atomic step, with the unlocked compare-and-swap anywhere inside locked sections, keeps: contended bit iff waiters, waiters imply an owner, the owner does not wait, nobody waits twice |
| BrokerProtocol.SectionsAreAtomic | core/root1_resource_broker.cpp:702-721 | Each locked section, however interleaved, has the effect of the uninterrupted operation at its last step |
| BrokerProtocol.NoLostWakeup | core/root1_resource_broker.cpp:686-769 | The word and queue properties hold in every state of every interleaving |
| BrokerProtocol.QueueStep | core/root1_resource_broker.cpp:706-768 | Only a hand-off takes the head of a queue away; nothing barges past waiters |
| BrokerProtocol.QueuePosition | core/root1_resource_broker.cpp:716-768 | A participant at index x is at index x - c after c hand-offs |
| BrokerProtocol.FifoHandOff | core/root1_resource_broker.cpp:734-768 | The participant at index x becomes owner at exactly the (x+1)-th hand-off, with exactly one grant event and a strictly larger token |
| BrokerProtocol.QueuedIsServed | core/root1_resource_broker.cpp:716-768 | Over any run: who is queued with x waiters before it (all who wait, unless it waits already) becomes owner by exactly the (x+1)-th hand-off from then on, with a grant of its own |
| BrokerProtocol.OwnerStep | core/root1_resource_broker.cpp:686-769 | An owner changes in two ways only: somebody swaps itself into a free resource, or a hand-off in the name of the owner |
| BrokerProtocol.QueueingExact | core/root1_resource_broker.cpp:716-721 | Queueing breaks the invariant if and only if the participant has meanwhile become the owner |
| BrokerProtocol.SharedParticipantWaitsForItself | core/root1_resource_broker.cpp:693-722 | Two threads with one participant id can do that |
| BrokerProtocol.FreshLeaseRecovered | core/root1_resource_broker.cpp:841-872 | Between collecting and recovering, an owner can release, acquire again and lease again, and is still dispossessed |
| BrokerProtocol.LeaseHistory | core/root1_resource_broker.cpp:779-860 | Over any run from a state without the lease: it is there if and only if it was registered and not removed since, and lasts past a tick if and only if it was set past it and not lowered since |
| BrokerProtocol.RenewedNotCollected | core/root1_resource_broker.cpp:803-860 | Over any run: a lease registered, renewed or heartbeaten past a tick and not set lower since is not collected at that tick or earlier, and is still there if nothing removed it |
| BrokerProtocol.RecoveryExact | core/root1_resource_broker.cpp:841-872 | Over any run: the recovery of a collected lease goes ahead and takes a lease if and only if the collected owner still owns the resource and a registration succeeded since and was not removed; that lease is unexpired if and only if it was set past the tick since |
| BrokerProtocol.LeaseOwnerStep | core/root1_resource_broker.cpp:779-839 | A lease that survives a step is as it was, or was set by its registrant as registered owner of the resource, or by its holder as owner; only a registration changes whose it is |
| Broker.ResourceBroker.RegisterParticipant | core/root1_resource_broker.cpp:502-529 | A new id, never used before, with an empty mailbox |
| Broker.ResourceBroker.DrainMailbox | core/root1_resource_broker.cpp:1115-1125 | Returns the pending events and empties the mailbox |
| Broker.ResourceBroker.TryAcquire | core/root1_resource_broker.cpp:686-691 | Takes the resource exactly when its word is zero |
| Broker.ResourceBroker.AcquireOrQueue | core/root1_resource_broker.cpp:693-722 | Status and new state of the uninterrupted call, in all its branches: who is told Acquired owns the resource, who is told Queued is in the queue, which is otherwise as it was |
| Broker.ResourceBroker.PopWaiter | core/root1_resource_broker.cpp:734-765 | The loop drops unregistered waiters and finds the first registered one |
| Broker.ResourceBroker.Release | core/root1_resource_broker.cpp:724-769 | Refused for a stranger; otherwise the hand-off: the owner changes exactly when the caller is the owner |
| Broker.ResourceBroker.RecoverAbandoned | core/root1_resource_broker.cpp:1185-1241 | Refused for a stranger; otherwise the hand-off, and the lease goes |
| Broker.ResourceBroker.RegisterLease | core/root1_resource_broker.cpp:779-801 | Stored exactly for a registered owner |
| Broker.ResourceBroker.RenewLease | core/root1_resource_broker.cpp:803-821 | Renewed exactly when the lease and the resource are the caller's |
| Broker.ResourceBroker.HeartbeatParticipant | core/root1_resource_broker.cpp:823-839 | The loop renews exactly the leases whose resources the caller owns, and counts them |
| Broker.ResourceBroker.CollectExpired | core/root1_resource_broker.cpp:849-860 | The loop removes and returns exactly the leases expired at the tick |
| Broker.ResourceBroker.RecoverExpiredLeases | core/root1_resource_broker.cpp:841-872 | Afterwards no lease expires at or before the tick; exactly the overdue resources went to their longest waiter or to nobody; exactly their keys are returned |
| Bytecode.ValueRoundTrip | edict/edict_vm_core.cpp:1285-1296 | Reading a value back from its encoding gives it, and stops right behind it |
| Bytecode.InstrAt | edict/edict_vm_core.cpp:1284-1296 | At the start of an encoded instruction the reader finds that instruction and the start of the next, so payload bytes are never taken as opcodes |
| Bytecode.BytecodeBuffer.AddOp | edict/edict_types.cpp:30-32 | Appends one byte |
| Bytecode.BytecodeBuffer.AddString | edict/edict_types.cpp:34-45 | Appends four little-endian length bytes and the string |
| Bytecode.BytecodeBuffer.AddValue | edict/edict_types.cpp:47-59 | Appends the value's encoding |
| VmModel.ScanStaysInFrame | edict/edict_vm_core.cpp:2180-2201 | Leaving a frame ends scan mode: it never outlives the frame it began in |
| NestedModel.StructureExact | edict/edict_vm_core.cpp:2226-2248 | Code with every THROW matched is exactly the flattening of one tree of nested conditionals and what follows it |
| VmMeaning.ScanBlock | edict/edict_vm_core.cpp:2226-2255 | Scanning passes over any flattened block, however nested, and stops behind it with depth unchanged |
| VmMeaning.ScanToEnd | edict/edict_vm_core.cpp:2226-2262 | A scan after CATCH runs to the end of the frame and leaves it |
| VmMeaning.ScanSticks | edict/edict_vm_core.cpp:2250-2255 | When the frame ends in EVAL, the scan stays before that byte for ever |
| VmMeaning.ScanFinishes | edict/edict_vm_core.cpp:2250-2255 | A scan to the end of the frame finishes if and only if the frame does not end in EVAL |
| VmMeaning.StepSimulated | edict/edict_vm_core.cpp:2174-2383 | Each step of the nested meaning is a number of turns of the flat loop |
| VmMeaning.FlatMeansNested | edict/edict_vm_core.cpp:2174-2383 | For any matched code and any number of steps, the flat scan over bytes reaches what the nested conditionals mean |
| VmMeaning.FlatFinishes | edict/edict_vm_core.cpp:2174-2383 | When the nested meaning is done, the flat loop ends in the same machine state |
| TailCalls.StepKeepsOneFrame | edict/edict_vm_core.cpp:2264-2270 | Every turn of the loop keeps the code stack at one frame of code that calls last |
| TailCalls.TailCallsUseOneFrame | edict/edict_vm_core.cpp:2264-2270 | However long the chain of calls: code that evaluates only with its last instruction, and is given only such code, never needs a second frame |
| EdictVm.Interpreter.ReadByte | edict/edict_vm_core.cpp:1284-1284 | The next byte, or 0 past the end |
| EdictVm.Interpreter.ReadInt | edict/edict_vm_core.cpp:1285-1285 | Four bytes, little-endian, as a signed int |
| EdictVm.Interpreter.ReadString | edict/edict_vm_core.cpp:1286-1286 | The loop reads as many bytes as the length says, none for a negative one |
| EdictVm.Interpreter.ReadValue | edict/edict_vm_core.cpp:1287-1296 | The value, or none and the error flag for an unknown type byte |
| EdictVm.Interpreter.OpThrow | edict/edict_vm_core.cpp:1995-2006 | Pops one state entry if there is one, and then starts scanning |
| EdictVm.Interpreter.OpCatch | edict/edict_vm_core.cpp:2008-2013 | Starts scanning to the end of the frame |
| EdictVm.Interpreter.ScanOp | edict/edict_vm_core.cpp:2226-2262 | One scanned instruction, with its depth counting and instruction-pointer write |
| EdictVm.Interpreter.DispatchOp | edict/edict_vm_core.cpp:2264-2273 | One executed instruction |
| EdictVm.Interpreter.RunCodeLoop | edict/edict_vm_core.cpp:2174-2383 | So many turns of the loop are so many steps of the machine |
| Rewriting.MatchesWhenConsistent | edict/edict_vm_core.cpp:1171-1216 | The matching loop's test holds if and only if one substitution of the wildcards makes the pattern fit the suffix |
| Rewriting.BestUnique | edict/edict_vm_core.cpp:1217-1221 | There is at most one best rule: the longest matching, the first of equal length |
| Rewriting.FilledSubstitutes | edict/edict_vm_core.cpp:1244-1254 | The pushed part has a value for each token of the replacement: for a wildcard of the pattern the value at its topmost place in the matched suffix, for any other token a new value that is no list and has that text; the new ones are all different |
| Rewriting.RewrittenReplaces | edict/edict_vm_core.cpp:1237-1254 | A rewrite takes the pattern off the stack, leaves everything below and puts the replacement, so substituted, on top |
| Rewriting.CopiedAgrees | edict/edict_vm_core.cpp:1171-1254 | A wildcard pushed back is what every substitution that makes the pattern fit assigns to it |
| Rewriting.SwapExample | edict/tests/rewrite_runtime_test.cpp:59-66 | {$1, x} to {x, $1} on tea, x leaves tea on top of x |
| Rewriting.ListExample | edict/tests/rewrite_runtime_test.cpp:93-100 | #list before x matches exactly a list, #atom exactly anything else |
| Rewriting.RewriteEngine.TryMatch | edict/edict_vm_core.cpp:1171-1216 | The loop decides whether the pattern matches the stack's suffix, and its captures are that suffix's |
| Rewriting.RewriteEngine.FindBest | edict/edict_vm_core.cpp:1161-1225 | The loop over the rules finds the best one, or none when none matches |
| Rewriting.RewriteEngine.PushReplacement | edict/edict_vm_core.cpp:1244-1254 | The loop pushes, place by place, what the replacement's tokens stand for, on an untouched stack |
| Rewriting.RewriteEngine.ApplyRewriteOnce | edict/edict_vm_core.cpp:1113-1263 | Replaces exactly the suffix matched by the best rule by its replacement, each wildcard by its captured value, each other token by a new value; the stack is exactly restored when nothing matches or the mode forbids it |
| Rewriting.RewriteEngine.ApplyRewriteLoop | edict/edict_vm_core.cpp:1265-1282 | At most 16 automatic rewrites, each by the best rule; with fewer, the stack is a normal form |
| Json.StringRoundTrip | cartographer/protocol.cpp:73-99 | A printed string is read back exactly, with any characters in it and anything after it (escapes of RFC 8259 section 7) |
| Json.IntRoundTrip | cartographer/protocol.cpp:183-213 | A printed optional int is read back, also the most negative one and null |
| Json.UnsignedRoundTrip | cartographer/resolver.cpp:178-196 | A printed 64-bit number is read back |
| Json.BoolRoundTrip | cartographer/resolver.cpp:198-212 | A printed boolean is read back |
| Json.JsonParser.SkipWhitespace | cartographer/protocol.cpp:131-135 | Moves to the first character that is no space |
| Json.JsonParser.Consume | cartographer/protocol.cpp:137-144 | True, and past the character, exactly when it is next |
| Json.JsonParser.ParseString | cartographer/protocol.cpp:146-181 | The loop reads what the string reader reads, and fails when it fails |
| Json.JsonParser.ParseInt | cartographer/protocol.cpp:183-213 | Reads what the integer reader reads, with strtol's saturation and the cast to int |
| Json.JsonParser.ParseUnsigned | cartographer/resolver.cpp:178-196 | Reads what the unsigned reader reads, with strtoull's saturation |
| Json.JsonParser.ParseBool | cartographer/resolver.cpp:198-212 | Reads what the boolean reader reads |
| Json.JsonWriter.PutString | cartographer/protocol.cpp:73-99 | The escaping loop between its quotes writes the string's text |
| JsonExact.StringOneLine | cartographer/protocol.cpp:73-99 | A printed string holds no line break and no tab of its own |
| JsonExact.StringRefused | cartographer/protocol.cpp:155-181 | A string without its closing quote is refused, and so is one with an escape other than the five |
| JsonExact.NumberExact | cartographer/protocol.cpp:183-213 | Any printed number is read as what strtol at its bounds and the cast to int make of it |
| JsonExact.UnsignedExact | cartographer/resolver.cpp:178-196 | A printed number beyond 64 bits is read as the largest |
| Schema.NodeRoundTrip | cartographer/protocol.cpp:101-125 | A printed node, of any depth, is read back with the same children in the same order, and nothing more is consumed |
| Schema.SchemaRoundTrip | cartographer/protocol.cpp:491-518 | Decoding the schema text of any description gives that description, all input consumed |
| Schema.SchemaInjective | cartographer/protocol.cpp:491-506 | Different descriptions have different schema texts |
| SchemaExact.NodePrinted | cartographer/protocol.cpp:101-125 | A node is printed as its eight fields, by name and in order |
| SchemaExact.NodeAcceptedExact | cartographer/protocol.cpp:216-285 | An object is a node if and only if every field has a name of the schema and a value of its kind; order is free, the last of equal names counts, what is missing has its default |
| SchemaExact.DocumentExact | cartographer/protocol.cpp:287-335 | A document is its one field, symbols, and nothing but white space behind it |
| SchemaExact.SchemaOneLine | cartographer/protocol.cpp:491-506 | Whatever its strings hold, a description is printed on one line |
| Schema.AppendNode | cartographer/protocol.cpp:101-125 | Appends exactly the node's text to the buffer |
| Schema.AppendNodes | cartographer/protocol.cpp:112-124 | The child loop appends the texts with commas between and the bracket after |
| Schema.EncodeParseDescription | cartographer/protocol.cpp:491-506 | The whole schema text |
| Schema.ParseNode | cartographer/protocol.cpp:216-285 | The field loop accepts, and builds, exactly what the node reader does |
| Schema.ParseNodes | cartographer/protocol.cpp:262-279 | The array loop accepts, and builds, exactly what the array reader does |
| Schema.ParseSchemaRoot | cartographer/protocol.cpp:287-335 | Accepts exactly the documents the reader accepts, trailing text refused |
| Schema.DecodeParseDescription | cartographer/protocol.cpp:508-518 | The empty text stands for no symbols |
| Protocol.QuoteRoundTrip | cartographer/protocol.cpp:59-71 | A quoted token is read back exactly, whatever it holds |
| Protocol.RequestRoundTrip | cartographer/protocol.cpp:449-473 | An import request decodes to itself, for all field values |
| Protocol.CountRoundTrip | cartographer/protocol.cpp:556-562 | A printed symbol count passes strtoull and the end-of-string test |
| Protocol.StatusRoundTrip | cartographer/protocol.cpp:475-489 | Every field of a status message arrives, and the description through both layers of escaping; an absent one arrives as one without symbols |
| Protocol.StatusExact | cartographer/protocol.cpp:538-587 | Request and result are both received as sent if and only if the result's mode and id are the request's and its ok flag is what its status spells |
| WireExact.MessagesPrinted | cartographer/protocol.cpp:449-489 | Both messages are a version, named values in a fixed order, and a verb |
| WireExact.RequestAcceptedExact | cartographer/protocol.cpp:458-473 | A message of that form is a request if and only if version, names, mode and verb are the right ones and only white space follows; it then says what its values say |
| WireExact.StatusAcceptedExact | cartographer/protocol.cpp:524-592 | A message of that form is a status if and only if, besides, the count, the schema format and, where wanted, the schema text are right; its ok flag is that of its status |
| WireExact.CountExact | cartographer/protocol.cpp:556-562 | A count beyond 64 bits is read as the largest, and digits followed by anything are refused |
| Protocol.Quote | cartographer/protocol.cpp:59-71 | The loop writes the quoted token |
| Protocol.TokenReader.NextToken | cartographer/protocol.cpp:347-381 | Reads what the token reader reads, and fails when it fails |
| Protocol.TokenReader.QuotedToken | cartographer/protocol.cpp:353-373 | The loop over a quoted token, with its escapes |
| Protocol.TokenReader.RequestFields | cartographer/protocol.cpp:398-422 | The request's fields in order |
| Protocol.TokenReader.ResultFields | cartographer/protocol.cpp:543-587 | The result's fields in order, the ok flag computed from the status |
| Protocol.TokenReader.EndVerb | cartographer/protocol.cpp:424-441 | The verb, and nothing after it |
| Protocol.EncodeImportRequest | cartographer/protocol.cpp:449-456 | The request's text |
| Protocol.DecodeImportRequest | cartographer/protocol.cpp:458-473 | Accepts, and returns, exactly what the request decoder does |
| Protocol.DecodeImportStatus | cartographer/protocol.cpp:524-592 | Accepts, and returns, exactly what the status decoder does, with or without a description asked for |
| Resolver.SymbolRoundTrip | cartographer/resolver.cpp:550-565 | A printed symbol is read back, with or without an address |
| Resolver.ParseRoundTrip | cartographer/resolver.cpp:533-568 | Every record is parsed back from its text: all fields, and the symbols in order |
| Resolver.ResolvedRoundTrip | cartographer/resolver.cpp:570-584 | Decoding gives the record back if and only if its schema format is the expected one and its schema text is not empty, and otherwise fails |
| Resolver.DescriptionSurvives | cartographer/resolver.cpp:495-497 | The description inside a resolved record survives, though its text was escaped twice |
| ResolverExact.SymbolAcceptedExact | cartographer/resolver.cpp:215-259 | An object is a symbol if and only if all its fields are texts under the six names |
| ResolverExact.DocumentAcceptedExact | cartographer/resolver.cpp:261-413 | A document is taken if and only if every field at every level has a name of its level and a value of its kind, the formats are the right ones, the schema text is there, and only white space follows; order is free |
| Resolver.ParseResolvedSymbol | cartographer/resolver.cpp:215-259 | The field loop accepts, and builds, exactly what the symbol reader does |
| Resolver.ParseSymbols | cartographer/resolver.cpp:385-407 | The symbol array |
| Resolver.ParseLibrary | cartographer/resolver.cpp:301-339 | The library object's loop |
| Resolver.ParseSummary | cartographer/resolver.cpp:340-380 | The summary object's loop |
| Resolver.ParseResolvedApi | cartographer/resolver.cpp:261-413 | The outer loop; trailing text is refused |
| Resolver.DecodeResolvedApi | cartographer/resolver.cpp:570-584 | Accepts, and returns, exactly what the decoder does |
| Resolver.AppendSymbols | cartographer/resolver.cpp:549-566 | The symbol loop appends the symbols' texts |
| Resolver.EncodeResolvedApi | cartographer/resolver.cpp:533-568 | The record's whole text |
| Ring.RingUnique | core/container.h:62-65 | The links fix the ring: two readings from the same node are the same sequence |
| Ring.Joined | core/container.h:49-54 | Splicing a node of another ring makes one ring: this node, the other ring from that node on, the rest of this ring |
| Ring.Parted | core/container.h:49-54 | Splicing a node of the same ring takes the ring apart into two |
| Ring.Dropped | core/container.h:49-54 | Splicing a node onto itself takes it out of its ring |
| Ring.CutRing | core/container.h:57-60 | remove takes the next node out as a ring of its own and leaves a ring of the others |
| Ring.CutUndoesSplice | core/container.h:57-60 | remove right after storing a single node puts every link back |
| Ring.MirrorRing | core/container.h:62-65 | Walked the other way a ring is the first node and then the others in reverse |
| Ring.BackwardItems | core/container.h:62-65 | A backward walk reports the first node's value, then the others' in reverse |
| Ring.StoredLast | cartographer/mapper.cpp:227-232 | Storing beside the head on the side away from the walk puts the node last |
| Ring.CLL.Splice | core/container.h:49-54 | The four writes on the heap are the four writes of the model |
| Ring.CLL.Remove | core/container.h:57-60 | Likewise for remove |
| Ring.CLL.ForEach | core/container.h:62-65 | The loop ends and reports each node's value once, in ring order |
| Ring.NodeList.Append | cartographer/mapper.cpp:267-272 | Appending adds the value at the end of what a walk reports |
| Ring.NodeList.ForEach | cartographer/mapper.cpp:254-261 | A walk reports the values in the order they were appended; the resolver's list, with the directions swapped, likewise |
| SearchTree.FoundExact | core/container.h:103-107 | On a sorted tree a search finds a node exactly for the names held |
| SearchTree.InsertedExact | core/container.h:89-100 | Inserting keeps the order and stores the value under the name |
| SearchTree.RemovedExact | core/container.h:110-134 | Removing keeps the order and takes exactly the name away |
| SearchTree.SuccessorUp | core/container.h:124-131 | Moving the successor up into a node with two children keeps the order |
| SearchTree.AddedExact | core/container.h:87-102 | add keeps the order and stores the value if and only if not: the node is blank (no name, no data) and something below it does not come after the new name |
| SearchTree.NullUnderEmptyName | core/container.h:88-88 | The exception exists: after a null is stored under the empty name, the next add hides an entry |
| SearchTree.ListedMembers | core/container.h:146-151 | forEach lists exactly the entries of the map |
| SearchTree.ListedIncreasing | core/container.h:146-151 | forEach lists them in the order of their names |
| SearchTree.RunAgrees | core/container.h:87-144 | Any run of adds and removes that stores no null under the empty name agrees with the same run on a map |
| SearchTree.RunSearches | core/container.h:87-151 | After such a run searches and listings answer as the map does; the one difference is the blank node found under the empty name |
| SearchTree.AATree.Add | core/container.h:87-102 | The loop and the new node's link give the model's tree, node by node |
| SearchTree.AATree.Find | core/container.h:103-107 | The loop returns the node the model finds |
| SearchTree.AATree.RemoveRecursive | core/container.h:110-134 | The recursion's link assignments give the model's tree, on no new nodes |
| SearchTree.AATree.Remove | core/container.h:136-144 | Returns the tree to keep |
| SearchTree.AATree.ForEach | core/container.h:146-151 | Reports the listing, or for a backward walk its reverse |
| ImportModel.StepKeepsAttended | cartographer/service.cpp:563-580 | Every step keeps: once the child is known to be gone, a pending request belongs to a call that will yet fail it |
| ImportModel.NoneStranded | cartographer/service.cpp:741-794 | Under every interleaving and for any ids: after the disconnect is handled, or when no child started, a request on which no queue call is still at work is not pending |
| ImportModel.StepForward | cartographer/service.cpp:534-581 | With fresh ids no step takes a status back or overwrites a result that arrived |
| ImportModel.StatusesMoveForward | cartographer/service.cpp:549-560 | Over any run with fresh ids a status moves queued, running, terminal, and never back |
| ImportModel.QuietMeansAnswered | cartographer/service.cpp:462-514 | When pipes and calls are empty and the child lives, every request has its answer |
| ImportModel.StepForwardExact | cartographer/service.cpp:549-579 | In any state, a step takes a status back or overwrites a result if and only if: a call begins on an id that is known and no longer queued, a failure is stored over a result, or the reader hears a message behind the status stored |
| ImportModel.ReusedIdRunsBackward | cartographer/service.cpp:749-760 | With two requests under one id the status can go from ready back to running |
| ImportService.RequestArrives | cartographer/service.cpp:463-465 | Step by step, the texts in the pipe decode to the ids the model has there, and the child works on the request it decodes |
| ImportService.ReportArrives | cartographer/service.cpp:541-547 | The reader hears each report under its id, with its status, error, symbol count and description |
| ImportService.StatusNamesDiffer | cartographer/service.cpp:406-432 | No two statuses share a name, so the text a message carries tells them apart |
| ImportService.Impl.StoreQueued | cartographer/service.cpp:746-761 | The first locked section of the queue call |
| ImportService.Impl.StoreFailure | cartographer/service.cpp:774-790 | The last one: failure status and error text by whether there was a child; nothing else of that record or of others changes |
| ImportService.Impl.HandleMessage | cartographer/service.cpp:549-560 | The reader's section for a message: status, error and symbol count are stored, the description when ready; an unknown id and every other record change nothing |
| ImportService.Impl.HandleReport | cartographer/service.cpp:534-560 | One turn of the reader on a text the child wrote: the record then holds the status, error, count and, when ready, the description the child sent |
| ImportService.Impl.HandleDisconnect | cartographer/service.cpp:563-580 | The reader's last section, a walk failing exactly the pending requests, with their error text, and leaving every other field and record |
| Boxing.BytesRoundTrip | cartographer/boxing.cpp:111-140 | A number below 256^w is read back from its w little-endian bytes |
| Boxing.NarrowExact | cartographer/boxing.cpp:111-140 | A cast lands in the type's range and is the identity on it |
| Boxing.RereadExact | cartographer/boxing.cpp:163-202 | What is read back is the value cast to the field's type |
| Boxing.ParsedSigned | cartographer/boxing.cpp:111-140 | The std::sto* call of the field's type reads back any printed number in its range |
| Boxing.ScalarRoundTrip | cartographer/boxing.cpp:100-215 | A scalar unpacks to what was packed, cast to its type; absent integers are 0 |
| Boxing.PackedOutside | cartographer/boxing.cpp:222-270 | Packing changes no byte outside the fields, at any depth |
| Boxing.UnpackedSame | cartographer/boxing.cpp:276-313 | Unpacking depends on the fields' bytes alone |
| Boxing.PacksExact | cartographer/boxing.cpp:222-270 | Packing throws exactly when some present scalar of some field does not convert, whatever the layout |
| Boxing.RecordRoundTrip | cartographer/boxing.cpp:222-313 | For any nested definition whose fields lie apart: packing succeeds exactly when every present scalar converts, and unpacking then gives each field cast to its type |
| Boxing.NormalIdentity | cartographer/boxing.cpp:222-313 | A record that conforms to its type comes back unchanged |
| Boxing.BoxRoundTrip | cartographer/boxing.cpp:319-370 | The same for box and unbox, with zeros between the fields |
| Boxing.PrintedExact | cartographer/boxing.cpp:111-140 | For every integer type: a printed number packs if and only if the type's conversion reads it, and comes back if and only if it is in the type's range |
| Boxing.LongAliasExact | cartographer/boxing.cpp:49-61 | For every name taken for long: a printed number packs if and only if it is in the signed eight-byte range, and then comes back |
| Boxing.UnsignedAliasExact | cartographer/boxing.cpp:49-69 | For the ten unsigned eight-byte names and the three unsigned four-byte names taken for signed: a value packs if and only if it is in the lower half |
| Boxing.IdFirstExact | cartographer/boxing.cpp:54-55 | An id type of four bytes followed by an int: the fields overlap, and the id comes back if and only if the int is 0, or -1 for a negative id |
| Boxing.IdLastOverruns | cartographer/boxing.cpp:54-55 | Such an id as the last field does not fit the record |
| CTypes.IntegerExact | cartographer/boxing.cpp:49-83 | For every C integer type by name, with its bytes and range written out: a one-field record fits if and only if it has that many bytes, and a printed number comes back through box and unbox if and only if it is in the range of the type |
| CTypes.IntegerWraps | cartographer/boxing.cpp:111-140 | Any other printed number throws, or comes back as the number of the type it is congruent to; which of the two is written out by type |
| CTypes.EmptyIsZero | cartographer/boxing.cpp:101-115 | A value without text comes back as 0 |
| CTypes.OtherSizes | cartographer/boxing.cpp:93-95 | A float takes four bytes, a double and every pointer eight |
| CTypes.PointerExact | cartographer/boxing.cpp:145-156 | Eight bytes come back through a pointer field; anything else becomes null |
| Boxing.WriteBytes | cartographer/boxing.cpp:111-140 | Writes exactly the bytes given |
| Boxing.PackScalar | cartographer/boxing.cpp:100-157 | Writes exactly scalarSize bytes, or none when the conversion throws |
| Boxing.PackStruct | cartographer/boxing.cpp:222-270 | The walk over the children packs as the model does |
| Boxing.UnpackStruct | cartographer/boxing.cpp:276-313 | The walk fills the result the model gives |
| Boxing.Box | cartographer/boxing.cpp:319-343 | A zeroed buffer of the type's size, packed; null for a missing size; the exception exactly when a scalar does not convert |

## Left out

- mmap, file and msync persistence, slab images, `reattachFileBackedSlabs`: input and output, outside the model.
- Static-immortal marks, `CPtr` copies and moves, `resetTransient`, payload destructors: slots hold no references here.
- Arena locking: each method of the arena runs under one mutex and is one step.
- `Arena.Allocator.AllocRaw`: a failed allocation is a result in place of `std::bad_alloc`; trace flags are not kept.
- Broker notification (eventfd, epoll), participant processes, publications, coordination slabs, descriptor mailboxes
  linked to grants, and `recoverParticipantLeases`: the events of the broker's own mailboxes stand for them.
- `Broker.ResourceBroker.AcquireOrQueue`: proved for an uninterrupted call; interleavings are in `BrokerProtocol`.
- Weak memory orders of the ring and of the resource words, beyond interleaving of atomic accesses.
- EVAL of an iterator (`edict/edict_vm_core.cpp:1673-1685`), which pushes frames, pops the newest in tail position and
  writes the caller's instruction pointer into the frame on top: in the model pushed frames start at 0 and the tail
  frame is dropped from below them.
- The VM's other instructions, the compiler that emits code, and code that is not matched.
- `Rewriting.RewriteEngine.ApplyRewriteOnce`: does not model the trace value, and takes the stack of one frame.
- Error texts of all parsers, and what an output parameter holds after a failed parse.
- Null pointers among children and symbols, which the printers skip.
- `Protocol.EncodeImportRequest`: the status encoder is the function `EncodedStatus` alone, the same expression with more
  fields.
- Resolving symbols (`dlopen`, `dlsym`), hashing and freshness of libraries: the record is given.
- Reference counts of list and tree nodes, and the null-link guard of `splice`: links of live nodes are never null.
- `SearchTree.AATree.Remove`: the level field, which nothing reads, is not modelled.
- Overlapping framed writes by two threads, the synchronous import path, shutdown, and collecting results.
- `Boxing.ScalarRoundTrip`: floating-point conversion is a parameter; its precision is not modelled.
- `Boxing.Box`: the exception leaves the buffer allocated; the leak is not modelled.
- `unbox`'s checks of the boxed value, `annotate` and `freeBox`.
- Socket transport, REPL, FFI calls, libclang, TinyCC, tree-sitter and knowledge-graph operations.
