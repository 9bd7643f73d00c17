# Verified model of the ip_qos mark table

The kernel module of ip_qos gives every address behind a router a *mark*, so that traffic control
can shape each address, or each group of addresses, on its own. Three structures have to agree: a
bitmap of marks, a chained hash table from address to (rule, mark, reference count), and a rule
table in which a rule is private (every address gets its own mark) or share (all its addresses get
one mark, taken by the first and freed by the last). Nothing stores who owns a mark. Packets,
connection-tracking events and operator calls change the three structures, and each mark that
comes or goes adds or deletes classes, queues and filters in the kernel's traffic-control tree.

This project models that module and proves, among other things:

* **Ownership over whole runs.** The set bits are exactly the offsets of live marks, two addresses
  have one mark exactly when one share rule owns both, and every rule's count is its number of
  entries. For every entry point there is the exact condition under which it keeps this
  (`Discipline.StepOwnIff`, `Runs.OwnThroughoutIff`); a reset recovers from anything
  (`Runs.ResetRecovers`).
* **Exact refusal and all-or-nothing allocation.** An address without an entry is refused if and
  only if a reset is on, the table is full or memory is short (`Allocation.RefusedIff`), and then
  nothing that is in use has changed (`Allocation.RefusalChangesNothing`).
* **What each call answers and changes**, read off the states before and after it: success and mark of a
  deletion (`Answers.DelHashAnswers`), the whole outcome of a packet (`Answers.NewPacketAnswers`), which
  host a connection event is charged to, behind either kind of address translation
  (`Events.EventCharges`, `Events.CallerIsCharged`, `Events.ServerIsCharged`), and how many addresses the
  configured sizes hold (`Answers.Capacity`).
* **The in-place code equals the model.** The class `MarkTable.QosMark`, with a bitmap array, a rule
  array and a bucket array of nodes, performs exactly the steps of the model (`EntryPoints.Perform`),
  call after call (`EntryPoints.PerformAll`), so the theorems about runs are theorems about the object
  (`EntryPoints.PerformDisciplined`).
* **Concurrency.** With the lock taken and dropped as in the code, every interleaving of packets, events
  and deletions keeps each entry's bit set and marks apart if and only if there is no packet thread, or
  all rules are private, or a reset is on (`Races.SafeIff`). One thread on a share rule is enough to go
  wrong: it can read the rule's mark as 0 after the last entry is gone (`Races.ShareReadsZero`), and go
  on with a bit that does not exist. Up to that point one thread is safe in every mode, and two are not
  (`SingleThread.SafeUntilStrayIff`). All bits that are tested or freed exist if and only if there is no
  thread or no share rule (`Races.InBoundsIff`). For private rules every set bit has one owner and
  marks are conserved (`Concurrent.PrivateRun`). A thread that nobody interrupts does exactly what the
  packet does as one step (`Alone.AloneIsPacket`).
* **Resets of a live module.** The reset flag is read without the lock. With private rules and two
  threads or more, everything between a reset's wipe of the bitmap and the next wipe is safe if and only
  if no thread holds a mark at the first (`LiveReset.WipeSafeIff`). With resets at any moment, runs are safe if and only
  if there is no thread, no rule, or one thread and no share rule (`LiveReset.SafeIff`).
* **The traffic-control tree tracks the table** over every run, message by message
  (`TcTree.TrackRun`), and an empty table leaves nothing behind (`TcTree.EmptyLeavesNothing`). Each class
  has the rates of its direction, as its rule was last set before the mark was announced, until the
  mark goes (`ClassRates.RatesAlong`). While
  threads interleave, with announcements made after the lock was dropped, a step keeps tree and announced
  entries of private rules together if and only if it inserts no address twice, drops no entry before it
  is announced, and deletes none by hand with its last reference (`TcThreads.FaithfulIff`,
  `TcThreads.OrderlyTracks`).
* **Reference counts, packet marks, identifiers, netlink messages, rate tables and the hash**:
  whole-run histories, the masked merge, injective encodings, a round trip through the message
  buffer, what a reader of a class message finds in it (`ClassMessage.BuildNewClass`), overflow conditions,
  the value of the hash in numbers and bits for keys of any length (`HashValue.HashRounds`), and the hash as
  a permutation of all addresses.

`Model.dfy` describes the state and what each entry point does to it, as functions. `Buckets.dfy`,
`MarkHead.dfy`, `MarkTable.dfy` and `EntryPoints.dfy` are the imperative code, proved equal to those
functions. The other files reason about single steps and runs of the model. Machine words are
natural numbers with their truncation written out (`Word32.dfy`).

## How the model reads the code

* kmod/qos_marktbl_main.c:173 increments through `mark_node`, which is NULL there. The model
  increments the entry that was found, which is what the surrounding code means.
* `qmark_reset` calls `qmark_flush_hash` while it already holds the lock that the latter takes
  (kmod/qos_marktbl_main.c:701-704, :617). The model inlines the body of the flush.
* `free_mark` and `test_mark` index the bitmap without a check, and `id - 1` indexes the rule table
  without a check. A call of the model requires the index to exist (`Model.Callable`); the lemmas
  show that packets, events and deletions meet this by themselves once ownership holds.
* `qmark_set_spec` is modelled for 1 <= ip_spec < 2^32 - 1: 0 would make the hash divide by zero,
  and at 2^32 - 1 the limit test `elem_num + 1 > max_ip_cnt` can no longer be true. Statements about
  marks further need ip_spec < 2^21, from where offsets are truncated to mark 0
  (`TcIds.MarksDistinctIff`, `Allocation.AllocMarkLosesBitIff`).
* `__be32` addresses are compared for equality and hashed byte by byte. An address stands for the
  little-endian word of its four bytes.
* One packet, one event and one operator call are single steps everywhere but in `Concurrent.dfy`,
  `Races.dfy`, `SingleThread.dfy`, `LiveReset.dfy`, `TcThreads.dfy` and `Alone.dfy`. There a step is one locked section,
  or one of the parts that the code does without `qmark_op_lock`: the read of the reset flag
  (kmod/qos_marktbl_main.c:647), the reads of a rule (:651-661), the return of a refused mark (:664-667).
  A reset is two steps, the flag (:700) and the wipe (:701-709).
* In those files a thread may come to an insertion with a mark whose bit does not exist. The code
  then reads memory behind the bitmap, whose content is unknown: the insertion goes by an arbitrary
  bit, a parameter of the step (`stray`), and freeing such a mark changes no bit of the bitmap. No run
  is cut short by this (`Races.NothingDropped`).
* The linear searches through a bucket are one method, `MarkHead.Head.Search`, and what
  `qmark_del_hash` and the DESTROY case of the event handler have in common is one method,
  `MarkTable.QosMark.DropReference`.

## Model

| member | source | states |
|---|---|---|
| MarkTable.QosMark.constructor | kmod/qos_marktbl_main.c:474-517 | after module init the three structures are empty, agree in size and hold the default limits |
| MarkTable.QosMark.AllocMark | kmod/qos_marktbl_main.c:47-60 | takes the first clear bit and returns the mark of its offset, 0 when there is none |
| MarkTable.QosMark.FreeMark | kmod/qos_marktbl_main.c:62-65 | clears the bit of the mark and no other |
| MarkTable.QosMark.TestMark | kmod/qos_marktbl_main.c:67-70 | tells whether the bit of the mark is set |
| MarkTable.QosMark.FlushMark | kmod/qos_marktbl_main.c:72-74 | clears every bit and keeps table and rules |
| MarkTable.QosMark.HashAdd | kmod/qos_marktbl_main.c:158-197 | over the limit nothing happens; a known address is counted once more; a new one is inserted with count 0 and its rule counted, unless the node cannot be allocated |
| MarkTable.QosMark.HashRemove | kmod/qos_marktbl_main.c:199-229 | removes an entry without references, lowers its rule's count and yields its mark; refuses otherwise |
| MarkTable.QosMark.TableAdd | kmod/qos_marktbl_main.c:267-282 | refuses a mark whose bit is clear, and inserts otherwise |
| MarkTable.QosMark.FindMark | kmod/qos_marktbl_main.c:300-313 | the mark of the address and OK, or 0 and NO_EXIST |
| MarkTable.QosMark.ConntrackEvent | kmod/qos_marktbl_main.c:382-456 | the event filter, the choice of the address, and the DESTROY and MARK cases act on state and tc messages as the model says |
| MarkTable.QosMark.DropReference | kmod/qos_marktbl_main.c:429-442 | one reference less, and on the last one the entry goes, the mark is given back when nobody else uses it, and the tc deletions are sent only for events |
| MarkTable.QosMark.DelHash | kmod/qos_marktbl_main.c:586-608 | the deletion by hand is the same drop, without tc messages |
| MarkTable.QosMark.AllocAuto | kmod/qos_marktbl_main.c:646-677 | mode and count decide between a fresh mark and the rule's mark; a failed insertion is undone; a success is announced to tc |
| MarkTable.QosMark.AddRule | kmod/qos_marktbl_main.c:532-543 | rewrites a rule but leaves its mark and its count |
| MarkTable.QosMark.DelRule | kmod/qos_marktbl_main.c:545-550 | zeroes the whole row |
| MarkTable.QosMark.FlushRule | kmod/qos_marktbl_main.c:567-572 | a new rule table of zeroed rows, with bitmap and entries kept |
| MarkTable.QosMark.FlushHash | kmod/qos_marktbl_main.c:616-621 | an empty table of the same size, with bitmap and counts kept |
| MarkTable.QosMark.SetSpec | kmod/qos_marktbl_main.c:679-692 | all three structures are new, empty and of the given sizes |
| MarkTable.QosMark.Reset | kmod/qos_marktbl_main.c:694-710 | flag 0 only lifts the reset; any other flag clears bitmap, table and all counts, and keeps the marks and modes of the rules |
| MarkTable.QosMark.TcAddRule | kmod/qos_marktbl_tc.c:370-381 | class, queue, filter, in this order and each on both devices |
| MarkTable.QosMark.TcDelRule | kmod/qos_marktbl_tc.c:383-394 | filter before class, each on both devices, and no queue |
| MarkTable.QosMark.TcClass | kmod/qos_marktbl_tc.c:159-208 | the handle and the parent of both class messages, with the mate rates on the LAN side |
| MarkTable.QosMark.TcQdisc | kmod/qos_marktbl_tc.c:210-258 | the queue hangs below the class of the same mark |
| MarkTable.QosMark.TcFilter | kmod/qos_marktbl_tc.c:311-368 | the filter for the mark points to the class of the same mark |
| MarkHead.Head.Get | kmod/qos_marktbl_main.c:137-156 | searching the one bucket finds the node of the address exactly when the table holds it |
| MarkHead.Head.Add | kmod/qos_marktbl_main.c:167-196 | the buckets change as the map from address to entry does under insertion and counting |
| MarkHead.Head.Remove | kmod/qos_marktbl_main.c:205-228 | unlinking one node is deleting one key, refused for a count above 0 |
| MarkHead.Head.Clean | kmod/qos_marktbl_main.c:231-247 | every bucket is empty afterwards and the element counter is back at 0 |
| MarkHead.Head.ElemNum | kmod/qos_marktbl_main.c:23-28 | elem_num is the number of keys and the sum of the bucket lengths |
| MarkHead.Head.HashIndex | kmod/qos_marktbl_main.c:143-144 | the bucket of an address is its hash modulo the table size |
| Buckets.LookupInBucket | kmod/qos_marktbl_main.c:146-155 | an address is in the map if and only if its one bucket has a node for it |
| Buckets.LayoutInsert | kmod/qos_marktbl_main.c:191-192 | linking a new node at the head keeps every node in its own bucket, keys unique across buckets, and the total right |
| Buckets.LayoutRemove | kmod/qos_marktbl_main.c:215-216 | unlinking a node keeps the same |
| EntryPoints.Perform | kmod/qos_marktbl_ioctl.c:80-266 | every entry point of the in-place module, the look-up included, performs its step of the model (new state, return code, mark and tc messages) and leaves the module with its own or new objects only, so that the next call can follow |
| EntryPoints.PerformAll | kmod/qos_marktbl_ioctl.c:80-266 | calls one after the other take the object through a run of the model, from its first view to its last |
| EntryPoints.PerformDisciplined | kmod/qos_marktbl_main.c:532-710 | any disciplined calls leave the object with ownership |
| EntryPoints.Handle | xt_kmod/xt_qmark.c:25-48 | the packet handler: address by direction, look-up, allocation on a miss, and the merged mark on success only |
| EntryPoints.HandleMasked | xt_kmod/xt_qmark.c:25-48 | with the configured mask, an address that has an entry afterwards has its nonzero mark in the packet's field, the rest of the packet's mark is unchanged, and every other packet passes unchanged |
| Model.StepStructural | kmod/qos_marktbl_main.c:158-710 | every entry point keeps sizes, the table limit, and valid rules and offsets in all entries |
| Answers.DelHashAnswers | kmod/qos_marktbl_main.c:586-608 | the deletion reports OK and the entry's mark exactly when the address had an entry and has none afterwards, else ERROR and no mark; it takes one reference, and with the last one the entry, one from the rule's count and, if nobody shares it, the bit |
| Answers.ReleaseLeaves | kmod/qos_marktbl_main.c:427-442 | what a dropped reference leaves, component by component, and when tc messages go with it |
| Answers.NewPacketAnswers | kmod/qos_marktbl_main.c:646-677 | a packet of a new address: ERROR for a reset, a full table or no memory, and then the exact state, in which nothing in use has changed; else an entry with count 0 under the mark of the least clear bit, or under the mark that all entries of the share rule have, one more in the rule's count, and the announcement |
| Answers.KnownPacketAnswers | xt_kmod/xt_qmark.c:37-45 | a packet of a known address gets the stored mark and changes nothing |
| Answers.CheckHashAnswers | kmod/qos_marktbl_main.c:300-313 | the look-up tells OK and the nonzero mark, or NO_EXIST and 0, and changes nothing |
| Answers.AllocMarkAnswers | kmod/qos_marktbl_main.c:623-632 | the raw allocation takes the least clear bit, and fails only if there is none |
| Answers.FreeMarkAnswers | kmod/qos_marktbl_main.c:634-638 | the raw free clears the bit of offset mark / 2048 and nothing else |
| Answers.AddHashAnswers | kmod/qos_marktbl_main.c:164-192 | the raw insertion: ERROR for a clear bit, OVER_MAX for a full table even if the address is known, one reference more for a known address, ALLOC_FAIL without memory, else a new entry with count 0 |
| Answers.RuleCallsAnswer | kmod/qos_marktbl_main.c:532-550 | each setting of the row is the caller's, its mark and count and all other rows stay; a deleted row is zero in every field |
| Answers.SetSpecAnswers | kmod/qos_marktbl_main.c:679-692 | new sizes, all bits clear, no entry, all rows zero, the reset flag as before |
| Answers.InitialIs | kmod/qos_marktbl_main.c:20-21 | 4096 addresses and 128 rules after module init, all empty, no reset on |
| Answers.ResetAnswers | kmod/qos_marktbl_main.c:694-710 | flag 0 lifts the reset and nothing else; any other flag sets it, clears all bits, entries and counts, and keeps the settings and marks of the rules |
| Answers.FlushesAnswer | kmod/qos_marktbl_main.c:567-644 | each flush empties its own structure and leaves the others |
| Answers.Capacity | kmod/qos_marktbl_main.c:679-692 | along a run, as long as the sizes set last stand: packets of new addresses may name rules 1 to m, and one is taken in exactly while there are fewer than n entries, no reset is on and memory suffices |
| Events.EventCharges | kmod/qos_marktbl_main.c:403-454 | from the fields of the connection: an event of a tracked IPv4 connection with a mark under 0xfff800 is charged to the original source if the reply comes from the original destination, to the source of the reply otherwise, and touches no other address; any other event does nothing |
| Events.CallerIsCharged | kmod/qos_marktbl_main.c:418-425 | a host that opens a connection, behind source address translation or none, is charged for it |
| Events.ServerIsCharged | kmod/qos_marktbl_main.c:418-425 | a host that answers behind destination address translation is charged for it |
| Ownership.ReleaseRemoves | kmod/qos_marktbl_main.c:427-442 | the inner delete cannot fail: it returns OK with the stored mark, and the bit that is freed is the entry's own |
| Ownership.ReleaseOwn | kmod/qos_marktbl_main.c:586-608 | dropping a reference keeps ownership |
| Ownership.RemoveOwn | kmod/qos_marktbl_main.c:431-442 | removing an entry clears its bit exactly when no other entry carries the mark |
| Allocation.RoomMeansClearBit | kmod/qos_marktbl_main.c:52-55 | pigeonhole: while the table has room the bitmap has a clear bit, with private and share rules mixed |
| Allocation.RefusedIff | kmod/qos_marktbl_main.c:646-670 | for an absent address: refused if and only if a reset is on, the table is full or the node cannot be allocated |
| Allocation.Granted | kmod/qos_marktbl_main.c:646-677 | otherwise the exact new state, mark and tc messages |
| Allocation.RefusalChangesNothing | kmod/qos_marktbl_main.c:663-670 | a refusal for any reason and in any mode leaves bitmap, table, counts and share marks in use as they were, and sends nothing |
| Allocation.AllocMarkLosesBitIff | kmod/qos_marktbl_main.c:52-59 | alloc_mark takes a bit and still reports failure exactly when the first clear offset has a mark truncated to 0 |
| Allocation.MarkZeroIff | kmod/qos_marktbl_main.c:57-58 | the offsets with a mark truncated to 0 are the multiples of 2^21 |
| Allocation.InsertedOwn | kmod/qos_marktbl_main.c:185-192 | an allocated entry keeps ownership, whether its mark is fresh or shared |
| Allocation.ShareMarkLive | kmod/qos_marktbl_main.c:656-660 | a share mark is only read while an entry carries it, so its bit exists and is set |
| Discipline.StepOwnIff | kmod/qos_marktbl_main.c:532-710 | for every entry point, ownership is kept if and only if the call meets a condition that can be checked before it |
| Discipline.StepOwn | kmod/qos_marktbl_main.c:62-70 | a step that meets the condition only indexes rules and bits that exist, and keeps ownership |
| Discipline.AddRuleOwnIff | kmod/qos_marktbl_main.c:532-543 | the exact rule changes on a live rule that keep ownership |
| Discipline.DelRuleOwnIff | kmod/qos_marktbl_main.c:545-550 | deleting a rule keeps ownership if and only if it has no entries |
| Discipline.FlushRuleOwnIff | kmod/qos_marktbl_main.c:567-572 | flushing the rules keeps ownership if and only if the table is empty |
| Discipline.FlushHashOwnIff | kmod/qos_marktbl_main.c:616-621 | flushing the table alone keeps ownership if and only if it was empty |
| Discipline.FlushMarkOwnIff | kmod/qos_marktbl_main.c:640-644 | flushing the bitmap alone keeps ownership if and only if the table is empty |
| Discipline.AllocMarkOwnIff | kmod/qos_marktbl_main.c:623-632 | a raw allocation keeps ownership if and only if it fails |
| Discipline.FreeMarkOwnIff | kmod/qos_marktbl_main.c:634-638 | a raw free keeps ownership if and only if the bit was clear |
| Discipline.AddHashOwnIff | kmod/qos_marktbl_main.c:578-584 | a raw insertion keeps ownership if and only if it inserts nothing or inserts the mark that its share rule has in use |
| Discipline.PacketOwn | kmod/qos_marktbl_main.c:646-677 | a packet keeps ownership, granted or refused |
| Discipline.EventOwn | kmod/qos_marktbl_main.c:382-456 | a conntrack event keeps ownership |
| Discipline.ResetOwn | kmod/qos_marktbl_main.c:699-709 | a reset establishes ownership from any structural state, with an empty table |
| Discipline.OwnOfEmpty | kmod/qos_marktbl_main.c:427-442 | with an empty table no bit is set and every count is 0 |
| Discipline.InitialOwn | kmod/qos_marktbl_main.c:474-517 | ownership holds after module init |
| Runs.OwnThroughoutIff | kmod/qos_marktbl_main.c:532-710 | along any run, ownership holds at every state if and only if every step is disciplined |
| Runs.TrafficOwn | kmod/qos_marktbl_main.c:382-677 | packets, events and deletions are disciplined in every run |
| Runs.ResetRecovers | kmod/qos_marktbl_main.c:694-710 | after a reset, whatever happened before, ownership holds with an empty table, and nothing but lifting the reset or handing out raw marks changes that |
| Runs.StaleMarksUnread | kmod/qos_marktbl_main.c:650-661 | states that differ only in rule marks without entries answer and act alike: a stale mark is never read |
| Runs.StaleOwn | kmod/qos_marktbl_main.c:650-661 | ownership does not depend on stale marks |
| Refcount.EntryStep | kmod/qos_marktbl_main.c:427-452 | what any step of traffic does to one entry: it goes on its last drop, and otherwise only its count moves |
| Refcount.EntryAppears | kmod/qos_marktbl_main.c:185-192 | an entry appears only by a granted packet of its address, with count 0 |
| Refcount.CountHistory | kmod/qos_marktbl_main.c:382-456 | in every run, the count of an entry is the MARKs minus the drops since the packet that inserted it, told from the fields of the connections, never negative, with rule and mark unchanged |
| Refcount.StaysIff | kmod/qos_marktbl_main.c:427-452 | an entry stays throughout a run if and only if every drop is covered by earlier references |
| Refcount.GoesOnLastDrop | kmod/qos_marktbl_main.c:430-442 | it goes exactly on the first drop that leaves no reference |
| Races.SafeIff | kmod/qos_marktbl_main.c:646-677 | from the start, without resets, every interleaving of packets, events and deletions keeps each entry's bit set, one mark per share rule and all other marks different, if and only if there is no packet thread, or no share rule, or a reset is on |
| Races.InBoundsIff | kmod/qos_marktbl_main.c:62-70 | in every interleaving, resets included, each bit that a thread tests or frees is in the bitmap, if and only if there is no packet thread or no share rule |
| Races.NothingDropped | kmod/qos_marktbl_main.c:646-677 | no run of the code is left out: whatever step a thread has come to can be taken, also with a mark whose bit does not exist |
| Races.ShareReadsZero | kmod/qos_marktbl_main.c:656-663 | for any share rule, one thread is enough: a run in which it reads mark 0 from the rule and comes to the insertion with it |
| Races.ZeroStored | kmod/qos_marktbl_main.c:272-281 | such a run goes on, when the bit found for mark 0 is set, to an entry with mark 0, which is not safe |
| Races.ZeroFreed | kmod/qos_marktbl_main.c:663-667 | and, when that bit is clear, to the freeing of mark 0, whose bit does not exist |
| Races.ShareRaces | kmod/qos_marktbl_main.c:650-670 | for any share rule and any size, an interleaving of two threads, with no bit found outside the bitmap, that ends unsafe |
| Races.BlockedRun | kmod/qos_marktbl_main.c:647-649 | with the reset flag set no interleaving inserts anything |
| SingleThread.SafeUntilStray | kmod/qos_marktbl_main.c:646-677 | one packet thread is safe in every mode, with events, deletions and resets between its steps, up to the first mark looked for outside the bitmap and found set |
| SingleThread.SafeUntilStrayIff | kmod/qos_marktbl_main.c:646-677 | without resets, every interleaving is safe up to the first mark looked for outside the bitmap and found set, if and only if there is at most one packet thread, or no share rule, or a reset is on |
| SingleThread.StoredOwn | kmod/qos_marktbl_main.c:185-192 | storing a mark in flight restores ownership |
| SingleThread.UndoInv1 | kmod/qos_marktbl_main.c:663-670 | undoing a refused insertion gives back only what nobody else uses |
| SingleThread.WipeInv1 | kmod/qos_marktbl_main.c:701-709 | a reset between any two steps of the one thread keeps its invariant |
| Concurrent.PrivateRun | kmod/qos_marktbl_main.c:623-677 | with private rules, after any run in which no thread holds a mark while the bitmap is wiped: safe, and set bits = entries + marks in flight + repeated insertions since the last wipe |
| Concurrent.OneOwner | kmod/qos_marktbl_main.c:623-677 | every set bit has exactly one owner: an entry, a thread in flight, or the lost marks |
| Concurrent.StepInv | kmod/qos_marktbl_main.c:382-710 | every step of every thread, every event, every deletion and every reset keeps that, a wipe provided that no thread holds a mark |
| Concurrent.InsertOutcome | kmod/qos_marktbl_main.c:164-182 | the insertion of a thread in flight fails only for want of memory: OVER_MAX and a clear bit cannot happen |
| Concurrent.RoomForReady | kmod/qos_marktbl_main.c:24-28 | by pigeonhole the table has room for every mark in flight |
| Concurrent.LosesIff | kmod/qos_marktbl_main.c:171-177 | in every step but a wipe, a mark is lost exactly when a fresh mark is inserted for an address that got an entry in the meantime |
| Concurrent.BitsConserved | kmod/qos_marktbl_main.c:47-65 | the set bits are as many as entries, marks in flight and lost marks together |
| Alone.AloneIsPacket | kmod/qos_marktbl_main.c:646-677 | from any state, the steps of one thread in a row leave the state and send the messages of the packet as one step |
| Alone.AloneIsReset | kmod/qos_marktbl_main.c:694-710 | the flag and then the wipe are the reset |
| LiveReset.WipeSafeIff | kmod/qos_marktbl_main.c:694-710 | with private rules and two threads or more, every interleaving after a reset's wipe, up to the next one, is safe if and only if no thread held a mark at the wipe |
| LiveReset.HeldAcrossWipe | kmod/qos_marktbl_main.c:646-709 | for any thread that holds a mark at the wipe, a run after it in which that thread frees the mark of somebody else's entry |
| LiveReset.ResetRaces | kmod/qos_marktbl_main.c:646-709 | for any private rules and two threads, a run from the start through one reset that ends unsafe |
| LiveReset.PrivateSafe | kmod/qos_marktbl_main.c:646-709 | with private rules every run with resets is safe if there is one thread, or no thread holds a mark at a wipe |
| LiveReset.SafeIff | kmod/qos_marktbl_main.c:646-709 | with resets at any moment, every interleaving is safe if and only if there is no packet thread, or no rule, or one packet thread and no share rule |
| TcThreads.FaithfulIff | kmod/qos_marktbl_main.c:663-675 | with private rules, one step of any thread, event or deletion leaves the tree in agreement with the announced entries, now and after any pending announcement, if and only if it inserts no address twice, drops no entry before its announcement and deletes none by hand with its last reference |
| TcThreads.OrderlyKeeps | kmod/qos_marktbl_main.c:663-675 | such a step keeps the invariant of tree, table and threads, and the tree is safe after each of its messages |
| TcThreads.OrderlyTracks | kmod/qos_marktbl_main.c:646-677 | after any run of such steps, tree and announced entries agree; with no announcement pending the tree holds exactly what the table calls for, and with an empty table nothing but the inner classes |
| PacketMark.PacketMerged | xt_kmod/xt_qmark.c:37-45 | a granted packet carries the table's nonzero mark in the masked field and is unchanged elsewhere; a refused one is unchanged |
| PacketMark.MergeBit | xt_kmod/xt_qmark.c:45 | for any mask, every bit of the merged mark: the mark's under the mask, and outside it the packet's, flipped where the mark has one |
| PacketMark.MergeKeepsRestIff | xt_kmod/xt_qmark.c:45 | the merge leaves the bits outside the mask alone if and only if the mark lies under the mask |
| PacketMark.MergeField | xt_kmod/xt_qmark.c:45 | a mark under the mask is read back from the masked field |
| PacketMark.AllMarksUnderIff | script/lib/ip_qos/public.sh:37-41 | all marks of the allocator lie under a mask of L bits from bit 11 on if and only if max_ip_cnt < 2^L |
| PacketMark.FieldsAgreeIff | kmod/qos_marktbl_main.c:650-661 | packets of two live addresses get one field value if and only if one share rule owns both |
| PacketMark.MarkStable | xt_kmod/xt_qmark.c:37-45 | along a run every packet of an address is granted the same mark while its entry stays |
| PacketMark.EventMask | kmod/qos_marktbl_main.c:414-416 | the handler's test of a connection's mark against 0xfff800, as a number |
| PacketMark.AllMarksSeenIff | kmod/qos_marktbl_main.c:414-416 | the event handler sees the connections of every mark if and only if max_ip_cnt < 2^13 |
| TcIds.MarkRoundTrip | kmod/qos_marktbl_main.c:57-68 | below 2^21 the offset is read back from its mark, and the mark is not 0 |
| TcIds.MarksDistinctIff | kmod/qos_marktbl_main.c:57-59 | marks 1..n are nonzero and distinct if and only if n < 2^21 |
| TcIds.LeafIdInjective | kmod/qos_marktbl_tc.c:174-180 | device number and offset are determined by the class id, for device numbers 0..13 and offsets 1..4096 |
| TcIds.QueueIdInjective | kmod/qos_marktbl_tc.c:228-234 | device number and offset are determined by the handle of the queue, too |
| TcIds.LeafMinorReserved | script/lib/ip_qos/tc.sh:10 | a leaf minor fits 16 bits and is neither the root class nor the default class 0xffff |
| TcIds.AnnouncementReads | kmod/qos_marktbl_tc.c:159-381 | for every device number and mark, in numbers: the ids of class, parent, queue and filter in the six messages, their order, and which rates go to which device |
| TcIds.RemovalReads | kmod/qos_marktbl_tc.c:383-394 | taking a mark down names the filter and the class that its announcement named, the filters first |
| TcIds.LeafIdsDistinctIff | kmod/qos_marktbl_tc.c:174-180 | all leaf ids are distinct if and only if there are at most 4096 offsets |
| TcIds.LeafIsInnerIff | kmod/qos_marktbl_tc.c:174-180 | a leaf has the minor of an inner class exactly below device number 0, where offset p meets the inner class of p |
| TcTree.TrackRun | kmod/qos_marktbl_main.c:432-675 | in every run of packets, events and harmless rule changes the tree agrees with the table after every step, and is safe after every single message of the next one |
| ClassRates.RatesAlong | kmod/qos_marktbl_tc.c:198-202 | a rule is set, later a mark is announced for it, private or the first of a share rule: as long as the mark is in use, whatever happens to the rule, its class has the mate's rates on the LAN device and the rule's own on the WAN device, as they were set |
| ClassRates.LastSettings | kmod/qos_marktbl_main.c:532-550 | along a run a rule has, field by field, the settings of the last call that set it |
| ClassRates.StepKeepsClass | kmod/qos_marktbl_tc.c:370-394 | a step that leaves a mark in use leaves its class and its rates alone |
| TcTree.TracksMeans | kmod/qos_marktbl_tc.c:337-350 | in agreement means: the filters are exactly the live marks, each pointing to the class of its rule's device number |
| TcTree.EmptyLeavesNothing | kmod/qos_marktbl_main.c:432-442 | with no entries left there are no leaf classes, queues or filters, and the bitmap is zero |
| TcTree.AddNewMark | kmod/qos_marktbl_tc.c:370-381 | the six messages of a fresh mark add exactly its class, queue and filter, with no filter ahead of its class |
| TcTree.AddKnownMark | kmod/qos_marktbl_tc.c:373-380 | announcing a shared mark again changes nothing, not even in between |
| TcTree.DelMark | kmod/qos_marktbl_tc.c:383-394 | the four messages of a freed mark remove exactly its filter, queue and class, and no class goes while a filter points to it |
| TcTree.TrackPacket | kmod/qos_marktbl_main.c:646-677 | a packet keeps tree and table in agreement |
| TcTree.TrackRelease | kmod/qos_marktbl_main.c:427-442 | a dropped reference keeps tree and table in agreement |
| TcTree.DelHashTracksIff | kmod/qos_marktbl_main.c:586-608 | the deletion by hand, which sends nothing, leaves tree and table in agreement if and only if it gives no mark back |
| TcTree.SuitsIff | kmod/qos_marktbl_tc.c:174-180 | inner classes for two device numbers suit the first, unless that is number 0 and a leaf of it would hit the class of the other |
| Hash.HashFn | kmod/qos_marktbl_main.c:77-131 | for every length, the pipelined loop is the left fold of one mixing step over the little-endian words, started from the length, followed by the tail |
| HashValue.FourByteHash | kmod/qos_marktbl_main.c:83-112 | the hash of four bytes from their numbers, stage by stage: sums modulo 2^32 and bits, without the operators of the code |
| HashValue.AddressHash | kmod/qos_marktbl_main.c:143-144 | the same for an address, whose lowest byte comes first |
| HashValue.HashRounds | kmod/qos_marktbl_main.c:83-128 | for a key of any length: one such round for each whole word, then the last 0 to 3 bytes, read from where the code reads them |
| Hash.MixAndLoad | kmod/qos_marktbl_main.c:91-105 | one turn of the loop mixes the word it has and loads the next |
| Hash.MixTail | kmod/qos_marktbl_main.c:118-128 | the fall-through switch on the last bytes |
| Hash.TrailingBytesIgnored | kmod/qos_marktbl_main.c:107-128 | from 4 bytes on, the bytes behind the last whole word never reach the hash, since the key pointer is not moved past that word |
| Hash.XorShrInjective | kmod/qos_marktbl_main.c:96-104 | the stage a ^= a >> n is invertible |
| Hash.AddShlInjective | kmod/qos_marktbl_main.c:98 | the stage a += a << n is invertible |
| Hash.AddNotShlInjective | kmod/qos_marktbl_main.c:94-102 | the stage a += ~(a << n) is invertible |
| Hash.HashIpInjective | kmod/qos_marktbl_main.c:143-144 | different addresses have different hashes, so buckets collide only by the modulus |
| Hash.HashIpPermutes | kmod/qos_marktbl_main.c:143-144 | every 32-bit word is the hash of exactly one address |
| Netlink.Request.AddAttr | kmod/qos_marktbl_tc.c:59-75 | appends one padded attribute exactly when it fits the given bound; a refused call changes nothing |
| Netlink.Request.CloseNest | kmod/qos_marktbl_tc.c:151-156 | writing the length of the first attribute afterwards turns what follows it into its nested payload |
| Netlink.RoundTrip | kmod/qos_marktbl_tc.c:59-75 | parsing any encoded list of attributes gives the list back |
| Netlink.ParseEncoded | kmod/qos_marktbl_tc.c:69-73 | the same with any bytes behind it |
| Netlink.ParseReads | kmod/qos_marktbl_tc.c:69-73 | what the reader does, byte by byte: length and type are two bytes each, the low one first, then the payload, then padding to a multiple of 4 |
| Netlink.NestedParses | kmod/qos_marktbl_tc.c:347-351 | a kind followed by a closed nest parses on both levels |
| Netlink.BuildClass | kmod/qos_marktbl_tc.c:169-203 | the class message parses as its kind and the three nested HTB options, or as its kind alone when deleting; a reader finds the parameters under type 1, the ceil table under 3 and the rate table under 4 |
| Netlink.AddClassOptions | kmod/qos_marktbl_tc.c:151-156 | none of the four calls is refused, the message stays within struct rtnl_req, and a reader of the nest finds each option under its type |
| Netlink.BuildQdisc | kmod/qos_marktbl_tc.c:219-252 | the queue message parses as its kind and the limit; a reader finds pfifo and 100 |
| Netlink.BuildFilter | kmod/qos_marktbl_tc.c:345-351 | the filter message parses as its kind and a nest; a reader finds the mask 0xfff800 under type 5 and the class id under type 1 |
| Netlink.Bytes32At | kmod/qos_marktbl_tc.c:154-155 | every entry of a rate table is read back from its four bytes |
| RateTable.PickCellLog | kmod/qos_marktbl_tc.c:88-92 | the least shift that brings the mtu to at most 255 |
| RateTable.CellIsLeast | kmod/qos_marktbl_tc.c:88-92 | the cell size is the least power of two of which 256 exceed the mtu |
| RateTable.CalcRtable | kmod/qos_marktbl_tc.c:77-104 | fills all 256 entries with the 32-bit arithmetic of the code |
| RateTable.EntryIsQuotient | kmod/qos_marktbl_tc.c:94-97 | every entry, overflow or not, is the rounded-down quotient of the product cut to 32 bits by a tenth of the rate |
| RateTable.NoOverflowIff | kmod/qos_marktbl_tc.c:97 | all 256 products are exact if and only if the last one fits 32 bits |
| RateTable.CoversMtu | kmod/qos_marktbl_tc.c:88-95 | the last entry covers the mtu |
| RateTable.Accuracy | kmod/qos_marktbl_tc.c:97 | an entry is less than one tick below the ideal time and at most the factor bps / (bps - 9) above it |
| RateTable.TableIsGood | kmod/qos_marktbl_tc.c:94-98 | for every mtu, if the last product fits 32 bits, the table is non-decreasing, covers the mtu and is accurate |
| RateTable.SmallMtuFits | kmod/qos_marktbl_tc.c:85-97 | for every mtu up to the default 2047 it fits when 204800 times the ticks of a millisecond do |
| RateTable.HtbOptions | kmod/qos_marktbl_tc.c:107-149 | the numbers of a class: both rates with their defaults, the token buffers, the cell size, two tables of exact quotients, which are good if the last product fits 32 bits |
| ClassMessage.BuildNewClass | kmod/qos_marktbl_tc.c:107-203 | in the message of a new class a reader finds the rates with their defaults 125 and 125000000, the token buffers and the least cell size in the parameters, the table of the rate under type 4 and the table of the ceil under type 3, entry by entry, and both good if the last product fits 32 bits |
| ClassMessage.HtbOptRead | kmod/qos_marktbl_tc.c:99-149 | each field of struct tc_htb_opt is read back from its place, and the unused ones are 0 |
| RateTable.RateInRange | kmod/qos_marktbl_tc.c:117-125 | up to 4294967 kbit/s the rate is exact and no divisor is zero |
| RateTable.DivisorZeroIff | kmod/qos_marktbl_tc.c:112-118 | the divisor of either table, rate or ceil, is zero exactly when the truncated product leaves 8 to 79 |
| RateTable.DivisorZeroInput | kmod/qos_marktbl_tc.c:112-118 | 115964117 kbit/s is such a rate, for both |

## Left out

- Races.SafeIff: operator calls other than deletions and resets (rule changes, flushes, set-spec, raw marks) do not interleave with packets, and rule modes are fixed during a run. A step is one locked section or one unlocked read, not one machine instruction. Memory outside the bitmap is modelled only as an arbitrary bit when it is read; what a write there destroys is not.
- LiveReset.WipeSafeIff: share rules are not followed across a wipe with two threads or more, since they are unsafe without one.
- TcThreads.FaithfulIff: for private rules, with sends taken to succeed and without wipes. The scripts rebuild the tree themselves during a reset.
- TcTree.TrackRun: sends are taken to succeed and a rule in use keeps its device number. `qmark_del_hash` is not among the steps, because it frees a mark without deleting its tc objects; `TcTree.DelHashTracksIff` says exactly when.
- TcTree.AddNewMark: the behaviour of the kernel's tc (exclusive additions, deletion of a queue with its class) is stated by the model, since its code is not part of the repository.
- EntryPoints.Perform: the listing commands, the tc test commands, QMARK_IOC_NETDEV_SET (it copies two device names; a device is one of two values here) and the copying between user and kernel space in kmod/qos_marktbl_ioctl.c are not modelled, nor is its rejection of address 0.
- MarkHead.Head.Add: a bucket is a sequence of nodes, not a linked list, so pointer updates inside a list and the lifetime of a node after it is unlinked are not captured. That an inserted node may fail to be allocated is a parameter; the large allocations of init and set-spec are taken to succeed.
- MarkTable.QosMark.HashAdd: counts are unbounded integers; the wrap-around of `atomic_t` is not modelled.
- MarkTable.QosMark.AllocMark: the kernel's bitmap functions are modelled as an array of booleans with a loop for the search.
- Hash.HashFn: a negative key length is not modelled.
- Netlink.BuildClass: the message header and struct tcmsg are not part of the buffer model, and struct tc_htb_opt is any 44 bytes here (`ClassMessage.HtbOpt` lays it out). Attribute numbers and the sizes of kernel structs come from the kernel's headers, which are not part of the repository.
- RateTable.HtbOptions: the local variables `buffer` and `cbuffer` (kmod/qos_marktbl_tc.c:127-132) are computed and never used by the code, and are left out. The kernel's ticks per millisecond are a parameter. The rates must leave a divisor that is not zero; `RateTable.DivisorZeroIff` says when they do.
- Module init and exit, the character device, netlink sockets, device lookup, spinlock semantics and all printing are kernel plumbing.
- `tc_sfq_qdisc_modify` is never called.
- app/qmark.c and xt_lib/libxt_qmark.c parse and print options; the shell and Lua scripts call iptables, tc and uci. Only the mask and the sizes are taken from them.
