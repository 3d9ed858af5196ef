# NexsOS: object manager, disk builder and three small cores

Dafny models of the parts of NexsOS that keep invariants across many
operations, with proofs over every input, every run and every reachable state.

| files | what they model |
|---|---|
| `HandleSpec`, `HandleInvariant`, `HandleSteps`, `PortSteps`, `ProcessSteps`, `PortSend`, `HandleRuns`, `HandleLosses`, `HandleRights`, `HandleTheorems`, `HandleCalls`, `SendCalls`, `PortListed`, `PortTraffic`, `PortLimits` | the capability object manager of kernel/core/object.c as a transition system: one step per `object_lock` critical section, any number of processes, pins and unfinished system calls part of the state |
| `ObjectManager` | the same critical sections in the source's own form, a class whose fields are updated in place by loops; every method is proved to perform the transition of `HandleSpec` |
| `Channel`, `ChannelWakeups`, `ChannelLimits`, `ChannelFifo`, `ChannelReads`, `Ring`, `ChannelRing` | pipes and ports as blocking channels: the read and write loops, `kthread_block` and `wake_up` of any number of threads, and the ring buffer underneath |
| `Sha256`, `Merkle` | streaming SHA-256 and the in-place Merkle reduction of tools/mkdisk.c |
| `DiskPlan`, `DiskTree`, `DiskRead`, `DiskImage`, `ExtentTree`, `LegacyLayout`, `DirBlock` | the planner, the bump allocator and its counters, both block layouts and the directory block of tools/mkdisk.c, up to a whole image that can be read back |
| `EdgeSort` | the edge sort of tools/stb_truetype.h |
| `BitBuffer` | `plm_buffer_t` of include/api/pl_mpeg.h |
| `Bringup` | secondary-CPU bring-up, kernel/core/smp.c and kernel/main.c |
| `Basics` | an option type, bytes and powers of two, shared |

`dafny verify dfyconfig.toml` checks everything.

## Where the code and its description differ

The model follows the code. Each difference is a theorem that says exactly when
the promised property holds.

- `process_install_stdio` publishes the table of a new process in one critical
  section and sets slots 0 to 2 in a later one without looking at them
  (kernel/core/object.c:1767-1782). The process can be found by pid by then, so a
  grant may have used those slots; the handle is overwritten and never counted
  down. The model keeps the overwritten handles as history: in every run each
  count is the slots and pins that refer to the object plus those handles
  (`HandleRuns.EveryRunIsSafe`); the counts are exact at the end of a run if and
  only if no new process of the run found a standard slot in use
  (`HandleLosses.CountsExactIff`), and so is freedom from leaks
  (`HandleLosses.NothingLeaksIff`). What is lost stays allocated, and its pipe end
  open, for ever (`HandleLosses.LossIsForever`); `HandleLosses.GrantOverwritten`
  is such a run.
- `wake_up` (kernel/sched/process.c:561-595) wakes the first sleeper only, while
  its callers describe it in the plural ("writers get EPIPE", "readers see EOF",
  kernel/core/object.c:136-171) and the comment on `kthread_block` promises that
  no event is missed. With a broadcast no wake-up is ever lost. With the
  code's `wake_up`, none is lost if and only if at most one thread reads and at
  most one writes (`ChannelLimits.ExactlyOneOfEach`); two readers or two writers
  suffice for one of them to sleep for good with its wait over.
- A port name is stored in 32 bytes but compared in full. All runs that ask only
  for names in a set keep published names unique if and only if every name in the
  set is shorter than 32 characters (`PortLimits.NamesUniqueIff`).
- The port-table slot is chosen in one critical section and used in another
  without a second look. In every state of a run each port with a receiver is in
  the table if and only if no successful publication of the run finds its slot
  taken (`PortListed.AlwaysListedIff`); two services starting together can lose
  one entry (`PortLimits.ReceiverDisplaced`).
- `populate_directory` writes records into a block of 4096 bytes without a bound,
  and the planner limits only the number of entries. All record writes stay inside
  the block if and only if the records fit (`DirBlock.EncodeDirectory`), so that is
  part of the exact condition under which an image is built
  (`DiskImage.BuildImage`); `DiskTree.Overfull` is a directory of 256 short names
  that is planned and takes 4120 bytes.
- `plm_buffer_write` doubles the capacity until the data fits, which ends if and
  only if there is a capacity or nothing to fit (`BitBuffer.DoublingEndsIff`).
- `next_free_block` does not skip the metadata at the head of groups 1 and up.
  Blocks are all distinct, and the superblock's free count equals the sum of the
  group counts, if and only if the content ends inside group 0
  (`DiskImage.DistinctIff`, `DiskImage.CountersAgreeIff`, `DiskImage.BuildImage`).
- A bring-up that times out leaves a CPU that may acknowledge later, into the
  same cell. The acknowledgement of a first bring-up is seen exactly when it has
  been made, for all continuations, if and only if no other CPU is still on its
  way when the call begins (`Bringup.VisibleIffQuiet`).
- `smp_create_idle_task` publishes the idle task before it fills in the context.
  A running CPU never has a blank one if and only if bring-up is called for a CPU
  that is off (`Bringup.KeepsContextsIff`); for callers that bring every CPU up
  once, interrupts are on only where the context is complete
  (`Bringup.InterruptsNeedContext`).
- Bring-up of CPU 0 would match the reset cell at once (`Bringup.ZeroNeedsNoAck`).

## Model

| member | source | states |
|---|---|---|
| HandleRuns.EveryRunIsSafe | kernel/core/object.c:119-289 | in every state reachable from boot, over all interleavings: refcount = slots naming the object + pins + overwritten handles; readers/writers likewise for READ/WRITE; an object with count 0 is in the hands of exactly one process and any other of none; no slot, pin or local pointer dangles; no handle holds CREATE; every port-table entry is a live port with a receiver and a reference; live counts are exact |
| HandleLosses.NothingLeaksIff | kernel/core/object.c:1857-1879 | once all tables are destroyed and no call is in flight, the objects left are those that overwritten handles name; none is left, no name published and all live counts 0 if and only if no new process of the run found a standard slot in use |
| HandleLosses.CountsExactIff | kernel/core/object.c:1762-1785 | at the end of every run all counts are exactly the slots and pins that refer to the object, if and only if no new process of the run found a standard slot in use |
| HandleLosses.StdioExactIff | kernel/core/object.c:1773-1783 | setting the standard slots keeps exact counts exact if and only if slots 0, 1 and 2 are free |
| HandleLosses.LostRun | kernel/core/object.c:1762-1785 | overwritten handles only add up along a run, and nothing but the standard slots overwrites any |
| HandleLosses.LossIsForever | kernel/core/object.c:1773-1783 | an overwritten handle keeps its object allocated and its pipe or port end open in every later state |
| HandleLosses.GrantOverwritten | kernel/core/object.c:1767-1782 | a run: a grant into a new process is overwritten, both processes end, and the pipe stays with a count of 1 |
| HandleRuns.ApplyInv | kernel/core/object.c:263-976 | each critical section, at any point of any interleaving, keeps the invariant |
| HandleRuns.RunInv | kernel/core/object.c:263-976 | every run of any length keeps the invariant |
| HandleInvariant.PutCore | kernel/core/object.c:263-278 | pointing a slot at an object and counting it leaves exactly the overwritten handle uncounted |
| HandleInvariant.ForgetCore | kernel/core/object.c:136-171 | counting that handle down, with the port unpublished at its last receiver, makes all counts exact again |
| HandleInvariant.DropCore | kernel/core/object.c:638-661 | emptying a slot keeps all counts exact |
| HandleSteps.InstallNewInv | kernel/core/object.c:263-278 | a created object that cannot be installed goes back to its creator to be freed, and nothing else can reach it |
| HandleSteps.InstallPipeInv | kernel/core/object.c:777-797 | counts are exact with both ends installed, with only the read end in a slot (which the close that follows empties), and with none (the creator then owns the pipe and frees it) |
| HandleSteps.DupInv | kernel/core/object.c:611-636 | duplication keeps the invariant, also when the table is full |
| HandleSteps.GrantInv | kernel/core/object.c:697-738 | so does granting, also to a dead target or one without a table |
| HandleSteps.CloseInv | kernel/core/object.c:638-661 | closing the last handle makes the closer the one owner of the object |
| HandleSteps.PinInv | kernel/core/object.c:811-834 | a pin is counted like a handle |
| HandleSteps.UnpinInv | kernel/core/object.c:280-289 | dropping the last reference makes the dropper the one owner |
| HandleSteps.FreeInv | kernel/core/object.c:213-227 | freeing an object nothing refers to leaves nothing dangling and the live counts exact |
| HandleSteps.AllocInv | kernel/core/object.c:199-211 | a new object is local to its creator |
| PortSteps.PortLookupInv | kernel/core/object.c:433-463 | the first critical section of a named acquisition keeps the invariant on all its exits |
| PortSteps.PortPublishInv | kernel/core/object.c:486-499 | so does the second, on the lost race, on a full table and on success |
| PortSteps.PublishedHasRef | kernel/core/object.c:119-134 | what a name resolves to has a reference and a receiver |
| PortSteps.PortWriteInv | kernel/core/object.c:1339-1369 | queueing a message leaves all counts alone |
| PortSteps.PortReadInv | kernel/core/object.c:1155-1181 | so does taking one |
| ProcessSteps.InstallStdioInv | kernel/core/object.c:1762-1785 | the three standard slots hold the one console, counted three times, and what they held before is accounted for as overwritten, for every table |
| ProcessSteps.RedirectInv | kernel/core/object.c:1798-1838 | overwriting a child's slot counts the new handle before the old one goes, also when both are the same object |
| ProcessSteps.DestroyTableInv | kernel/core/object.c:1857-1879 | teardown drops each handle once, frees what loses its last reference and leaves other tables alone |
| PortSend.SendFailsClean | kernel/core/object.c:854-976 | on every error the whole state is the one before the call, and the unwind never drops a last reference |
| PortSend.SendDelivers | kernel/core/object.c:854-976 | on success exactly one slot per descriptor, free before, holds the sender's object and rights (sender and receiver distinct), and one message joined the queue: from the sender, its leading payload ints those slots, all else as given; nothing else changed |
| PortSend.UnwindRestores | kernel/core/object.c:945-965 | taking lent handles back, in the order they were lent, restores tables and counts and frees nothing |
| PortSend.LendAll | kernel/core/object.c:895-911 | after any prefix of the install loop the receiver's new slots are copies of handles the sender still holds |
| HandleCalls.DupExactly | kernel/core/object.c:611-636 | success if and only if the handle is there, holds DUPLICATE and a slot is free; then the first free slot names the same object with exactly the rights that are named, asked for and held; no other slot changes; each error under its exact condition |
| HandleCalls.GrantExactly | kernel/core/object.c:697-738 | the same for a grant, which needs TRANSFER, in the target's table; the errors in the order of the tests |
| HandleCalls.PinExactly | kernel/core/object.c:811-834 | 0 if and only if the handle is there and holds every right asked for; otherwise nothing changes, with -EBADF or -EPERM under their exact conditions |
| HandleCalls.UnpinExactly | kernel/core/object.c:280-289 | one reference less, and the caller frees the object if and only if it was the last |
| HandleCalls.CloseExactly | kernel/core/object.c:638-661 | exactly that slot becomes free, and the caller frees the object if and only if it held the last reference |
| HandleCalls.InstallNewExactly | kernel/core/object.c:263-278 | a new handle holds exactly the named rights asked for, in the first free slot |
| HandleCalls.InstallPipeExactly | kernel/core/object.c:777-797 | the first two free slots hold READ and WRITE, each with TRANSFER and DUPLICATE |
| HandleCalls.LookupSends | kernel/core/object.c:433-449 | a lookup without READ gives a handle to the port that carries the name, with exactly the named rights asked for; -ENOENT if and only if no entry carries it |
| HandleCalls.LookupPublishes | kernel/core/object.c:450-463 | a lookup with READ picks the first empty entry; -EEXIST and -ENOSPC under their exact conditions |
| HandleCalls.AllocExactly | kernel/core/object.c:465-484 | the new port belongs to the caller, is empty and keeps at most 31 characters of the name |
| HandleCalls.PublishExactly | kernel/core/object.c:486-499 | success if and only if the name is still free and the caller has a slot; then it holds the rights asked for and the entry is set |
| HandleCalls.StdioExactly | kernel/core/object.c:1773-1783 | slot 0 can be read, slots 1 and 2 written, all other slots stay |
| HandleCalls.RedirectExactly | kernel/core/object.c:1798-1838 | the child's slot becomes the owner's handle, rights included, and no other slot changes |
| HandleCalls.PortWriteExactly | kernel/core/object.c:1339-1369 | the message joins the queue under the sender's own pid, if and only if there is a receiver and room for it |
| HandleCalls.PortReadExactly | kernel/core/object.c:1155-1181 | the oldest message is handed out and removed; 0 if and only if there is none and no sender |
| SendCalls.SendExactly | kernel/core/object.c:854-976 | between different processes: the return value for every state, from the first descriptor that names nothing, the receiver's free slots, its receivers and its queue |
| PortTraffic.EveryMessageWasSent | kernel/core/object.c:859-943 | every message in every queue of every reachable state was put there by the process it names, which held WRITE on that very port when it entered the call |
| PortTraffic.EveryReaderHeldRead | kernel/core/object.c:986-990 | whoever takes a message held READ on that port when it entered the call |
| PortTraffic.QueuesBounded | kernel/core/object.c:1359-1361 | no queue ever holds more than 32 messages |
| PortTraffic.StepMoves | kernel/core/object.c:854-976 | every step leaves a queue alone, appends one message of a writer, or takes the first for a reader |
| HandleRights.ApplyEvolves | kernel/core/object.c:611-738 | one step: every handle that a name lookup could not have given is covered by an older one to the same object |
| HandleRights.NoEscalation | kernel/core/object.c:628 | over any run of a surviving object, every such handle holds a subset of the rights of one that existed at the start |
| HandleTheorems.RightStaysGone | kernel/core/object.c:779-785 | a right nobody holds is never held again |
| HandleTheorems.EndpointsStayZero | kernel/core/object.c:136-171 | readers of a pipe or port, and writers of a pipe, that reached zero after creation stay zero |
| HandleTheorems.NamesStayUnique | kernel/core/object.c:455-494 | while requested names have fewer than 32 characters, published names are pairwise different in every reachable state, in spite of the unlocked gap |
| PortLimits.NamesUniqueIff | kernel/core/object.c:472 | all runs that ask only for names in a set keep published names unique if and only if every name in the set has fewer than 32 characters |
| PortLimits.LongNamesCollide | kernel/core/object.c:472 | for every path of at least 32 characters, a run that publishes it twice |
| PortListed.AlwaysListedIff | kernel/core/object.c:455-494 | for every run: in each of its states every port with a receiver is in the table, if and only if no successful publication of the run finds its chosen slot taken |
| PortListed.StepSheds | kernel/core/object.c:136-171 | every other step gives no port its first receiver, and a port that keeps a receiver keeps its entry |
| PortListed.DisplacedIsUnlisted | kernel/core/object.c:486-494 | the receiver whose entry is overwritten is live and no longer listed |
| PortLimits.DisplacesIff | kernel/core/object.c:486-494 | for one publication: all earlier entries are kept if and only if the slot chosen earlier is still empty |
| PortLimits.ReceiverDisplaced | kernel/core/object.c:455-494 | a run after which a live receiver is not in the table |
| ObjectManager.Manager.constructor | kernel/core/object.c:50-118 | nothing allocated, nothing published, and the invariant holds |
| ObjectManager.Manager.PortFindLocked | kernel/core/object.c:119-134 | the loop finds the first entry with the name |
| ObjectManager.Manager.PipeHandleCountLocked | kernel/core/object.c:136-171 | counts both ends and clears every entry of a port that lost its last receiver |
| ObjectManager.Manager.HandleInstallLocked | kernel/core/object.c:263-278 | the first free slot, or -EMFILE with nothing changed |
| ObjectManager.Manager.HandleDup | kernel/core/object.c:611-636 | performs the Dup transition and keeps the invariant |
| ObjectManager.Manager.HandleClose | kernel/core/object.c:638-661 | performs the Close transition and keeps the invariant |
| ObjectManager.Manager.CapGrant | kernel/core/object.c:697-738 | performs the Grant transition and keeps the invariant |
| ObjectManager.Manager.PinHandle | kernel/core/object.c:811-834 | performs the Pin transition and keeps the invariant |
| ObjectManager.Manager.ObjUnref | kernel/core/object.c:280-289 | performs the Unpin transition and keeps the invariant |
| ObjectManager.Manager.InstallPipeEnds | kernel/core/object.c:777-797 | performs the InstallPipe transition and keeps the invariant |
| ObjectManager.Manager.InstallStdioLocked | kernel/core/object.c:1773-1783 | performs the InstallStdio transition and keeps the invariant |
| ObjectManager.Manager.PortWriteLocked | kernel/core/object.c:1350-1367 | performs the PortWrite transition and keeps the invariant |
| ObjectManager.Manager.PortReadLocked | kernel/core/object.c:1161-1180 | performs the PortRead transition and keeps the invariant |
| ObjectManager.Manager.HandlesDestroy | kernel/core/object.c:1857-1879 | performs the teardown of a whole table and keeps the invariant |
| ObjectManager.Manager.PortSendCaps | kernel/core/object.c:854-976 | performs the SendCaps transition, install loop and unwind loop included, and keeps the invariant |
| ObjectManager.Manager.PortLookupLocked | kernel/core/object.c:433-463 | performs the PortLookup transition and keeps the invariant |
| ObjectManager.Manager.PortPublishLocked | kernel/core/object.c:486-499 | performs the PortPublish transition and keeps the invariant |
| ObjectManager.Manager.RedirectChildFd | kernel/core/object.c:1798-1838 | performs the Redirect transition and keeps the invariant |
| ChannelWakeups.NoWakeupLost | kernel/core/object.c:1155-1221 | over all interleavings of readers, writers and closers: a sleeper whose wait is over has a wake_up coming, with a broadcast wake_up or with at most one reader and one writer |
| ChannelLimits.ExactlyOneOfEach | kernel/sched/process.c:561-595 | with the wake_up of the code that property holds of all runs if and only if at most one thread reads and at most one writes |
| ChannelLimits.TwoReadersLose | kernel/core/object.c:1195-1221 | for any two readers, each with its own end, a run after which one sleeps with its wait over, in every continuation that opens no new write end |
| ChannelLimits.TwoWritersLose | kernel/core/object.c:1389-1413 | the same for any two writers and the read end |
| ChannelFifo.FirstInFirstOut | kernel/core/object.c:1155-1221 | accepted items = removed items + contents, never over capacity; a positive return of a write is the length of the prefix of the buffer that was accepted, any other return means nothing was; it falls short only with no read end open or, without blocking, at a full channel |
| ChannelReads.ReadsAreFair | kernel/core/object.c:1195-1218 | over all runs: what finished reads returned, one after the other, is what was removed; each returns at most what it asked for and as much of it as was there, and 0 only at an empty channel with no write end open |
| ChannelReads.ReadPassExactly | kernel/core/object.c:1195-1218 | one pass takes the oldest items, at most n, or finds the end of file, or waits with nothing changed |
| ChannelReads.WritePassExactly | kernel/core/object.c:1389-1413 | one pass appends what fits, ends a write that is complete or has no reader, or waits with nothing changed |
| ChannelReads.TrySendExactly | kernel/core/object.c:932-943 | a send that does not block is refused, put off or appended under its exact condition |
| ChannelReads.EndsAddUp | kernel/core/object.c:136-171 | open ends are those opened less those closed |
| Ring.RingBuffer.Append | kernel/core/object.c:1389-1413 | the write loop appends exactly the given items, across wraparound |
| Ring.RingBuffer.Take | kernel/core/object.c:1195-1218 | the read loop removes and returns exactly the oldest items |
| ChannelRing.ReadFrom | kernel/core/object.c:1195-1210 | on the ring, a read removes and returns the oldest min(n, count) items, which is what the channel machine does |
| ChannelRing.WriteInto | kernel/core/object.c:1389-1413 | on the ring, a write with an open read end appends all that is left or fills the ring, which is what the channel machine does |
| Sha256.PaddingIsStandard | tools/mkdisk.c:277-294 | for messages under 2^61 bytes: message, 0x80, the least number of zeros that reaches 448 mod 512 bits, the length in bits, as in section 5.1.1 of FIPS 180-4 |
| Sha256.Context.Update | tools/mkdisk.c:259-275 | any chunk extends the message absorbed so far |
| Sha256.Context.PadTo56 | tools/mkdisk.c:277-294 | the padding loop terminates after exactly the standard's zeros |
| Sha256.Context.Final | tools/mkdisk.c:277-294 | the digest of everything fed in |
| Sha256.HashChunks | tools/mkdisk.c:246-294 | any split of a message gives the digest of the message |
| Sha256.DigestIs | tools/mkdisk.c:277-294 | word i of the final state is at bytes 4i to 4i+3 of the digest, most significant first |
| Sha256.InitIsRoots | tools/mkdisk.c:246-257 | the initial words are the fractional parts of the square roots of the first eight primes, as in section 5.3.3 of FIPS 180-4 |
| Sha256.BlocksSnoc | tools/mkdisk.c:259-275 | one more block is one more application of the block function |
| Merkle.ReduceLevel | tools/mkdisk.c:1376-1389 | one pass in place leaves at k the hash of digests 2k and 2k+1, one after the other, and takes a lone last one over |
| Merkle.RootInPlace | tools/mkdisk.c:1374-1391 | the loop terminates with the root of the whole level in front |
| Merkle.ReduceIsTopDown | tools/mkdisk.c:1374-1391 | level by level equals the recursive tree cut at the largest power of two below the length |
| Merkle.RootIs | tools/mkdisk.c:1363-1391 | the root of one block is its hash, of more the hash of the two roots on either side of the largest power of two below their number |
| Merkle.MerkleRoot | tools/mkdisk.c:1363-1391 | hashing the blocks and reducing in place gives that root |
| Merkle.SplitIsPower | tools/mkdisk.c:1374-1391 | the cut is that power of two |
| Merkle.Collision | tools/mkdisk.c:1374-1391 | different trees with one digest give two different strings, one hashed in each, with one hash |
| Merkle.EqualRootsCollide | tools/mkdisk.c:1363-1391 | the same for different block sequences of any lengths with one root |
| DiskPlan.LeavesAgree | tools/mkdisk.c:483-488 | the planner reserves leaf blocks exactly where the tree builder takes them, and as many |
| DiskPlan.PlanIsNeed | tools/mkdisk.c:505-566 | for every accepted tree the plan's data and leaf blocks are what the writer takes |
| DiskPlan.PlanFits | tools/mkdisk.c:568-612 | the partition holds the metadata of group 0 and everything the writer takes, has 4 to 128 whole groups, and the inodes fit the table |
| DiskPlan.PlanInodes | tools/mkdisk.c:505-566 | the planner counts one inode for every node the writer numbers |
| DiskPlan.PlannedIsPlain | tools/mkdisk.c:505-566 | an accepted tree has only files and directories |
| DiskPlan.PlannedIff | tools/mkdisk.c:505-612 | a tree is accepted if and only if it has files and directories only, no directory over 256 entries, at most 1014 inodes and content for at most 128 groups |
| DiskPlan.PlannedIsLeast | tools/mkdisk.c:568-612 | the partition has the fewest groups that hold the content, but at least four |
| DiskPlan.FitsTreeIff | tools/mkdisk.c:695-766 | a file can be encoded if and only if it has at most 10880 blocks |
| DiskImage.DistinctIff | tools/mkdisk.c:1129-1148 | metadata and data blocks are pairwise distinct if and only if the data ends inside group 0 |
| DiskImage.CountersAgreeIff | tools/mkdisk.c:1159-1172 | the wrapping free counter plus the set bits is the total, and equals the sum of the group counts, if and only if no block was marked twice |
| DiskImage.RepeatsIff | tools/mkdisk.c:656-677 | no mark hit a set bit if and only if the marked blocks are distinct |
| DiskImage.MetaIs | tools/mkdisk.c:1129-1148 | metadata is the first 68 blocks and the first three of every further group |
| DiskImage.Image.MarkBlockUsed | tools/mkdisk.c:656-677 | refuses exactly the blocks past the end; bitmaps show exactly the marked blocks |
| DiskImage.Image.MarkMetadata | tools/mkdisk.c:1129-1148 | marks the 68 blocks of group 0 and three per further group |
| DiskImage.Image.Alloc | tools/mkdisk.c:826-832 | takes the next n blocks in order, or exits exactly when they pass the end |
| DiskImage.Image.WriteFile | tools/mkdisk.c:820-850 | takes exactly the blocks a file needs and builds its extent tree; succeeds if and only if they fit and the tree can encode them; then every logical block leads to its slice |
| DiskImage.Image.WriteDir | tools/mkdisk.c:973-1067 | takes one block and writes the records; succeeds if and only if the block is there and the records fit it; then a reader finds the directory, its parent and every entry shown, under its name and with the type of its node |
| DiskImage.Image.Number | tools/mkdisk.c:1010-1051 | the entries whose names do not begin with a dot, in order, get consecutive inode numbers, type 2 for a directory and 1 for a file |
| DiskImage.Image.Populate | tools/mkdisk.c:973-1078 | the directory and all below it: exactly the planned blocks and inodes, nothing overwritten, and the tree can be read back; succeeds if and only if all files can be encoded, all directories fit and there is room |
| DiskImage.Image.GroupFree | tools/mkdisk.c:1159-1172 | the clear bits of a group, in 16 bits |
| DiskImage.BuildImage | tools/mkdisk.c:1080-1172 | finishes with all writes inside their buffers if and only if the plan is accepted, every file can be encoded and every directory fits; then the whole tree can be read back from inode 2, at most 1024 inodes are used, the log is metadata followed by one run of the planned length inside the partition, and it is free of repeats with agreeing counters if and only if it ends inside group 0 |
| DiskTree.Overfull | tools/mkdisk.c:1042-1049 | a directory of 256 distinct names that the planner accepts and that does not fit its block |
| DiskTree.RecordsSize | tools/mkdisk.c:1045-1049 | the length of the records follows from the names alone |
| DiskTree.StoredMono | tools/mkdisk.c:1069-1077 | what can be read back stays readable while further blocks and inodes are written |
| DiskTree.FileWritten | tools/mkdisk.c:820-845 | after a file is written logical block i leads to slice i, nothing lies beyond, and nothing was overwritten |
| DiskRead.ReadsBack | tools/mkdisk.c:973-1078 | what the writer keeps is what a reader finds: from the inode of each record its own node, dot names left out, type 2 exactly for directories and 1 exactly for files, a block for every 4096 bytes and none beyond |
| ExtentTree.TilesFind | tools/mkdisk.c:695-766 | a last-entry-not-greater lookup in a node that tiles a range finds every block of it and nothing beyond |
| ExtentTree.IndexFind | tools/mkdisk.c:695-766 | the same through an index |
| ExtentTree.FillNode | tools/mkdisk.c:712-717 | the extents of a node tile their range in order |
| ExtentTree.BuildExtentTree | tools/mkdisk.c:695-766 | looking up logical block i gives first+i for i < nblocks and nothing beyond, for every file size; depth 1 exactly when the planner reserves leaves; exits exactly when four leaves do not suffice; node capacities respected |
| LegacyLayout.AllDistinct | tools/mkdisk.c:851-917 | data blocks, pointer blocks and second-level pointer blocks are pairwise distinct |
| LegacyLayout.WriteBlocks | tools/mkdisk.c:851-891 | after any number of slices the three pointer levels name exactly the blocks written |
| LegacyLayout.Flush | tools/mkdisk.c:893-917 | every pointer block is written to the place that names it, none over another |
| LegacyLayout.WriteLegacy | tools/mkdisk.c:851-917 | for every file of up to 12+1024+1024*1024 blocks, following the pointers for logical block k reaches the block slice k was written to; data blocks, and pointer blocks, are pairwise different and different from each other, all inside the range taken |
| DirBlock.DecodeSpliced | tools/mkdisk.c:987-1049 | a record read back where it was written is the record |
| DirBlock.EncodeIs | tools/mkdisk.c:987-1049 | the byte layout of a record |
| DirBlock.FindLast | tools/mkdisk.c:1052-1057 | following rec_len stops at the last record |
| DirBlock.EncodeDirectory | tools/mkdisk.c:984-1062 | all writes stay inside the block if and only if the records fit; then walking rec_len from 0 yields ".", ".." and each child once, in order, with inode, type and name, and ends exactly at 4096 |
| DirBlock.InsideIff | tools/mkdisk.c:1042-1049 | the bytes of the next record stay inside if and only if its padded length does |
| DirBlock.RecordsAligned | tools/mkdisk.c:1045 | every record read back starts and ends on a multiple of 4 and has room for its name |
| EdgeSort.InsertionSort | tools/stb_truetype.h:3399-3415 | sorts the first n edges, rearranging only them |
| EdgeSort.MedianStops | tools/stb_truetype.h:3423-3444 | with the median in front one of the two others stops the upward scan |
| EdgeSort.Partition | tools/stb_truetype.h:3446-3466 | both unguarded scans stay inside the range; what lies below i is not above the pivot and what lies above j is not below it |
| EdgeSort.QuickSort | tools/stb_truetype.h:3417-3477 | terminates, nests no deeper than the d with n < 2^d, and only rearranges its range |
| EdgeSort.SortEdges | tools/stb_truetype.h:3479-3483 | the first n edges come out sorted and a permutation of what they were; the rest is untouched |
| BitBuffer.Buffer.constructor | include/api/pl_mpeg.h:1497-1513 | an empty buffer whose stream is what will be loaded |
| BitBuffer.Buffer.OverMemory | include/api/pl_mpeg.h:1484-1495 | a buffer over given memory, which is its whole stream |
| BitBuffer.Buffer.DiscardReadBytes | include/api/pl_mpeg.h:1611-1622 | the unread bits are the same |
| BitBuffer.Buffer.Write | include/api/pl_mpeg.h:1537-1568 | appends exactly the data to the unread bits, whatever was discarded or reallocated; fixed memory refuses |
| BitBuffer.Buffer.Has | include/api/pl_mpeg.h:1658-1675 | answers whether the bits are there after at most one load, with the stream unchanged |
| BitBuffer.Buffer.Read | include/api/pl_mpeg.h:1677-1698 | removes the next bits of the stream and returns their value, most significant first; or 0 with nothing removed |
| BitBuffer.Buffer.PeekNonZero | include/api/pl_mpeg.h:1761-1769 | tells whether the next bits are non-zero and leaves the stream as it was, also when the callback appended meanwhile |
| BitBuffer.Buffer.NextStartCode | include/api/pl_mpeg.h:1720-1736 | the first 00 00 01 among the bytes seen, or -1; the position ends behind its code, and nothing is lost in either discard mode |
| BitBuffer.Buffer.FindStartCode | include/api/pl_mpeg.h:1738-1747 | the first one with the code, the search resuming behind each other one; terminates |
| BitBuffer.Buffer.HasStartCode | include/api/pl_mpeg.h:1749-1759 | the same answer with position, discard mode, stream and contents as before, whatever was loaded |
| BitBuffer.DoublingEndsIff | include/api/pl_mpeg.h:1554-1562 | doubling makes room for the data if and only if there is a capacity or no data |
| BitBuffer.BitsOfByte | include/api/pl_mpeg.h:1684-1692 | shift and mask pick out consecutive bits |
| BitBuffer.ValueConcat | include/api/pl_mpeg.h:1692 | shifting in more bits is concatenation |
| Bringup.BringupIsSafe | kernel/core/smp.c:31-78 | over all interleavings, late acknowledgements included: interrupts are on only where an idle task is published, and 0 was returned for a non-zero CPU only if it acknowledged, which is after its per-CPU initialisation |
| Bringup.StepInv | kernel/main.c:461-490 | what every step of either side keeps |
| Bringup.BootExactly | kernel/core/smp.c:56-78 | what each step of the boot CPU does, with -1, 0 and -2 under their exact conditions |
| Bringup.SecondaryExactly | kernel/main.c:461-490 | the stages of a secondary in order, and its one acknowledgement |
| Bringup.ReturnsZeroIff | kernel/core/smp.c:72-77 | a poll returns 0 if and only if the last acknowledgement since the reset is this CPU's, or it is CPU 0 and there was none |
| Bringup.VisibleIffQuiet | kernel/core/smp.c:56-78 | in all continuations of a first bring-up the cell shows the acknowledgement exactly when it was made, if and only if no other CPU is still on its way at the call |
| Bringup.LateAckHides | kernel/core/smp.c:31-33 | any CPU still on its way can hide it |
| Bringup.ZeroNeedsNoAck | kernel/core/smp.c:56-78 | a run in which bring-up of CPU 0 returns 0 before it initialised |
| Bringup.KeepsContextsIff | kernel/sched/process.c:1219-1242 | no running CPU has a blank idle context, in all continuations of a call, if and only if the called CPU is off |
| Bringup.InterruptsNeedContext | kernel/main.c:461-490 | when no CPU is brought up twice, interrupts are on only where the idle task's context is complete |
| Bringup.ExpiredIff | kernel/core/smp.c:70-74 | the signed 64-bit comparison is over exactly ten seconds of ticks after the start, also when the counter wraps |
| Bringup.AwaitAck | kernel/core/smp.c:68-78 | the wait loop returns 0 at the first load that shows the CPU, or -2 at the first expired tick before one does |

## Left out

- The channels of `Channel` and the objects of `HandleSpec` are two machines: the first has the blocking and the wake-ups, the second the handles and the message queues that carry them. A call on a channel begins only while an end of its kind is open.
- ProcessSteps.RedirectInv: the unlocked test of the owner's table and the creation of the child's table are part of the atomic step; the window in which the owner may end in between, which kernel/core/syscall_dispatch.c:266-297 documents as open, is not modelled.
- ObjectManager.Manager.RedirectChildFd: the same window.
- ProcessSteps.InstallStdioInv: the new process still has its table; its being terminated while it is created is not modelled.
- BitBuffer.Buffer.Write: stated for the calls that return, by the condition of BitBuffer.DoublingEndsIff; a load callback is set only on a buffer it can write to.
- DiskImage.BuildImage: reading back is stated before the bitmaps and the superblock are written, which overlap the content exactly when it ends beyond group 0; where a record would leave the block the model stops, since what the source then overwrites is not defined.
- Host paths longer than 1023 bytes and entries whose stat fails in tools/mkdisk.c.
- FILE, REGKEY, WINDOW, CONSOLE and PROCESS objects: only their handle and reference effects; their I/O goes to file system, registry, compositor and scheduler code that is not part of this model.
- SendCalls.SendExactly: the return value is stated for different sender and receiver; a process that sends to itself may name a slot the same send has just filled. What a successful send delivers is stated for both.
- User copies, allocation failure inside the kernel, lock order and interrupt masking: critical sections are atomic steps.
- Processes killed while blocked with a pin held: teardown is a step of a process with no call in flight.
- sys_cap_query, sys_object_wait, sys_object_ctl and sys_object_lseek: they pin, look and unpin, which the pin steps cover.
- Ring.RingBuffer.Append: stated for a count that fits, which is what the surrounding write pass computes.
- The interiors of sha256_block and crc32: the block function is a parameter.
- Host file I/O, GPT and MBR fields, printing, symbolic-link loops and trees that change during a build.
- The inode counter of tools/mkdisk.c: inode 2 is marked twice and the counter starts net of the reserved inodes, so it has no conservation law.
- DiskPlan.PlanIsNeed: extents mode; the planner does not count the pointer blocks of the legacy layout.
- DiskImage.Image.MarkBlockUsed: the bitmap is a row of bits, not of bytes.
- LegacyLayout.WriteLegacy: stated up to the last double-indirect block; the source has no triple-indirect level.
- EdgeSort.QuickSort: does not state that edges end near their place; the source leaves the element at j out of the left part, and the insertion sort that follows makes the result sorted whatever the order was.
- EdgeSort.SortEdges: keys are reals, so NaN is not modelled.
- BitBuffer.Buffer.Read: the value is unbounded, which agrees with the source's int for up to 31 bits.
- BitBuffer.Buffer.Has: the load callback writes through plm_buffer_write, so a buffer over fixed memory has none; the stdio callback, seeking and the end-of-file flag's meaning are not modelled.
- Bringup.BringupIsSafe: stacks handed to secondaries and their reclaim after a timeout are not part of this model.
- Rasterisation, video and audio decoding, the host tools and the driver headers.
