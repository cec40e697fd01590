# lash-os, verified

lash-os runs GNU Bash inside eBPF and serves it from a userspace loader; optionally the whole thing runs in a
small virtual machine. This project models the parts of it that keep state under events they do not control, and
proves what they keep. `dafny verify dfyconfig.toml` checks everything.

**Console protocol** (`ConsoleFrames`, `ConsoleQueue`, `ConsoleModel`, `ConsoleInvariants`, `ConsoleTheorems`,
`ConsoleHost`, `ConsoleGuest`, `ConsolePasses`, `ConsoleStalls`, `ConsoleDrain`). The launcher and the VM's init exchange length-prefixed frames over two byte
channels through bounded, compacting queues. Each loop is a set of actions on its queues and flags; a world is both
loops, the bytes in flight, and the history of every byte that crossed an outer descriptor. A run is any
interleaving of enabled actions with any short read or write. The loops themselves are classes that update real
queues in place, with system call outcomes supplied from outside; a pass through a loop computes a specified next
state. `ConsolePasses` lifts every such pass, whatever its system calls return, to a stretch of a run of the whole
system, so the theorems about runs are theorems about the loops. `ConsoleStalls` is about what the loops hand to
poll, and `ConsoleDrain` proves of alternating passes of the two loops that they deliver everything and return.

**Signals** (`SignalIo`, `SignalBridge`, `SignalDispatch`, `SignalPoll`, `SignalSystem`,
`SignalScenarios`). The last instructions before `read` or
`write` enters the kernel are program-counter states, with a signal possible at each of them and recorders that
interrupt each other. The recorder's array, the mailbox and the two waits are a second machine; guest dispatch, where
scans and handlers nest to any depth, a third. `SignalPoll` is the dispatch loop itself, run against guest programs
whose handlers nest freely and whose `longjmp`s go to the top of the program, and refines the third machine.
`SignalSystem` joins the second and the third with the guest's own mask, which `sigsuspend` and `ppoll` replace and
put back around a bridge call, and records how that mask was last written; `SignalScenarios` builds runs of it.

**Guest memory** (`PageRanges`, `GuestMemory`). `mmap`, `munmap`, `mremap` and `mincore` over a linked list of heap
records that is edited in place, with pieces that share reference-counted allocations. Addresses and lengths are
64-bit words and the rounding wraps as `size_t` does.

**Descriptors** (`Descriptors`). The guest's descriptor table against the kernel's set of open descriptors,
including directory streams, received descriptors and the reservation of the guest's range while the loader loads.

**Smaller transformations** (`CalendarFormat`, `Calendar`, `Reachability`, `MountPaths`, `MountTable`, `Bundle`,
`LaunchConfig`, `SourceTree`, `LogRing`, `Bytes`, `Common`). The `%Z` expansion, the two reload-reachability searches, the
mount table question, the bundle and configuration formats, the tree synchroniser and the log ring.

## What turned out not to hold, and exactly when it does

- The launcher promises to return the guest's status only after all output. Its loop also ends, still holding that
  status, when `poll` fails with something other than `EINTR`. `ConsoleTheorems.StatusWithAllOutput` shows that the
  status comes with all output if and only if the loop ends drained, and that after a failing `poll` bytes are always
  missing; `PollFailureLosesOutput` is a run that loses one.
- init polls the shell's input for a frame that waits for room in its queue if and only if that input is still open
  (`ConsoleStalls.GuestNeverStalls`). When a terminal hangs up with the queue full, the frame waits for ever:
  `HangUpHoldsInput` is such a run. Nothing that can still be delivered waits behind it.
- A guest `longjmp` clears the set of held signals. `SignalDispatch.GuardedStep` shows that the set stays equal to
  what the active handlers hold if and only if the jump keeps no handler that holds anything. After every other jump
  a held signal can start its handler (`CarelessJumpLetsIn`); `JumpIntoHandlerReenters` is a run in which a handler
  without `SA_NODEFER` becomes active twice.
- `sigsuspend` and `ppoll` put the guest's old mask back after handlers that may have changed the mask, and leave
  their own mask in place when a handler jumps out of them, as Bash's handlers do. `SignalSystem.MasksAgreeIff` shows
  that over a run the guest's mask agrees with the native one, outside waits, if and only if handlers that return
  leave the native mask as the wait found it and handlers that jump out leave the masks in step. For a jump with no
  inner wait that means that a `sigprocmask` has completed since the wait began, or that the wait's own mask agrees
  with the native mask it found (`JumpOutAgreesIff`); `AgreeIffInStep` says it for every history of waits.
  `SignalScenarios.MasksPart` and `MasksPartByJump` are runs in which the masks part, by a return and by a jump.
  Afterwards a `ppoll` without a mask can be woken by a signal that the guest's mask holds back, so that nothing is
  dispatched (`WakeWithoutDispatch`), or can sleep on a pending signal that it lets through (`SleepsOnPending`).
  Neither happens to other waits, nor outside waits in runs that meet the condition (`WakesAreDispatched`,
  `SleepsOnlyOnMasked`).
- `mremap` ignores the result of its last `munmap`: the old range stays mapped when it had to be split and no record
  could be had (`GuestMemory.Mapper.Mremap`, predicate `Moved`).

## Model

| member | source | states |
|---|---|---|
| `Bytes.FromLeOfLe` | src/sandbox_protocol.h:51-56 | Reading a little-endian word gives back the number that was written, for every width and every number that fits. |
| `Bytes.LeOfFromLe` | src/sandbox_protocol.h:63-64 | Any bytes are the little-endian form of the number they are read as. |
| `ConsoleFrames.PeekFindsFirstFrame` | src/sandbox_protocol.h:60-73 | On the encoding of any frame list followed by a partial frame, peeking finds exactly the first frame, and never reports invalid framing. |
| `ConsoleFrames.EncodeAllInjective` | src/sandbox_protocol.h:50-58 | Two frame lists with the same encoding are the same list. |
| `ConsoleQueue.Queue.Append` | src/sandbox_protocol.h:35-49 | Appends exactly the data if it fits, compacting in place when the tail is short, and otherwise changes nothing. |
| `ConsoleQueue.Queue.Consume` | src/sandbox_protocol.h:30-34 | Drops exactly the first n bytes. |
| `ConsoleQueue.Queue.Packet` | src/sandbox_protocol.h:50-58 | Appends the encoded frame whole or not at all. |
| `ConsoleQueue.Queue.PeekFrame` | src/sandbox_protocol.h:60-73 | Answers 1, 0 or -1 exactly as the queue's contents start with a complete, incomplete or oversized frame. |
| `ConsoleModel.ExitCode` | src/sandbox_init.c:163-167 | The code sent for a wait status is at most 255. |
| `ConsoleModel.HostTaken` | src/sandbox_host.c:998-1019 | Acting on the head of the receive queue consumes bytes or ends in a protocol error. |
| `ConsoleModel.GuestTaken` | src/sandbox_init.c:135-158 | The same for init's frame loop. |
| `ConsoleHost.HostRelay.TakeFrames` | src/sandbox_host.c:995-1019 | The frame loop takes frames until none is complete or one must wait for room, and is a sequence of enabled take actions. |
| `ConsoleHost.HostRelay.TakeOutput` | src/sandbox_host.c:999-1003 | An output frame moves whole to its stream's queue, or stays in place if it does not fit. |
| `ConsoleHost.HostRelay.TakeExit` | src/sandbox_host.c:1006-1013 | The exit frame sets the result and drops unsent input; a code above 255 is a protocol error. |
| `ConsoleHost.HostRelay.Receive` | src/sandbox_host.c:1048-1054 | Appends at most one chunk and never more than fits; end of file and errors disconnect and drop unsent input. |
| `ConsoleHost.HostRelay.ReadInput` | src/sandbox_host.c:1057-1066 | Input is queued whole: the packet calls whose results are ignored always have room. |
| `ConsoleHost.HostRelay.FlushStream` | src/sandbox_host.c:882-898 | Writes a prefix of one output queue, or ends the loop with status 141. |
| `ConsoleHost.HostRelay.BeforePoll` | src/sandbox_host.c:973-1044 | The checks before poll, in the source's order, as enabled actions. |
| `ConsoleHost.HostRelay.Pass` | src/sandbox_host.c:972-1072 | One pass of console_relay on real queues computes the specified next state, which `HostPassLifts` places in a run, by enabled actions of the launcher's model. |
| `ConsoleGuest.GuestRelay.TakeFrames` | src/sandbox_init.c:132-158 | init's frame loop on real queues is a sequence of enabled take actions. |
| `ConsoleGuest.GuestRelay.TakeEof` | src/sandbox_init.c:141-147 | End of input becomes one ^D on a terminal, waits while that does not fit, and is recorded once. |
| `ConsoleGuest.GuestRelay.SendExit` | src/sandbox_init.c:163-167 | The exit frame is queued once, when the shell is gone, both streams are closed and it fits. |
| `ConsoleGuest.GuestRelay.ReadShell` | src/sandbox_init.c:196-212 | Shell output is read only when a whole frame fits, so its ignored packet result is always success. |
| `ConsoleGuest.GuestRelay.Pass` | src/sandbox_init.c:119-213 | One pass of relay on real queues computes the specified next state, which `GuestPassLifts` places in a run, by enabled actions of init's model. |
| `ConsoleInvariants.InvStep` | src/sandbox_host.c:972-1072 | Every step of either loop keeps the invariant that ties queues, bytes in flight and history together in both directions. |
| `ConsoleInvariants.InvAlways` | src/sandbox_init.c:119-213 | The invariant holds in every world of every run. |
| `ConsoleTheorems.OutputArrivesInOrder` | src/sandbox_host.c:995-1072 | In every run the launcher has at any moment written a prefix of what the shell wrote, per stream; when it leaves with the guest's status, all of it, and the status is the shell's. |
| `ConsoleTheorems.NoProtocolErrors` | src/sandbox_host.c:1074-1077 | In no run does either end take the other's bytes for a protocol error. |
| `ConsoleTheorems.StatusWithAllOutput` | src/sandbox_host.c:1020-1044 | In every run, a loop that ended with the guest's status in hand, neither interrupted nor with a broken stream, has written all output if and only if it ended drained; otherwise poll failed and bytes are missing. |
| `ConsoleTheorems.PollFailureLosesOutput` | src/sandbox_host.c:1040-1044 | A run that returns status 0 with a byte of output unwritten. |
| `ConsoleTheorems.InputArrivesInOrder` | src/sandbox_init.c:136-162 | On pipes the shell reads a prefix of the launcher's input, and its input is closed for end of file only after every byte was delivered. |
| `ConsoleTheorems.DrainStepShrinks` | src/sandbox_host.c:1048-1071 | After init has sent everything, each delivering step strictly shrinks the backlog. |
| `ConsoleTheorems.NoStepGrowsBacklog` | src/sandbox_init.c:180-213 | No other step of either side adds to it. |
| `ConsoleTheorems.SomeDrainStepEnabled` | src/sandbox_host.c:995-1072 | In the action model, until the launcher can return, a delivering step is enabled. |
| `ConsoleTheorems.DrainIsBounded` | src/sandbox_host.c:995-1072 | The number of delivering steps in a run is bounded by the backlog. |
| `ConsoleTheorems.DrainCompletes` | src/sandbox_host.c:1020-1021 | In the action model, every draining world has steps to a normal return with all output; `AlternatingPassesReturn` is the statement about the loops. |
| `ConsolePasses.HostPassLifts` | src/sandbox_host.c:972-1072 | Whatever its system calls return, a pass of console_relay is a stretch of a run of both loops that leaves init alone and takes from the channel exactly what it read. |
| `ConsolePasses.GuestPassLifts` | src/sandbox_init.c:119-213 | The same for a pass of relay. |
| `ConsolePasses.LeadsExtendsRun` | src/sandbox_host.c:972-1072 | Such a stretch extends any run that ends where it starts. |
| `ConsoleStalls.HostNeverStalls` | src/sandbox_host.c:998-1039 | In every run, when a pass reaches poll, a live launcher reads the channel with room for a whole read or its waiting frame's stream is polled; bytes held or still in flight for its streams always have a polled descriptor. |
| `ConsoleStalls.GuestNeverStalls` | src/sandbox_init.c:135-179 | In every run, when a pass reaches poll, init reads the channel with room for a whole read, or its waiting frame's stream is polled if and only if the shell's input is open; deliverable input, output and the exit status always have a polled descriptor. |
| `ConsoleStalls.HangUpHoldsInput` | src/sandbox_init.c:196-212 | A run to a pass in which a hung-up terminal leaves an input frame waiting with nothing polled for it. |
| `ConsoleDrain.GuestPassDrains` | src/sandbox_init.c:163-189 | After the shell's exit, a pass of init whose channel takes something shrinks the backlog unless init has sent everything. |
| `ConsoleDrain.HostPassDrains` | src/sandbox_host.c:995-1072 | A pass of the launcher that finds the work there is returns, or shrinks the backlog, or had nothing to work on. |
| `ConsoleDrain.RoundDrains` | src/sandbox_host.c:995-1072 | A pass of init and one of the launcher return the status with all output, or strictly shrink the backlog. |
| `ConsoleDrain.AlternatingPassesReturn` | src/sandbox_host.c:972-1072 | From every reachable draining world, whatever the environment answers short of failure, alternating passes return the shell's status with all of its output, within as many rounds as the backlog counts. |
| `ConsoleDrain.ReadyAnswersExist` | src/sandbox_host.c:1030-1039 | Such answers exist in every draining world: while there is work, a descriptor that finds it is polled. |
| `SignalIo.InvStep` | src/signal_io.h:21-113 | Every instruction, kernel action, signal arrival and recorder statement keeps the window invariant. |
| `SignalIo.KernelEnteredOnlyUninterrupted` | src/signal_io.h:31-35 | In every run the system call instruction executes only with the flag clear and no signal recorded since the queue check. |
| `SignalIo.ResultIsExact` | src/signal_host.h:94-107 | A finished transfer returns exactly the bytes moved, or an error with nothing moved; EINTR implies zero bytes. |
| `SignalIo.LandingEndsTransfer` | src/signal_io.h:90-113 | A signal landing at any point before the call returns, also at a restart rewound to the instruction, ends the transfer without another kernel entry: with the count if one was returned, with EINTR otherwise. |
| `SignalBridge.NoSignalIsLost` | src/signal_host.h:33-52 | A recorded signal stays in the array or the mailbox until guest dispatch takes its bit, through every step of every run. |
| `SignalBridge.GuestSeesAll` | src/host.c:987-988 | When the guest resumes, every signal recorded by the end of publishing is in its mailbox. |
| `SignalBridge.NoWakeUpIsLost` | src/signal_host.h:54-75 | sigsuspend never sleeps on a recorded signal outside its mask, one generated during the sleep ends it, and the queue check returns at once exactly when one is due. |
| `SignalDispatch.GuardedStep` | src/signal_guest.h:11-39 | Every step keeps the held set equal to what the active handlers hold, if and only if it is not a longjmp that keeps a handler holding something. |
| `SignalDispatch.GuardedAlways` | src/signal_guest.h:15-39 | So it holds throughout every run without such jumps. |
| `SignalDispatch.HeldSignalsWait` | src/signal_guest.h:20-30 | In such runs no handler starts above one whose sa_mask has its signal, and none is active twice unless SA_NODEFER. |
| `SignalDispatch.NestingIsBounded` | src/signal_guest.h:29-36 | In such runs handlers that hold their own signal nest at most 64 deep. |
| `SignalDispatch.BlockedIsRestored` | src/bridge_guest.c:81-96 | In such runs a bridge call returns with the held set it started with, whatever was dispatched inside it. |
| `SignalDispatch.ScanIsProductive` | src/signal_guest.h:15-39 | A scan with an eligible signal ahead of it takes a pending bit before it ends, in every run. |
| `SignalDispatch.JumpIntoHandlerReenters` | src/signal_guest.h:11-13 | A run in which a jump into an active handler lets that handler start again. |
| `SignalDispatch.CarelessJumpLetsIn` | src/signal_guest.h:11-39 | From every state, every jump that keeps a handler holding something has a continuation in which a signal so held starts its handler on top. |
| `SignalPoll.Dispatcher.Poll` | src/signal_guest.h:15-39 | The loop, against guest code that jumps only to the top, is a sequence of machine steps and restores the held set and the stack, or leaves both empty after a jump to the top. |
| `SignalPoll.Dispatcher.LookAt` | src/signal_guest.h:17-30 | One turn up to the handler call equals the machine's step. |
| `SignalPoll.Dispatcher.Run` | src/bridge_guest.c:81-96 | Guest code that calls the bridge re-enters the loop and comes back with the held set unchanged. |
| `SignalPoll.Dispatcher.Program` | src/bridge_guest.c:81-96 | Every guest program whose jumps go to the top, from an empty stack, is a clean run of the machine and ends with nothing held. |
| `SignalPoll.Dispatcher.JumpOut` | src/signal_guest.h:11-13 | A jump that discards every handler leaves nothing held. |
| `SignalPoll.LeadsExtendsRun` | src/signal_guest.h:15-39 | What the loop does extends any run of the machine, so the machine's theorems cover it. |
| `SignalSystem.InvStep` | src/signal_guest.h:83-113 | Every step of host and guest keeps one mailbox on both sides, saved masks only under the scans of waits, and each wait's mask above the held set and equal to the guest's or, for a ppoll without one, to the native mask. |
| `SignalSystem.StepProjects` | src/bridge_guest.c:81-96 | Every step of the system is a step of the host's machine or none, and at most two of the dispatch machine. |
| `SignalSystem.AgreeIffInStep` | src/signal_guest.h:83-113 | In every run, whenever the guest has control, its mask agrees with the native one if and only if the last write of it left them in step: a sigprocmask, a wait whose own mask is the native one, or a wait that returned with the native mask as it found it and the masks in step before, or that puts back what its handlers made the native mask. |
| `SignalSystem.LastWriteHappened` | src/signal_guest.h:90-111 | The write that the record names was made in the run, and the guest's mask has not changed since. |
| `SignalSystem.MasksAgreeIff` | src/signal_guest.h:105-113 | Over every run, guest and native mask agree outside waits if and only if each wait that returns finds the native mask as it was when called, and each that is jumped out of is left with the masks in step. |
| `SignalSystem.JumpOutAgreesIff` | src/signal_guest.h:9-13 | A handler that jumps out of a wait, having called no other wait, leaves masks that agree if and only if a sigprocmask has completed since the wait began or the wait's own mask agrees with the native mask it found. |
| `SignalSystem.ScanTakesIff` | src/signal_guest.h:15-39 | The scan with which a wait resumes takes a bit if and only if one is pending outside the guest's mask and the held set. |
| `SignalSystem.WakeReachesGuest` | src/signal_host.h:54-75 | A signal that ends a wait by the queue check is in the mailbox when the guest next runs. |
| `SignalSystem.WakesAreProductive` | src/poll_host.h:28-49 | If a signal is due outside the wait's mask, and the guest's own mask is within it, a pending bit is taken before the wait returns or is jumped out of. |
| `SignalSystem.WakesAreDispatched` | src/poll_guest.h:8-19 | So it is for every sigsuspend, every ppoll that sends a mask, and, outside other waits, every ppoll in a run whose waits leave the masks as they found them. |
| `SignalSystem.SleepsOnlyOnMasked` | src/poll_host.h:34-45 | In every run, the same waits never sleep on a due signal that the guest's own mask lets through. |
| `SignalScenarios.MasksPart` | src/signal_guest.h:105-113 | A run in which a handler inside sigsuspend unblocks a signal and the restored mask disagrees with the native one. |
| `SignalScenarios.WakeWithoutDispatch` | src/poll_guest.h:8-19 | It continues to a ppoll that is woken by a due signal and returns with that signal pending throughout. |
| `SignalScenarios.MasksPartByJump` | src/signal_guest.h:9-13 | A run in which a handler jumps out of sigsuspend without any sigprocmask and the wait's mask stays in place of the native one. |
| `SignalScenarios.SleepsOnPending` | src/poll_host.h:34-45 | After such a jump a ppoll without a mask sleeps although a signal is pending that the guest's mask lets through and no handler holds. |
| `PageRanges.PageRoundExact` | src/memory_guest.c:9-10 | Below the guard that callers check, the wrapping macro rounds up exactly. |
| `PageRanges.CutAllMapsTo` | src/memory_guest.c:82-115 | Cutting a range out removes exactly its addresses and leaves every other address in its allocation. |
| `PageRanges.CutAllIsOk` | src/memory_guest.c:82-115 | The pieces stay aligned, non-empty, inside their allocation and pairwise disjoint. |
| `PageRanges.SplitTouchesOnlyOne` | src/memory_guest.c:96-101 | A range strictly inside one piece touches no other. |
| `PageRanges.CountReplaced` | src/memory_guest.c:12-15 | Replacing a piece by parts changes the number of sharers by exactly the parts less one. |
| `GuestMemory.EachOnce` | src/memory_guest.c:16-22 | A null-terminated list holds no record twice. |
| `GuestMemory.LiveIffMapped` | src/memory_guest.c:23-28 | With exact counts an allocation is live if and only if some address is mapped into it. |
| `GuestMemory.Mapper.Release` | src/memory_guest.c:23-28 | Drops one reference and frees the block with the last one. |
| `GuestMemory.Mapper.Unlink` | src/memory_guest.c:90-94 | Removing a record through its predecessor's link leaves the list of the others. |
| `GuestMemory.Mapper.CutMiddle` | src/memory_guest.c:96-108 | A split keeps both remaining parts, linked in place, and counts the second one. |
| `GuestMemory.Mapper.Turn` | src/memory_guest.c:84-114 | One turn replaces the record's piece by what the cut leaves of it, or changes nothing when the split record cannot be had. |
| `GuestMemory.Mapper.UnmapLoop` | src/memory_guest.c:83-116 | The loop over the list computes the cut of every piece, and fails only for want of a split record, with the list untouched. |
| `GuestMemory.Mapper.Munmap` | src/memory_guest.c:75-117 | Exact errors; on success exactly the rounded range is gone and all else stays in its allocation; on failure nothing changed; an allocation is freed exactly when its last address goes. |
| `GuestMemory.Mapper.Containing` | src/memory_guest.c:118-125 | Finds the first record whose piece holds the whole range, or none exactly when there is none. |
| `GuestMemory.Mapper.Fill` | src/memory_guest.c:53-69 | However reads are cut short or interrupted, the destination holds the file's bytes; an error is reported exactly when one is met first; nothing else is written. |
| `GuestMemory.Mapper.Mmap` | src/memory_guest.c:29-73 | Exact errors in order; on success a fresh aligned piece that was not mapped before and shows the file and zeros; no mapped byte changes, and a failed read frees the block again. |
| `GuestMemory.Mapper.Mremap` | src/memory_guest.c:126-157 | Exact errors in order; shrinking cuts the tail; growing moves the old pages, zero-fills and leaves all else alone; the old range goes unless its split record could not be had. |
| `GuestMemory.Mapper.Mincore` | src/memory_guest.c:158-172 | Succeeds exactly when every address of the range is mapped, also for ranges that pass the top of the address space, and then fills exactly one byte per page. |
| `GuestMemory.Mapper.Session` | src/memory_guest.c:12-172 | Any sequence of the four calls, with any outcome of their allocations, keeps pieces aligned, inside their block and apart, counts exact, a block live if and only if an address is mapped into it, and each block handed back exactly once. |
| `Descriptors.Lowest` | src/fds_host.h:72-83 | The kernel's new number is the lowest free one from the minimum on. |
| `Descriptors.Bridge.Inherit` | src/fds_host.h:7-23 | inherit_descriptors lists exactly the open descriptors of the guest's range, each under its own number, or reports the query that failed. |
| `Descriptors.Bridge.SaveFd` | src/fds_host.h:91-101 | A new descriptor below the bound is entered under its own number; any other is closed. |
| `Descriptors.Bridge.Release` | src/fds_host.h:33-47 | Closes exactly the placeholders and restores the soft limit if that succeeds. |
| `Descriptors.Bridge.Reserve` | src/fds_host.h:48-90 | Succeeds exactly when every vacant number can be filled, and then all are; otherwise every number and the soft limit are as before. |
| `Descriptors.Bridge.Load` | src/host.c:901-972 | Reserve, any number of loader descriptors, release: whatever fails on the way, the guest's range is as before and loader descriptors are at 256 or above; it succeeds exactly when raising, filling and restoring do, and then the limit is as before. |
| `Descriptors.Bridge.Pair` | src/host.c:339-360 | A pipe installs both ends or neither, and then leaves no descriptor behind. |
| `Descriptors.Bridge.Open` | src/host.c:378-382 | A new descriptor gets its native number or, at 256 and above, is closed again. |
| `Descriptors.Bridge.Close` | src/host.c:383-389 | Table and kernel lose exactly that number. |
| `Descriptors.Bridge.Dup` | src/host.c:432-439 | Duplicates to the lowest free number from the minimum on, if it is below 256. |
| `Descriptors.Bridge.Dup2` | src/host.c:444-458 | Afterwards the number is open and entered, or nothing changed. |
| `Descriptors.Bridge.Opendir` | src/host.c:605-626 | Succeeds exactly when a stream and a number below 256 are free, and enters that number. |
| `Descriptors.Bridge.Fdopendir` | src/misc_host.h:87-102 | Takes over an open descriptor and opens exactly one stream. |
| `Descriptors.Bridge.Closedir` | src/host.c:673-682 | Closes the stream's number and its entry, whatever the number has become. |
| `Descriptors.Bridge.ExecGuard` | src/exec_host.h:46-51 | The table check before exec never finds a mismatch. |
| `Descriptors.Bridge.ReceiveRights` | src/network_host.h:143-172 | All received descriptors are installed under their numbers, or all are closed and the table is as before; at most 256 are ever listed. |
| `Descriptors.Bridge.RollBack` | src/network_host.h:164-171 | Closing the installed ones gives back the state before the call. |
| `Descriptors.Bridge.Receive` | src/network_host.h:142-180 | The same from the kernel's delivery on, with the table exact before and after. |
| `Descriptors.Bridge.Session` | src/host.c:339-458 | Any sequence of descriptor steps keeps native descriptors below 256 equal to the table, each mapped to itself, leaves the loader's alone, and every exec check passes. |
| `CalendarFormat.ExpansionPreservesMeaning` | src/calendar_host.h:35-90 | With other conversions opaque, the expanded format means the original with each %Z replaced by the padded, case-mapped zone name. |
| `CalendarFormat.ScanOfWritten` | src/calendar_host.h:35-72 | Scanning undoes writing: token boundaries of the expansion are where the tokens were. |
| `Calendar.ScanWidth` | src/calendar_host.h:55-62 | The width is the minimum of the decimal value and the size. |
| `Calendar.ScanFlags` | src/calendar_host.h:43-54 | The flags are folded left to right. |
| `Calendar.PutZone` | src/calendar_host.h:73-88 | Writes the quoted zone text inside the buffer, or fails only if it does not fit the result or twice it does not fit the buffer. |
| `Calendar.ExpandFormat` | src/calendar_host.h:31-88 | Writes the expansion without passing the capacity, and fails only if the zone text alone is at least the size. |
| `Calendar.FormatCalendar` | src/calendar_host.h:8-96 | The result is exactly that of a strftime that knows the zone's name, or nothing where that does not fit; only a failed or overflowing allocation gives less. |
| `Reachability.Original` | tests/reachability-equivalence.py:5-15 | The early-returning search per root decides whether some root has a path to the target that avoids the node; it terminates. |
| `Reachability.UnionSearch` | tests/reachability-equivalence.py:17-24 | The single search returns exactly the nodes that some root reaches while avoiding the node; it terminates. |
| `Reachability.Agree` | tests/reachability-equivalence.py:26-36 | The two agree on every finite graph, root list, target and avoided node. |
| `MountPaths.UnderIsPrefix` | src/sandbox_host.c:298-304 | The textual test decides the prefix relation on components, "/" included. |
| `MountPaths.SlashedPrefixHolds` | src/sandbox_host.c:298-304 | A prefix that ends in a slash holds exactly the paths with an empty component there. |
| `MountPaths.JoinMoves` | src/sandbox_host.c:326-331 | Cutting a prefix off and joining the rest to another base moves the remaining components below that base. |
| `MountPaths.EveryPathHasComponents` | src/sandbox_host.c:297-304 | Every absolute path that does not end in a slash is the text of a component list. |
| `MountTable.UnescapeOfEscape` | src/sandbox_host.c:304-325 | Decoding undoes the kernel's escaping, whichever bytes it escapes. |
| `MountTable.UnescapeInPlace` | src/sandbox_host.c:305-325 | In-place decoding computes it, never reads past the terminator, and fails exactly on malformed escapes. |
| `MountTable.MountReachable` | src/sandbox_host.c:342-406 | 0 means that no mount of the target's device exposes its location at or below the share, 1 that one does; unknown only for an unlisted target or a path over the buffers. |
| `Bundle.SafeName` | src/sandbox_host.c:141-153 | Accepts exactly the names whose components are all non-empty and none "." or "..". |
| `Bundle.WriteArchive` | scripts/build-sandbox.py:370-381 | The writer's loop over the sorted listing produces the archive of its regular files, in order, executables by their base names. |
| `Bundle.UnpackedIsBuilt` | scripts/build-sandbox.py:370-381 | The launcher unpacks exactly those files, names and modes included, from what the writer produced. |
| `Bundle.ParseOfArchive` | scripts/build-sandbox.py:370-381 | Parsing undoes writing, for every valid entry list within the limits. |
| `Bundle.ParseIsExact` | src/sandbox_host.c:208-238 | Whatever is accepted is the archive of valid entries and the final sixteen zero bytes. |
| `Bundle.Extract` | src/sandbox_host.c:208-238 | The loop reads only inside the buffer and computes the parse, unless a file cannot be created. |
| `LaunchConfig.SizeOf` | src/sandbox_host.c:505-509 | The precomputed size is exactly what will be written. |
| `LaunchConfig.Configure` | src/sandbox_host.c:490-533 | The argument count it computes is the number of strings it writes; the buffer is filled exactly with the encoding, which decodes to the guest's arguments; it is refused only over a limit or without memory. |
| `LaunchConfig.DecodeOfEncoded` | src/sandbox_init.c:266-282 | init recovers every valid configuration and argument vector. |
| `LaunchConfig.DecodeIsExact` | src/sandbox_init.c:266-282 | init accepts nothing that is not such an encoding. |
| `LaunchConfig.ReadConfig` | src/sandbox_init.c:249-282 | init's checks and loop compute the decoding, inside the buffer. |
| `SourceTree.SyncTree` | scripts/source_tree.py:14-63 | Included entries end equal to the source's in name, kind, link, content and mode; excluded trees stay exactly where their directory exists on both sides; nothing is done if nothing differs. |
| `SourceTree.SyncTwice` | scripts/source_tree.py:30-63 | A second run makes no change. |
| `SourceTree.SyncedIsInSync` | scripts/source_tree.py:36-63 | A synchronised tree has nothing left to do. |
| `SourceTree.Place` | scripts/source_tree.py:46-63 | One wanted entry replaces whatever was there, kind changes included, or leaves an equal entry alone. |
| `SourceTree.Prune` | scripts/source_tree.py:40-44 | Exactly the obsolete entries and what is below them go. |
| `LogRing.Log.Keep` | src/sandbox_host.c:791-806 | Wrapping and oversized chunks included, the ring holds the tail of everything given. |
| `LogRing.Log.Print` | src/sandbox_host.c:824-831 | Prints exactly the last 4096 bytes of everything given, or all of it. |

## Left out

- Signals held by a running handler can still interrupt a read or write: the source compares only with the native mask there, so no such promise is stated.
- `sigprocmask` failing inside a transfer, and the packing of signal sets into 64-bit masks: sets of signals 1 to 64 are used on both sides.
- The restart of a system call on the three architectures differs only in register names; one instruction list stands for all.
- A transfer of zero bytes, which goes to the kernel without the window.
- `SA_SIGINFO` arguments, alarms, `kill`, and the translation of signal flags.
- Console raw mode, stop and continue, the 120-second limit as a clock, and the log descriptors polled beside the console: a timeout is a choice of the environment.
- `waitpid` collecting other children and killing them: only the shell's status matters to the protocol.
- The descriptor limit of `dup2`, record locks and descriptor flags; `fork` and the reload after it reuse the reservation modelled here.
- Sending descriptors: the walk over outgoing control messages only looks numbers up in the table.
- `GuestMemory.Mapper.Mmap`: allocation failure of any of the three requests is one choice, and malloc's promise that blocks are apart is a precondition.
- `GuestMemory`: allocations are values in a map of live reference counts, so a freed count record itself is not a heap object; mapping records are.
- File names in `mountinfo` are taken after splitting its lines into fields; lines that do not split make the answer unknown.
- `MountTable.MountReachable`: a share or table path that ends in a slash is outside its precondition. The share and the target are links read from the kernel, which end in none; the textual test would miss everything below one that did (`MountPaths.SlashedPrefixHolds`).
- `SignalPoll.Dispatcher.Program`: programs with a `longjmp` to a handler that stays active are left to the machine, whose runs include them.
- SIGKILL and SIGSTOP, which end or stop the process without being recorded; the masks are taken to agree at the start, before which the guest has made no call.
- Compression, the executable's footer, and the creation of extracted files beyond success or failure.
- The window size is any two 16-bit numbers.
- File times in the tree synchroniser, directory modes, and the ordering of paths of equal depth, which is arbitrary here.
- `Calendar.FormatCalendar`: assumes of the library only that `%%` becomes a percent sign and that a text that does not fit gives nothing.
- Other conversions of `strftime`, including modifiers between the width and the conversion character: a directive is flags, digits and one character, as the source scans it.
- Reads and writes that are interrupted for ever: a mapped file's interruptions are a finite list.
- Everything else in the repository: the POSIX adapters, BPF loading, namespaces, build and release scripts.
