# A verified model of the io_driver event loop

The repository is a single-threaded event loop for embedded systems: intrusive circular
lists, a hashed timer wheel, a `select`-based watcher scheduler, DNS lookups that compose
the last two, and the codecs and buffers around them. User callbacks run in the middle of
list walks and may add, delete and restart anything. This project models that code in
Dafny and proves what its users rely on.

`dafny verify dfyconfig.toml` checks everything.

## How it is organised

| file | content |
|---|---|
| `Common.dfy`, `Sequences.dfy`, `Arithmetic.dfy` | bytes, options, callback scripts; order-preserving selection from sequences; products and quotients |
| `Rings.dfy`, `ListArena.dfy` | the list library: pointer surgery on `next`/`prev`, and the sequences it stands for |
| `TimerModel.dfy`, `TimerRefinement.dfy`, `TimerTheorems.dfy`, `SoftTimer.dfy` | the timer wheel as a value, the agenda it refines, what its users are promised, and the code over the list library |
| `DriverModel.dfy`, `DriverTheorems.dfy`, `IoDriver.dfy` | the watcher scheduler, in the same three layers |
| `EventLoopModel.dfy`, `EventLoopTheorems.dfy`, `EventLoopProjection.dfy`, `EventLoopLiveness.dfy`, `EventLoopCallbacks.dfy`, `EventLoop.dfy` | DNS lookups on top of both, and the loop as a whole |
| `DnsMessage.dfy`, `DnsTheorems.dfy`, `DnsUtil.dfy` | DNS queries and responses |
| `TelnetModel.dfy`, `TelnetTheorems.dfy`, `TelnetReader.dfy` | the telnet stream decoder |
| `QueueModel.dfy`, `CircBuffer.dfy` | the byte ring buffer and the loop that drains it |

Each component has a class whose methods do what the C functions do, in place: the arena's
`next` and `prev` arrays, the tick of every timer element, masks and descriptors, buffers
and indices. Each method is proved equal to a function on the value the state stands for,
and the theorems are about those functions.

* **Lists.** A node is an index into an arena; an element is identified with its embedded
  list node, which is what `container_of` amounts to. A ghost map from ring heads to
  sequences says what the links mean. `list_del_init` is specified without naming the ring
  it removes from. The stack-allocated list heads `timeout_list` and `run_list` are
  reserved nodes.
* **Callbacks** are scripts: the i-th callback made performs the calls of the i-th script.
  Theorems quantify over all scripts, so over every callback that makes finitely many
  calls, however it chooses them. A callback does not re-enter `soft_timer_drive` or
  `io_driver_run`, and initialises watchers and lookups only while they are idle; script
  entries that break this are ignored.
* **The outside world** is nondeterministic: `select` returns an error, a timeout or any
  subsets of the sets it is given; a send returns -1, 0 or up to the length asked for; a
  datagram is any byte sequence or none; `socket` succeeds or fails.
* **Integers.** Ticks wrap at 2^32, division truncates as in C, label lengths wrap at 256,
  and the unsigned comparison in `dns_util_read` makes a negative length fail.

## Main results

* The wheel refines a plain agenda over every history of adds, deletes and drives with any
  scripts, from any valid wheel and across the wrap of the clock
  (`TimerRefinement.WheelRefinesAgenda`). A drive fires exactly the timers due at the new
  tick less those deleted before their turn. A timer added from outside or by a callback
  in the middle of a drive, and not cancelled, fires once, on the n-th drive from then on
  with n the delay rounded up; one that restarts itself fires in every n-th drive and in no
  other (`TimerTheorems.PeriodicTimer`). Equal deadlines fire in the order of addition.
* In a dispatch pass a watcher receives exactly the calls it deserves
  (`DriverTheorems.CalledExactlyAsDeserved`): none once its mask has dropped to zero before
  its turn, else one with the events it listens to at its turn that are ready.
* Every DNS lookup that starts is reported exactly once: as a timeout on precisely the
  drive that completes the timeout rounded up to ticks, or as a reply before that drive
  (`EventLoopTheorems.ExactlyOnce`); and no callback is ever made for anything but a
  lookup that started. This holds for the whole loop, where the timers are driven from
  inside a dispatch pass and a callback may restart a lookup on the same object with the
  same descriptor. Nothing the application does stops the ticks, so that a lookup in a loop
  as initialised is answered once the timer descriptor has been ready in as many rounds as
  its timeout has ticks (`EventLoopLiveness.EveryLookupIsAnswered`).
* What is reported is what came in: a well-formed response to the query sent is reported
  as its first four A/IN addresses, a response without answers, with a malformed one or cut
  short as a failure (`EventLoopCallbacks.ReplyReachesTheCallback`).
* What is proved of the timer manager and of the driver for all callback scripts holds in
  that loop: its runs are, callback for callback, runs of the timer manager, and its passes
  are passes of the driver (`EventLoopProjection.RunIsTimerRun` and `PassIsDriverPass`).
* Round trips: DNS host names, well-formed DNS responses, and telnet token streams cut into
  any chunks.

## Where the code and its comments differ

The model follows the code.

* `src/soft_timer.h:64-70` promises the closest tick count; the code rounds up. With ticks
  of 10 ms, 11 ms become 2 ticks (`TimerTheorems.NotAlwaysNearest`); for a positive delay
  the promise is kept exactly when the delay is a whole number of ticks or its remainder is
  at least half a tick (`TimerTheorems.NearestIff`).

## Notes on behaviour

* A delay that comes to zero ticks lands on the tick already processed, so such a timer
  waits for the clock to come round: `TimerTheorems.Delay` is then 2^32 drives.
* `io_driver_no_watch` deletes a watcher from whichever of `driver->watchers` and `run_list`
  holds it, also when a callback removes a watcher that has already had its turn.
* Watchers are called in list order, which need not be the order in which they began to
  listen: one added in the middle of a pass is put ahead of those that are still waiting in
  it (`DriverTheorems.NewcomersPlace`, and `NewcomerOvertakes` for an input).
* A negative delay that is not a whole number of ticks gets one tick more than the delay
  rounded up (`TimerTheorems.TicksOfNonPositive`).
* A telnet subnegotiation body longer than 32 bytes is not truncated but abandoned: its 33rd
  byte is lost and the rest is delivered as data. `TelnetModel.Told` says so, and the round
  trip includes it.

## Model

| member | source | states |
|---|---|---|
| Rings.InsertRealises | src/generic_list.h:55-63 | linking a node between two neighbours inserts it there in the sequence, keeps all links mutually inverse and all other rings as they were |
| Rings.DetachRealises | src/generic_list.h:104-127 | joining a node's neighbours removes it from the one ring that holds it and from no other |
| Rings.UnlinkRealises | src/generic_list.h:160-164 | the same followed by self-linking, for a node on any ring or on none |
| Rings.LeaveRealises | src/generic_list.h:117-120 | removal alone, for a node on any ring or on none, whose own links stay |
| Rings.SpliceRealises | src/generic_list.h:291-303 | splicing puts one ring's sequence inside another's, order kept |
| Rings.CutRealises | src/generic_list.h:251-261 | cutting moves the front of a ring, up to the entry, to another ring |
| ListArenas.ListArena.MutuallyInverse | src/generic_list.h:36-46 | in every valid arena next and prev undo each other along every ring |
| ListArenas.ListArena.ListAdd | src/generic_list.h:78-81 | prepends to the head's sequence; nothing else changes |
| ListArenas.ListArena.ListAddTail | src/generic_list.h:92-95 | appends to the head's sequence; nothing else changes |
| ListArenas.ListArena.ListDel | src/generic_list.h:122-127 | the entry leaves its ring, its links become null |
| ListArenas.ListArena.ListDelInit | src/generic_list.h:160-164 | the entry leaves whichever ring holds it, without being told which, and is initialised again |
| ListArenas.ListArena.ListMoveTail | src/generic_list.h:182-187 | off its ring, if it is on one, and to the end of the given one |
| ListArenas.ListArena.ListRotateLeft | src/generic_list.h:232-240 | the first member becomes the last |
| ListArenas.ListArena.ListSpliceInit | src/generic_list.h:336-343 | prepends the source's members and empties the source |
| ListArenas.ListArena.ListSpliceTailInit | src/generic_list.h:353-360 | appends the source's members and empties the source |
| ListArenas.ListArena.ListCutPosition | src/generic_list.h:277-289 | all branches: empty ring, entry equal to the head, and a proper cut; what the target held before is on no list afterwards |
| ListArenas.ListArena.LinkTests | src/generic_list.h:194-249 | what comparing links reveals: emptiness, at most one member, being last |
| ListArenas.ListArena.ListIsLast | src/generic_list.h:194-198 | the entry is the last of the head's sequence |
| ListArenas.ListArena.SelfLinkTest | src/soft_timer.h:54-62 | an initialised node is self-linked exactly when it is on no list |
| ListArenas.AddMeaning | src/generic_list.h:78-95 | where the new node and every old member stand after an addition at either end |
| ListArenas.SpliceMeaning | src/generic_list.h:336-360 | where every member of both lists stands after a splice at either end |
| ListArenas.CutMeaning | src/generic_list.h:251-289 | the cut part ends in the entry, and the rest follows it in the old order |
| ListArenas.CutThenSplice | src/generic_list.h:251-343 | cutting and then splicing back restores every ring |
| ListArenas.RotateAllTheWay | src/generic_list.h:232-240 | as many rotations as members change nothing |
| TimerModel.TicksRoundUp | src/soft_timer.h:71-85 | for a positive delay the tick count is the least that covers it |
| TimerRefinement.AddSim | src/soft_timer.c:61-78 | adding to the selected bucket is adding to the agenda |
| TimerRefinement.DelSim | src/soft_timer.c:86-94 | deleting from whichever list is deleting from the agenda |
| TimerRefinement.ScanSim | src/soft_timer.c:103-121 | looking into the one bucket the new tick selects finds exactly the timers due, in order, also after wrap-around, and leaves the others in order |
| TimerRefinement.DrainSim | src/soft_timer.c:123-128 | draining with reentrant callbacks fires the same timers in the same order on both |
| TimerRefinement.WheelRefinesAgenda | src/soft_timer.c:61-142 | over every run the wheel fires what the agenda fires, and the wheel invariant holds throughout |
| TimerTheorems.ApplyAllDue | src/soft_timer.c:107-128 | callbacks can only shrink the timeout list, and only by deleting from it |
| TimerTheorems.FireExactly | src/soft_timer.c:123-128 | within a drive each expired timer fires at most once, and fires iff no callback made before its turn deletes it |
| TimerTheorems.DriveFiresExactlyTheDue | src/soft_timer.c:96-142 | a drive fires exactly the running timers whose deadline is the new tick, less those deleted before their turn; none added or restarted meanwhile |
| TimerTheorems.FiresOnceOnTheNthDrive | src/soft_timer.c:61-129 | a timer added from outside and not cancelled is silent before its last drive and fires in that one, once, unless deleted before its turn in it |
| TimerTheorems.RestartedFiresOnTheNthDrive | src/soft_timer.c:107-128 | the same for a timer that a callback adds or restarts in the middle of a drive: it does not fire again in that drive, and its delay is counted from the next one |
| TimerTheorems.RestartsItself | src/soft_timer.c:107-128 | a timer is not running in its own callback, which can therefore add it again |
| TimerTheorems.PeriodicTimer | src/soft_timer.c:107-128 | a timer that restarts itself whenever it fires does so in every n-th drive and in no other, over any run |
| TimerTheorems.TicksOfNonPositive | src/soft_timer.h:71-85 | the tick count of a zero or negative delay, modulo 2^32 |
| TimerTheorems.NearestIff | src/soft_timer.h:64-85 | the tick count is a closest one exactly when the delay is a whole number of ticks or not below the middle between two |
| TimerTheorems.NotAlwaysNearest | src/soft_timer.h:64-85 | an input for which it is not |
| TimerTheorems.NthDriveIsTheRoundedDelay | src/soft_timer.h:71-85 | that drive is the n-th iff (n-1)*tick_rate < expires <= n*tick_rate |
| TimerTheorems.EqualDeadlinesFireInOrder | src/soft_timer.c:77-128 | after any history, timers with the same deadline fire in the order in which they were added |
| SoftTimers.SoftTimer.constructor | src/soft_timer.c:18-31 | initialisation gives the empty wheel with clock zero |
| SoftTimers.SoftTimer.IsRunning | src/soft_timer.h:54-62 | the linked test says whether the timer is on a bucket or on the timeout list |
| SoftTimers.SoftTimer.Add | src/soft_timer.c:61-78 | in place, what adding does to the wheel, and nothing outside the timer's nodes |
| SoftTimers.SoftTimer.Del | src/soft_timer.c:86-94 | in place, what deleting does to the wheel |
| SoftTimers.SoftTimer.ScanBucket | src/soft_timer.c:114-121 | the safe walk over a bucket is a stable partition into due and not due |
| SoftTimers.SoftTimer.Drive | src/soft_timer.c:138-142 | the two phases, callbacks included, do to the wheel what the specification says and make the same callbacks |
| DriverTheorems.ApplyValid | src/io_driver.c:192-216 | at every point a watcher is on exactly one of the two lists iff its mask is not zero |
| DriverTheorems.PassValid | src/io_driver.c:103-136 | after a pass the driver's list holds exactly the listening watchers |
| DriverTheorems.BeforeItsTurn | src/io_driver.c:107-130 | up to its turn a watcher is not called, and is still waiting iff no callback made its mask zero |
| DriverTheorems.OutsidersAreNotCalled | src/io_driver.c:79-98 | a watcher removed, removed and added again, or first added during the pass is never called in it |
| DriverTheorems.CalledExactlyAsDeserved | src/io_driver.c:103-135 | each watcher is called at most once, and exactly with the events it then listens to that are ready |
| DriverTheorems.CallsInListOrder | src/io_driver.c:105-112 | callbacks are made in the order of the watchers on the list |
| DriverTheorems.EventsExactly | src/io_driver.c:114-128 | an event is delivered iff the watcher listens to it and it is ready for its descriptor, for each of the three bits, and no other bit is |
| DriverTheorems.NewcomerComesLast | src/io_driver.c:192-203 | a watcher that begins to listen comes behind all others on the driver's list, and nobody else moves |
| DriverTheorems.NewcomersPlace | src/io_driver.c:79-135 | one that begins to listen during a pass is afterwards behind those that have had their turn and ahead of those still waiting |
| DriverTheorems.NewcomerOvertakes | src/io_driver.c:79-135 | an input for which the list is not in the order of beginning to listen |
| DriverTheorems.EventsWereRequested | src/io_driver.c:36-134 | every event mask is non-zero, within the listening mask, and each bit was asked for, for that descriptor, when the sets were built |
| DriverTheorems.PassKeepsOrder | src/io_driver.c:105-112 | watchers never removed during a pass keep their relative order |
| DriverTheorems.PassFromTheTop | src/io_driver.c:75-136 | a whole pass from the driver's list and back: membership and order |
| IoDrivers.IoDriver.Watch | src/io_driver.c:192-203 | in place: the mask gains exactly the given events, and a watcher that starts to listen is appended |
| IoDrivers.IoDriver.NoWatch | src/io_driver.c:205-216 | in place: the mask loses exactly the given events, and a watcher that stops leaves whichever list holds it |
| IoDrivers.IoDriver.Preselect | src/io_driver.c:35-73 | a descriptor is in a set iff some watcher on the list listens to that event on it; the empty flags are right, and maxfd is the least bound |
| IoDrivers.IoDriver.PostSelect | src/io_driver.c:75-136 | the dispatch loop over the run list does what the specification says and makes the same callbacks |
| IoDrivers.IoDriver.Run | src/io_driver.c:149-180 | nothing on error or timeout, else one pass over descriptors that were asked for |
| EventLoopTheorems.LookupInv | src/io_dns.c:58-100 | starting a lookup, or failing to for want of a socket or of space, keeps watcher and timer in step |
| EventLoopTheorems.OnReplyInv | src/io_dns.c:10-37 | a reply reports the lookup and cancels its timer |
| EventLoopTheorems.PopExpiredInv | src/io_dns.c:39-51 | an expired lookup timer reports the lookup at its deadline and cancels its watcher, also one waiting in the pass under way |
| EventLoopTheorems.RunQuiet | src/io_dns.c:10-100 | the invariant holds over every run of calls and rounds |
| EventLoopTheorems.LinkedWhilePending | src/io_dns.c:65-97 | at every point, also inside callbacks, watcher and timer of an object are both linked while a lookup is pending on it and both unlinked otherwise |
| EventLoopTheorems.ReportedOnceInTime | src/io_dns.c:10-51 | every lookup ever started is pending before its deadline or has been reported once, a timeout on the deadline and anything else before it; there are no other reports |
| EventLoopTheorems.ExactlyOnce | src/io_dns.c:58-100 | a lookup that returned 0 is called back exactly once, at latest in the drive that completes its timeout, for every interleaving and every restart, and no callback is made for anything else |
| EventLoopTheorems.InitialQuiet | src/io_timer.c:33-57 | the loop as initialised is in order and, if there is a timer descriptor, gets its ticks from it |
| EventLoopProjection.DriveIsTimerDrive | src/io_timer.c:16-26 | a tick of the loop is a drive of the timer manager with the scripts its callbacks amount to: same wheel, same timers fired in the same order |
| EventLoopProjection.TickFiresExactlyTheDue | src/io_timer.c:16-26 | so a tick of the loop fires exactly the timers due, less those deleted before their turn |
| EventLoopProjection.RunIsTimerRun | src/io_driver.c:149-180 | over every run of the loop the timer manager goes through a run of its own, with the same wheel and the same timers fired in the same order |
| EventLoopProjection.PassIsDriverPass | src/io_driver.c:75-136 | a pass of the loop is a pass of the driver with the scripts its callbacks amount to: same lists and masks, same calls with the same events, masks and descriptors |
| EventLoopProjection.EveryWatcherAsDeserved | src/io_driver.c:103-135 | so in a pass of the loop every watcher gets exactly the calls it deserves, at most one |
| EventLoopProjection.NoStaleReadiness | src/io_driver.c:82-90 | a lookup started during a pass is not answered in it, even on a recycled descriptor that select reported |
| EventLoopCallbacks.LookupStartsIff | src/io_dns.c:65-97 | a lookup starts iff there is a socket and its query fits into 256 bytes; then its length is remembered and the watcher listens on the socket, else nothing is pending |
| EventLoopCallbacks.QueryLengthKnown | src/io_dns.c:74-90 | while a lookup is pending its object holds the length of the query sent |
| EventLoopCallbacks.ResponseIsReported | src/io_dns.c:10-37 | a well-formed response is reported once: with its first four A/IN addresses, or as a failure if it has no answers or a malformed one |
| EventLoopCallbacks.BadReplyFails | src/io_dns.c:20-28 | a reply without room for header and question, or with an answer count of zero, is reported as a failure |
| EventLoopCallbacks.CutReplyFails | src/io_dns.c:20-28 | so is a response cut short inside its answers |
| EventLoopCallbacks.ReplyReachesTheCallback | src/io_net.c:362-393 | an RX event on a pending lookup's watcher, with a datagram that answers its query, makes exactly that report, responses beyond the 256 bytes of the buffer being failures |
| EventLoopCallbacks.ReplyIsReportedInItsTurn | src/io_driver.c:107-135 | the same from the dispatch loop, when the watcher's socket is readable at its turn |
| EventLoopCallbacks.NothingReceived | src/io_net.c:362-393 | an event without a datagram, or another event, changes nothing |
| EventLoopCallbacks.FreeAfterTimeout | src/io_dns.c:39-51 | an expired lookup is reported as a timeout, and its callback finds the object free |
| EventLoopCallbacks.CallbackRestarts | src/io_dns.c:10-37 | a callback can start the next lookup on its own object, which is then pending like any other |
| EventLoopLiveness.AskedForTicksAndReplies | src/io_driver.c:35-73 | between rounds select is asked for the timer descriptor and for the socket of every pending lookup |
| EventLoopLiveness.DrivesAreTickRounds | src/io_timer.c:16-57 | however the application behaves, there is one drive for each round in which the timer descriptor is ready, and no other |
| EventLoopLiveness.EveryLookupIsAnswered | src/io_dns.c:58-100 | from the initialised loop, after any history: a lookup that started has been called back exactly once when the timer descriptor has been ready in as many later rounds as its timeout has ticks |
| EventLoops.EventLoop.Create | src/io_timer.c:33-57 | builds the initialised loop over one arena, its tick watcher listening on the timer descriptor if there is one |
| EventLoops.EventLoop.LookupIpv4 | src/io_dns.c:58-100 | in place, over the shared arena, with its return value |
| EventLoops.EventLoop.RxCallback | src/io_dns.c:10-37 | parse, close, stop the timer, report |
| EventLoops.EventLoop.TimeoutCallback | src/io_dns.c:39-51 | close and report the timeout |
| EventLoops.EventLoop.Drive | src/io_timer.c:16-26 | the timer tick with lookup and application callbacks |
| EventLoops.EventLoop.PostSelect | src/io_driver.c:75-136 | the dispatch pass with lookup, timer and application callbacks |
| EventLoops.EventLoop.Run | src/io_driver.c:149-180 | between rounds the loop is quiet, so that the theorems above apply |
| DnsTheorems.LabelsHaveNoDots | src/dns_util.c:165-203 | the labels of a host name are its parts between dots |
| DnsTheorems.EncodeFirst | src/dns_util.c:165-203 | a label stands behind its length, modulo 256, and in front of the other labels |
| DnsTheorems.QNameLength | src/dns_util.c:165-203 | the name of a query takes the length of the host plus two |
| DnsTheorems.HostRoundTrip | src/dns_util.c:165-243 | labels of 1 to 63 bytes read back as the split host, from which the host is recovered, and the parser steps over exactly the name |
| DnsTheorems.QueryRoundTrip | src/dns_util.c:250-277 | the same for a whole query, of the host's length plus 18 |
| DnsTheorems.QueryAsks | src/dns_util.c:132-163 | byte for byte: one question, no answers, recursion desired, and type 1, class 1 behind the name |
| DnsTheorems.SkipNameExactly | src/dns_util.c:205-243 | plain names, pointers and labels ended by a pointer are stepped over exactly |
| DnsTheorems.AnswerExactly | src/dns_util.c:309-353 | one encoded record: an A/IN record of four bytes is remembered, one of another size fails, any other is skipped |
| DnsTheorems.ResponseParses | src/dns_util.c:279-356 | a well-formed response parses iff it has answers and every A/IN record has RDLENGTH 4, and yields the first four addresses in order |
| DnsTheorems.TruncatedResponseFails | src/dns_util.c:279-356 | cut short anywhere before the end of its answers it fails |
| DnsTheorems.Refused | src/dns_util.c:286-307 | no buffer parses that lacks header or question or whose answer count is zero |
| DnsTheorems.TrailingBytesIgnored | src/dns_util.c:279-356 | bytes appended to a buffer that parses change neither result nor addresses |
| DnsMessage.ParseA | src/dns_util.c:279-356 | at most four addresses, and the parser stays inside the buffer, on every input |
| DnsUtils.DnsUtil.BuildQName | src/dns_util.c:165-203 | succeeds iff the name fits and then appends it, the length bytes incremented in place |
| DnsUtils.DnsUtil.BuildAQuery | src/dns_util.c:250-277 | succeeds iff the host's length plus 18 fits, and returns the write index behind the query |
| DnsUtils.DnsUtil.Read | src/dns_util.c:112-126 | advances within the buffer or fails, also for negative lengths |
| DnsUtils.DnsUtil.ParseQName | src/dns_util.c:205-243 | ends on every buffer, inside it, where the specification says |
| DnsUtils.DnsUtil.ParseAResponse | src/dns_util.c:279-356 | ends on every buffer and for every query length; -1 without header, question or answers, else the result and the addresses of the specification |
| TelnetTheorems.FeedToken | src/telnet_reader.c:59-115 | from the start state one printed token causes exactly its callbacks and leads back to the start state |
| TelnetTheorems.PrintedIsTold | src/telnet_reader.c:59-115 | any printed token sequence is reported in order, the other commands silently |
| TelnetTheorems.RoundTrip | src/io_telnet.c:101-110 | the same for any cut of the stream into chunks |
| TelnetTheorems.AbortCutsOff | src/io_telnet.c:101-110 | an aborting callback cuts the events off right behind its own |
| TelnetTheorems.ReceiveFeedsAPrefix | src/io_telnet.c:101-110 | the bytes up to the aborting one have been fed, and no others |
| TelnetTheorems.FrameBroken | src/telnet_reader.c:106-112 | while waiting for the end of a frame any byte but 240 is silent and leads to the start state |
| TelnetTheorems.BrokenFrameIsSilent | src/telnet_reader.c:59-115 | so a frame with IAC in its body is not reported, whatever follows the IAC |
| TelnetTheorems.RankFalls | src/telnet_reader.c:35-115 | outside the start state every byte lowers the rank |
| TelnetTheorems.FramesAreBounded | src/telnet_reader.c:10-115 | on every stream the reader is back in the start state within 36 bytes of leaving it |
| TelnetReaders.TelnetReader.Feed | src/telnet_reader.c:59-115 | in place, one step of the state machine, with the callback made and its answer returned |
| TelnetReaders.TelnetReader.Receive | src/io_telnet.c:143-151 | the loop over a received chunk, with abort |
| QueueModel.FirstInFirstOut | src/circ_buffer.c:69-182 | over any run of operations, bytes taken and bytes left are bytes queued and bytes accepted, in order |
| QueueModel.PeekThenAdvanceIsGet | src/circ_buffer.c:104-182 | peeking and then advancing is getting |
| QueueModel.StoreExtends | src/circ_buffer.c:77-90 | bytes stored behind a wrapping window extend it |
| QueueModel.WindowParts | src/circ_buffer.c:112-125 | a wrapping window's front, and what is left of it |
| CircBuffers.CircBuffer.Put | src/circ_buffer.c:69-92 | returns 0 iff the bytes fit, and then appends them, else changes nothing |
| CircBuffers.CircBuffer.Get | src/circ_buffer.c:104-127 | returns 0 iff there are that many bytes, and then hands out and removes the oldest, else changes nothing |
| CircBuffers.CircBuffer.Peek | src/circ_buffer.c:162-182 | returns 0 iff there are that many bytes, and then hands out the oldest; keeps all |
| CircBuffers.CircBuffer.Advance | src/circ_buffer.c:139-150 | returns 0 iff there are that many bytes, and then removes the oldest |
| CircBuffers.TxResume | test/cli_server.c:50-84 | whatever the transport answers, sent and queued bytes together stay the same; what is sent grows by what the answers took; and sends go on until the queue is empty or one of them takes nothing, which is then the last |

## Left out

- Sockets, `select`, `timerfd`, `sendto` and `recvfrom` themselves; their results are nondeterministic.
- `src/io_net.c` apart from the effects of `io_net_udp`, `io_net_udp_callback` and `io_net_close` on watchers. `io_net_close` also reads `n->ssl`, which `io_net_udp` does not set; that read is not modelled.
- mbedtls code, `src/io_ssl.c` and `src/io_pipe.c`: foreign calls and process plumbing.
- List operations without a use in the modelled code: `list_replace`, `list_splice` without re-initialisation, and the reverse and continued walks.
- `io_timer_deinit`: nothing stops the ticks of the modelled loop; and the count of expirations that the timer descriptor delivers, which the code reads and ignores.
- Tick rates below 1, descriptors outside the range of `fd_set`, timeouts whose milliseconds overflow an `int`, ring buffers of capacity 0 and negative sizes: the C code divides by zero, overflows or writes out of bounds there.
- TelnetTheorems.RoundTrip: subnegotiation bodies that contain IAC are not printed tokens; the reader leaves the frame at the first IAC, so that the doubling RFC 855 asks for is not supported. The bounded-framing results cover them.
- DnsTheorems.HostRoundTrip: labels are 1 to 63 bytes long; the builder itself is specified for all host names.
- The DNS header's bit fields and byte order: header fields are big-endian integers.
- `cli_tx`, `ssl_tx`, the command line interface, logging and memory allocation.
