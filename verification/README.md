# LLTDResponder: a verified model of the protocol core

LLTDResponder answers Microsoft's Link Layer Topology Discovery protocol ([MS-LLTD]). This project models
its operating-system independent core and the Darwin receive loop that drives it, and proves what they
promise over all runs.

Imperative parts of the program are classes and methods over records, linked lists, arrays and byte
buffers, each proved against a specification function; the laws are lemmas about those functions.

| file | content |
|---|---|
| `Protocol.dfy`, `Wrappers.dfy` | bytes, addresses, network byte order, protocol constants, optional values |
| `SessionTable.dfy` | the sixteen-slot session table, proved to be a bounded finite map |
| `Automata.dfy` | the edge scan, the three transition tables, the switch functions |
| `Band.dfy` | RepeatBand statistics in 32-bit arithmetic, the deadlines, the charge and inactivity timers |
| `LoopSpec.dfy`, `LoopRuns.dfy` | one round of the receive loop as a function, runs, and the invariant of every boundary |
| `LoopProperties.dfy` | rate limit, bounded response, starvation, drainage, charge window, session events, over runs |
| `Opening.dfy` | when a Discover opens its session and starts enumeration, and when it is lost |
| `Completion.dfy` | which Discovers make a session complete, over runs, and how enumeration then ends |
| `Blocks.dfy` | RepeatBand by history: Hellos heard, since when it has begun, the estimate a block ends with |
| `LoopEffects.dfy` | what each frame and tick does to mapping, sessions, session automaton, enumeration and timers |
| `HelloTiming.dfy` | the deadlines rounds arm, the next Hello at short intervals, the exact schedule at long ones |
| `HelloRuns.dfy` | runs with any number of Hellos heard in a block: the wrapped estimate and a starvation that lasts |
| `NetworkInterface.dfy` | the loop, `automata_tick` and `derive_session_event` in the form of the code |
| `AllHellos.dfy` | the Hellos of tick and parser together |
| `Wire.dfy`, `TlvOps.dfy` | header and property writers over a shared buffer, and the decoders they are inverse to |
| `ResponderSpec.dfy` | what `parseFrame` does to an interface and sends, as a function |
| `Responder.dfy` | `parseFrame` and everything below it over linked interface records and linked probe logs |
| `Machine.dfy` | runs of a machine with outputs, and of many such machines side by side |
| `ResponderProperties.dfy` | Reset, mapper lock, Hello, Emit and Query laws; isolation of interfaces |
| `Frames.dfy` | what each frame received makes an interface send and remember, field by field and byte by byte |
| `ProbeLog.dfy` | the probe log as a function of the frames received |
| `Download.dfy`, `Transfer.dfy` | download in parts with a 16-bit offset; the icon fetched by QueryLargeTlv |
| `WifiRates.dfy` | rate tables against their formula, maximum rate, rate inference |

## Reading the model

- Time. A round has two clock readings in milliseconds, one for the frame and a later one for its tick;
  `parseFrame` may sleep in between. The seconds clock is the milliseconds clock divided by 1000, as both
  come from one nanosecond counter on Darwin. Readings never go backwards and stay far from 2^64.
- Environment. MAC, MTU, icon, names and station properties are parameters of each call (`Env`, `Station`),
  free to change from call to call unless a lemma says otherwise. Allocation and sending succeed.
- Abstraction. A class shows its state through `View` or `Contents`. The table shows a map without slots or
  count; an interface record shows no mapper address while no mapper is known; an interface never seen
  counts as a fresh one.
- Hellos. Two parts of the program send them: the tick, under RepeatBand, and `parseFrame`, in answer to a
  Discover it accepts. The laws on timing are about the Hellos of the tick, except `HellosInWindow`, which
  counts both.
- Buffers. Hello and QueryResp are written into a buffer of MTU bytes without a check of its size. The methods
  ask that it holds the Hello owed to a Discover (`HelloLength` gives its exact length) and the fixed part of a
  QueryResp (`BufferHolds`), and nothing of other frames; the specification functions ask for nothing.

## Where the code and its documentation differ

The model follows the code.

- The Command state of the mapping automaton times out after 5 s in the code, 1 s in
  `Documentation/automata_runtime.md`; a session entry expires after 60 s of inactivity, not 1 s.
- In Wait with all sessions complete the next tick goes to Quiescent, where the documentation stays in Wait.
- A new session always leads from Quiescent to Pausing, also when it is already complete.
- The documentation expects a conflicting Discover event; the code cannot produce one.
- Discover pre-processing runs under every type of service, and a timed-out automaton loses its input.

## Results that fall short of the intention

Each is stated exactly, with both sides proved.

- RepeatBand promises tick Hellos at the chosen interval. For intervals of at most the 300 ms block time it does
  (`UpcomingHello`, `BoundedResponse`). Beyond it a Hello goes out only at a tick that ends a block
  late: the Hellos are those of a schedule computed from tick times and intervals, and there are none if and only
  if every block-ending tick comes before the interval chosen at the previous block's end is over, or within a
  second of the last Hello (`StarvesIff`). Ticks closer together than the excess over 300 ms always do
  (`DenseTicksEndEarly`); two Hellos heard in one block are enough to get there and stay, for an
  interface of any address (`StarvationIsReached`).
  With at most 9769 Hellos a block the interval is 120 ms or at least 480 ms, so for ticks at most 180 ms apart
  there is no third case (`EitherRegime`).
- A Discover should open a session and start enumeration. It is lost if and only if the table is full without its
  key, or the mapping automaton has timed out, as it has more than 5 s (in whole seconds) after the last frame in
  Command and more than 30 s after it in Emit (`KeyIsHeldIff`): the timeout takes the place of the input, the session just opened is
  cleared, and the round ends quiescent without a tick Hello (`LateDiscoverIsLost`). A pause of 6 s between two
  Discovers is enough; the next one is held again (`SilenceLosesDiscover`). Enumeration begins exactly when
  neither this, nor a tick 30 s late, nor a table of complete sessions prevents it (`EnumerationBeginsIff`).
- The estimate min(10000, 45 r r) is exact if and only if the product does not wrap, or wraps to 10000 or
  more (`EstimateIsExactIff`); a new interface can hear any such number in its first block (`HeardBlockIsExactIff`,
  `WrappedBlock`).
- A length field of 15 bits tells the reader the truth if and only if fewer than 32768 bytes are carried
  (`LengthFieldIff`), and a transfer of enough requests ends with exactly the icon if and only if its last offset fits 16 bits;
  otherwise the reader is never told it is done, or is told so with too many bytes (`IconReassemblesIff`). It is
  told so exactly when a request, its offset cut to 16 bits, asks for the last part (`ReadIsDoneIff`,
  `WrappedReaderEnds`).
- A known mapper is replaced if and only if a Reset or a Query under other addresses arrives
  (`LockBreaksIff`): Query overrides the lock.
- The rate tables are the formula they are documented by, rounded half up, except for the empty VHT row 9 at
  20 MHz and one HE entry, 11342 where the formula rounds to 11343 (`HeMatchesFormulaIff`).
- The loop and the parser name the same mapper after a recorded Discover if and only if the parser accepted it
  (`MappersAgreeIff`); a Discover of a second mapper makes them differ (`ForeignMapperIsAnnounced`).
- The maximum rate dominates if and only if the link is not VHT at 20 MHz (`MaxRateDominatesIff`).
- Emitee entries are read at their place if and only if they are among the first 4682 (`EmiteeOffsetWrapsIff`), so
  every list of a length is answered as it should be if and only if that is at most 4682 (`EmitLengthIff`). A
  longer list takes a frame of more than 65,000 bytes, which an Ethernet MTU does not allow.

## Model

| member | source | states |
|---|---|---|
| `Sessions.ToMapIsExact` | lltdResponder/lltdAutomata.h:62-80 | slots with unique keys are exactly the entries of a finite map, one for each valid slot |
| `Sessions.FillSlot` | lltdResponder/lltdAutomata.c:321-334 | filling a free slot under an absent key adds that entry to the map and keeps keys unique |
| `Sessions.FreeSlot` | lltdResponder/lltdAutomata.c:347-358 | invalidating a slot removes its key alone and lowers the size by one |
| `Sessions.ExpiredSlots` | lltdResponder/lltdAutomata.c:609-623 | invalidating the slots idle for more than 60 s is the filter on the map |
| `Sessions.SessionTable.constructor` | lltdResponder/lltdAutomata.c:270-278 | a new table is the empty map and counts as all complete |
| `Sessions.SessionTable.Find` | lltdResponder/lltdAutomata.c:287-304 | NULL exactly when the key (address, generation) is absent; else the slot with the map's entry |
| `Sessions.SessionTable.Add` | lltdResponder/lltdAutomata.c:306-340 | refreshes a held key, opens a new one, fails exactly when the key is absent and sixteen are held |
| `Sessions.SessionTable.Note` | os/darwin/daemon/darwin-main.c:323-328 | writes through the returned entry change that session only; completeness is never taken back |
| `Sessions.SessionTable.Remove` | lltdResponder/lltdAutomata.c:342-361 | the map without the key, and the completeness flag of what remains |
| `Sessions.SessionTable.UpdateCompleteStatus` | lltdResponder/lltdAutomata.c:363-380 | the flag says whether every held session is complete |
| `Sessions.SessionTable.Clear` | lltdResponder/lltdAutomata.c:396-403 | the empty map, all complete |
| `Sessions.SessionTable.ExpireSessions` | lltdResponder/lltdAutomata.c:609-625 | exactly the sessions idle for more than 60 s are gone, the count and the flag follow |
| `Automata.MappingTable` | lltdResponder/lltdAutomata.c:49-62 | a full scan of the mapping edges, last match winning, computes the next-state function |
| `Automata.EnumerationTable` | lltdResponder/lltdAutomata.c:135-143 | the same for the enumeration edges |
| `Automata.SessionTable` | lltdResponder/lltdAutomata.c:199-215 | the same for the session edges |
| `Automata.Automaton.Scan` | lltdResponder/lltdAutomata.c:81-88 | the scan ends at the target of the last edge that fires, or where it was |
| `Automata.Automaton.SwitchMappingState` | lltdResponder/lltdAutomata.c:67-105 | a timeout drops the input and ends Quiescent, recursion included; otherwise the next state |
| `Automata.Automaton.SwitchSessionState` | lltdResponder/lltdAutomata.c:220-258 | a timeout of more than a second drops the event and ends Nascent; otherwise the next state |
| `Automata.Automaton.SwitchEnumerationState` | lltdResponder/lltdAutomata.c:148-173 | the next state; no timeout of its own |
| `RepeatBand.EstimateIsExactIff` | lltdResponder/lltdAutomata.c:491-498 | the 32-bit estimate is min(10000, 45 r r) exactly when the product does not wrap or wraps to 10000 or more |
| `RepeatBand.EstimateIsExact` | lltdResponder/lltdAutomata.c:491-498 | for r up to 9769 it is exact, and at least 45 once r is positive |
| `RepeatBand.IntervalBounds` | lltdResponder/lltdAutomata.c:509-518 | the interval is 8n/3 rounded up and at least 6, at most 26667, and at most a block exactly for n up to 112 |
| `RepeatBand.BandState.UpdateStatistics` | lltdResponder/lltdAutomata.c:486-502 | the power loop and cap compute the wrapped estimate; the block restarts |
| `RepeatBand.BandState.ChooseTime` | lltdResponder/lltdAutomata.c:504-522 | quotient and remainder compute now plus the interval |
| `RepeatBand.BandState.HelloReceived` | lltdResponder/lltdAutomata.c:532-540 | the 32-bit count wraps; ten Hellos begin the enumeration |
| `RepeatBand.MappingState.CheckCharge` | lltdResponder/lltdAutomata.c:558-569 | due exactly when armed and reached, and then reset |
| `LoopRuns.FrameKeepsMidInv` | os/darwin/daemon/darwin-main.c:292-390 | a frame may break the coupling of enumeration and table, but keeps everything else the tick relies on |
| `LoopRuns.TickInv` | lltdResponder/lltdAutomata.c:586-687 | every tick restores the full boundary invariant |
| `LoopRuns.Run` | os/darwin/daemon/darwin-main.c:263-405 | every run, whatever frames and silences it has, ends in the boundary invariant |
| `LoopProperties.EveryBoundary` | os/darwin/daemon/darwin-main.c:264-405 | after every round: enumeration running implies a session, a session implies mapping running, Pausing an incomplete one, Wait none; timers armed; Temporary never entered |
| `LoopProperties.RoundHello` | lltdResponder/lltdAutomata.c:647-678 | the tick of a round sends at most one Hello, at its time, never 0 and never within a second of the last tick Hello |
| `LoopProperties.HelloNeedsIncompleteSession` | lltdResponder/lltdAutomata.c:630-678 | a tick sends a Hello only while some held session is incomplete |
| `LoopProperties.HelloRateLimit` | lltdResponder/lltdAutomata.c:647-684 | in any run the i-th and j-th tick Hello are at least 1000 (j - i) ms apart |
| `LoopProperties.HelloWindow` | lltdResponder/lltdAutomata.c:647-684 | any window of T ms holds at most T/1000 + 1 tick Hellos |
| `AllHellos.HellosInWindow` | os/darwin/daemon/darwin-main.c:263-405 | any window of T ms holds, of tick and parser together, at most T/1000 + 1 Hellos and one more for each Discover the parser accepts in it |
| `AllHellos.ParserAnswersDiscovers` | lltdResponder/lltdBlock.c:673-699 | over any rounds the parser sends one Hello at each Discover it accepts, and no other |
| `AllHellos.ParserHellosAreSent` | lltdResponder/lltdBlock.c:656-747 | those are all the Hellos among the frames it sends |
| `AllHellos.LoopSends` | os/darwin/daemon/darwin-main.c:392-393 | the bytes the loop's parser sends on its interface are those of a new responder for the frames of its rounds |
| `LoopProperties.PromiseRound` | lltdResponder/lltdAutomata.c:647-684 | one round keeps the deadline that bounds the next Hello, through suppression and block timeouts |
| `LoopProperties.BoundedResponse` | lltdResponder/lltdAutomata.c:475-530 | Pausing with interval i up to a block and ticks up to g apart: consecutive tick Hellos are less than 1000 + i + g ms apart |
| `LoopProperties.ResponseAfterHello` | lltdResponder/lltdAutomata.c:633-685 | the bound holds from any state of a run in which a round sends a Hello |
| `LoopProperties.Starvation` | lltdResponder/lltdAutomata.c:680-684 | with an interval longer than a block by a tick gap no tick Hello is sent in any run, because the block timeout moves the deadline first |
| `LoopProperties.BlockStartsStarvation` | lltdResponder/lltdAutomata.c:680-684 | any block timeout that leaves so long an interval starts the starvation |
| `HelloRuns.StarvationIsReached` | lltdResponder/lltdAutomata.c:486-522 | from a new interface of any address, at any time, two Discovers that do not acknowledge it and two Hellos heard reach it, and any number of further Discovers at 100 ms brings no tick Hello |
| `HelloRuns.ScenesExist` | lltdResponder/lltdAutomata.c:440-462 | for every address and time there is such a Discover, with its station entry complete |
| `HelloRuns.BlockRun` | lltdResponder/lltdAutomata.c:532-540 | from a new interface of any address, at any time, any number of Hellos can be heard in a block; it ends with the 32-bit estimate of that number |
| `HelloRuns.HeardBlockIsExactIff` | lltdResponder/lltdAutomata.c:486-502 | such a run ends with the prescribed estimate exactly if the product does not wrap below the cap |
| `HelloRuns.WrappedBlock` | lltdResponder/lltdAutomata.c:491-498 | a run with 65536 Hellos heard ends with the estimate 0 and the next Hello due after 6 ms instead of 26667 |
| `HelloTiming.UpcomingHello` | lltdResponder/lltdAutomata.c:647-684 | steady at an interval within a block, the next Hello comes before its due time and a tick gap, whether or not one was sent before |
| `Opening.KeyIsHeldIff` | os/darwin/daemon/darwin-main.c:319-353 | after a Discover its key is held exactly if the table had it or room and the mapping automaton had not timed out |
| `Opening.LateDiscoverIsLost` | lltdResponder/lltdAutomata.c:76-103 | a Discover that finds it timed out leaves everything quiescent and brings no tick Hello, from every state of every run |
| `Opening.SilenceLosesDiscover` | lltdResponder/lltdAutomata.c:76-103 | a Discover, silence, and a Discover more than 5 s after the first reach that, unless the inactivity timer fired before; the next Discover is held |
| `Opening.EnumerationBeginsIff` | os/darwin/daemon/darwin-main.c:377-390 | from quiescent enumeration a Discover's round ends Pausing exactly if mapping had not timed out, the tick is within the inactivity timeout and a session then held is incomplete |
| `HelloTiming.FirstResponse` | os/darwin/daemon/darwin-main.c:377-390 | a Discover that so begins enumeration brings a tick Hello within 120 ms and a tick gap, or what an earlier Hello's spacing allows, in rounds that stay Pausing |
| `Completion.DiscoverWrites` | os/darwin/daemon/darwin-main.c:301-328 | a held Discover's entry is complete exactly if it was or the Discover counts no station or names our address, with its number, activity, creation and event; no other entry changes |
| `Completion.CompleteIff` | os/darwin/daemon/darwin-main.c:326-328 | over runs a held session is complete exactly if a Discover of its key since it was opened named us |
| `Completion.CompleteTick` | lltdResponder/lltdAutomata.c:630-646 | a Pausing tick that finds all sessions complete ends Wait, or Quiescent if none is left, and sends nothing |
| `Completion.NamingDiscoverEnds` | lltdResponder/lltdAutomata.c:630-646 | a Discover that names us, at an interface without sessions, ends Wait with its own tick and Quiescent with the next silent one |
| `Completion.KeptByTick` | lltdResponder/lltdAutomata.c:593-625 | a tick keeps a session unchanged exactly if it was active within 60 s and the inactivity timer is not due |
| `HelloTiming.ResponseAfterBlock` | lltdResponder/lltdAutomata.c:680-684 | whatever the intervals were before, a block that ends with one within a block brings the next tick Hello within it and a tick gap, or what the spacing allows |
| `HelloTiming.RunStaysRegular` | lltdResponder/lltdAutomata.c:680-684 | over runs, at an interval beyond a block both deadlines stem from the last block's end |
| `HelloTiming.HellosFollowSchedule` | lltdResponder/lltdAutomata.c:647-684 | at intervals beyond a block the Hello times are exactly the schedule computed from tick times and intervals |
| `HelloTiming.StarvesIff` | lltdResponder/lltdAutomata.c:647-684 | such a run sends no Hello exactly if every block-ending tick comes too early for one |
| `HelloTiming.DenseTicksEndEarly` | lltdResponder/lltdAutomata.c:680-684 | ticks no further apart than the interval's excess over a block always come too early |
| `LoopProperties.SilenceDrains` | lltdResponder/lltdAutomata.c:571-607 | a silent run that ticks 30 s or more after the last frame ends with mapping and enumeration Quiescent and no session |
| `LoopProperties.SilenceAfterFrameDrains` | os/darwin/daemon/darwin-main.c:345-358 | the same from the round of that frame, from every state of every run |
| `LoopProperties.ChargeCountExpires` | lltdResponder/lltdAutomata.c:542-569 | over runs the charge count is nonzero only within a second of a Charge |
| `LoopProperties.ChargeRound` | lltdResponder/lltdAutomata.c:550-569 | a round keeps the charge count, adds one modulo 256 for a Charge, or resets it |
| `HelloTiming.EstimateStaysCounted` | lltdResponder/lltdAutomata.c:486-502 | over runs with at most 9769 Hellos a block the estimate is always min(10000, 45 r r) of some positive count r |
| `Blocks.CountIsHeard` | lltdResponder/lltdAutomata.c:486-502 | over runs the 32-bit count is that of the Hellos heard since the block began |
| `Blocks.BegunIff` | lltdResponder/lltdAutomata.c:524-540 | while enumeration runs the band has begun exactly if since its first Discover another came, a tick Hello was sent, or a tenth Hello was heard in a block |
| `Blocks.RoundEstimate` | lltdResponder/lltdAutomata.c:486-502 | a round changes the estimate only as it starts enumeration or ends a begun block that heard something, and to min(10000, 45 r r) for 1 to 9769 heard |
| `Blocks.BlockEstimate` | lltdResponder/lltdAutomata.c:486-502 | the same by history alone, for the end of any block of any run |
| `HelloTiming.EitherRegime` | lltdResponder/lltdAutomata.c:486-522 | so with ticks at most 180 ms apart the interval is within a block or outlasts it by the tick gap |
| `HelloTiming.FirstDiscoverDeadlines` | os/darwin/daemon/darwin-main.c:377-390 | a first Discover puts the Hello 120 ms and the block's end 300 ms ahead |
| `HelloTiming.RoundDeadlines` | lltdResponder/lltdAutomata.c:504-530 | a round that ends a block puts the next Hello its new interval ahead, 6 to 26667 ms; one that only sends puts it 1000 to 26667 ms ahead |
| `HelloTiming.DeadlineStaysNear` | lltdResponder/lltdAutomata.c:504-522 | in no state of a run is the Hello deadline more than 26667 ms ahead |
| `LoopProperties.NextDiscoverEvent` | lltdResponder/lltdAutomata.c:429-468 | after any run the next Discover is a changed-number event exactly if its key is held and its last Discover had another number |
| `LoopProperties.SessionsTrackXids` | os/darwin/daemon/darwin-main.c:319-341 | a held session carries the number of the last Discover of its key |
| `LoopProperties.DiscoverEventMeans` | lltdResponder/lltdAutomata.c:440-468 | a Discover is never conflicting; acknowledging depends on the station list alone, the changed number on the map alone |
| `LoopEffects.EventOfFrame` | lltdResponder/lltdAutomata.c:405-473 | the event of every frame by its destination, its stations and its number |
| `LoopEffects.FrameMovesSession` | lltdResponder/lltdAutomata.c:228-256 | the session automaton's next state by the frame received and the second since it last moved |
| `LoopEffects.TickKeepsSession` | lltdResponder/lltdAutomata.c:586-687 | a tick leaves the session automaton alone |
| `LoopEffects.FrameMovesMapping` | lltdResponder/lltdAutomata.c:67-105 | mapping goes Quiescent by a Reset or 5 s in Command or 30 s in Emit without a frame, to Command by a Discover, to Emit by an Emit, and is not moved otherwise |
| `LoopEffects.LivelyRun` | lltdResponder/lltdAutomata.c:32-64 | while frames come within five seconds of each other and none is a Reset, mapping stays engaged, in Emit exactly if an Emit has come |
| `LoopEffects.TickMovesMapping` | lltdResponder/lltdAutomata.c:593-607 | a tick ends mapping exactly when the inactivity timer is due |
| `LoopEffects.FrameKeepsSessions` | os/darwin/daemon/darwin-main.c:338-353 | a frame that is no Discover keeps all sessions, or drops all by a Reset or an overdue mapping |
| `LoopEffects.SessionsAreRecent` | lltdResponder/lltdAutomata.c:609-625 | over runs a held session was last active at the last Discover of its key, at most 60 s before the last tick |
| `LoopEffects.SilentRoundKeeps` | lltdResponder/lltdAutomata.c:609-625 | a silent round keeps a session exactly if it was active within 60 s and the inactivity timer is not due |
| `LoopEffects.FrameMovesEnumeration` | os/darwin/daemon/darwin-main.c:371-390 | a Discover makes enumeration Pausing, no other frame moves it |
| `LoopEffects.TickMovesEnumeration` | lltdResponder/lltdAutomata.c:630-646 | a tick moves enumeration by the sessions it leaves, and disarms the band with the last of them |
| `LoopEffects.FrameMovesInfo` | os/darwin/daemon/darwin-main.c:329-336 | a Discover with room in the table is remembered: sender, and generation by service |
| `LoopEffects.FrameMovesTimers` | lltdResponder/lltdAutomata.c:542-580 | every frame rearms the inactivity timer for 30 s, a Charge counts modulo 256 and arms a second |
| `LoopEffects.TickMovesTimers` | lltdResponder/lltdAutomata.c:593-607 | a tick clears all timers with the inactivity timer, or the charge timer and count with the charge timer |
| `LoopEffects.TickMovesDeadlines` | lltdResponder/lltdAutomata.c:647-684 | a due Hello goes out or waits for the second after the last one, a block that is over ends, and both deadlines follow by arithmetic |
| `LoopEffects.TickParts` | lltdResponder/lltdAutomata.c:647-684 | those are the last parts of the tick, on the deadlines it began with, and a tick Hello goes out exactly then |
| `LoopProperties.HelloNames` | os/darwin/daemon/darwin-main.c:329-336 | after any run a tick's Hello names the mapper of the last recorded Discover and the generation of the last one that was not quick |
| `DarwinLoop.DeriveSessionEvent` | lltdResponder/lltdAutomata.c:405-473 | the scan of stations and slots computes the event from the frame, the map and our address |
| `DarwinLoop.NetworkInterface.constructor` | os/darwin/daemon/darwin-main.c:947-952 | a new interface is in the initial state |
| `DarwinLoop.NetworkInterface.NoteFrame` | os/darwin/daemon/darwin-main.c:292-390 | the in-place updates of a received frame are the frame function on the view |
| `DarwinLoop.NetworkInterface.AutomataTick` | lltdResponder/lltdAutomata.c:586-687 | the in-place tick is the tick function on the view, and sends exactly its Hellos |
| `DarwinLoop.NetworkInterface.OnTimeout` | os/darwin/daemon/darwin-main.c:266-282 | a receive timeout is a silent round |
| `DarwinLoop.NetworkInterface.OnReceived` | os/darwin/daemon/darwin-main.c:284-404 | a round with a frame composes table, automata, parser and tick; parser and automata do not disturb each other |
| `DarwinLoop.NetworkInterface.Loop` | os/darwin/daemon/darwin-main.c:263-405 | any number of rounds in place ends in the run's state, has sent exactly its Hellos, and its frames' answers as the run of all interfaces |
| `DarwinLoop.MappersAgreeIff` | os/darwin/daemon/darwin-main.c:329-336 | the mapper the loop records is the one the parser is locked to exactly if the parser accepted the Discover |
| `DarwinLoop.ForeignMapperIsAnnounced` | lltdResponder/lltdBlock.c:673-675 | after Discovers of two mappers the parser is locked to the first and the loop announces the second |
| `Protocol.SameAddress` | lltdResponder/lltdWire.c:5-12 | six byte comparisons decide equality of addresses |
| `Wire.FrameRoundTrip` | lltdResponder/lltdProtocol.h:19-39 | decoding an encoded frame returns it |
| `Wire.HeaderLayout` | lltdResponder/lltdProtocol.h:19-39 | the offset of every header field on the wire |
| `Wire.SetLltdHeaderEx` | lltdResponder/lltdWire.c:36-58 | writes the encoded header, leaving its reserved byte and the rest of the buffer as they were |
| `Wire.SetLltdHeader` | lltdResponder/lltdWire.c:14-34 | the same with one source and one destination |
| `Wire.SetHelloHeader` | lltdResponder/lltdWire.c:60-74 | writes generation, current and apparent mapper at the offset, nothing else |
| `TlvOps.TlvsRoundTrip` | lltdResponder/lltdTlvOps.c:174-178 | parsing an encoded property list up to the end marker returns it exactly, empty values included |
| `TlvOps.SetHostnameTlv` | lltdResponder/lltdTlvOps.c:18-30 | writes the name cut to 32 bytes under its type, nothing else |
| `TlvOps.SetCharacteristicsTlv` | lltdResponder/lltdTlvOps.c:46-58 | writes the flags shifted by 16 in 32 bits, in network order |
| `TlvOps.SetPerfCounterTlv` | lltdResponder/lltdTlvOps.c:60-79 | the eight bytes are 1000000 in network order |
| `TlvOps.SetBssidTlv` | lltdResponder/lltdTlvOps.c:266-278 | writes nothing when there is no BSSID |
| `TlvOps.SetSsidTlv` | lltdResponder/lltdTlvOps.c:280-293 | writes the network name cut to 32 bytes |
| `TlvOps.SetWifiRssiTlv` | lltdResponder/lltdTlvOps.c:309-320 | writes the sign-extended signal strength |
| `TlvOps.SetQosCharacteristicsTlv` | lltdResponder/lltdTlvOps.c:147-156 | writes the three flags in the upper half |
| `Responder.IfaceState.SendProbeMsg` | lltdResponder/lltdBlock.c:193-272 | sends the Probe or Train and, when asked, the Ack, with their four addresses |
| `Responder.IfaceState.ParseEmit` | lltdResponder/lltdBlock.c:543-570 | the loop with its 16-bit offset sends the specified frames, byte for byte |
| `Responder.IfaceState.FindSeen` | lltdResponder/lltdBlock.c:524-531 | the walk of the linked log finds an entry of the same origin exactly if there is one |
| `Responder.IfaceState.ParseProbe` | lltdResponder/lltdBlock.c:502-541 | puts an unseen origin in front of the log, the count keeping its length |
| `Responder.IfaceState.WriteDescs` | lltdResponder/lltdBlock.c:329-347 | all counted descriptors are written, newest first; the bounds break is never taken |
| `Responder.IfaceState.ParseQuery` | lltdResponder/lltdBlock.c:274-353 | sends the specified response, takes over the mapper and empties the log |
| `Responder.IfaceState.SendLargeTlvResponse` | lltdResponder/lltdBlock.c:355-433 | the buffer sent is the encoded part at the requested offset |
| `Responder.IfaceState.ReadHwId` | lltdResponder/lltdBlock.c:472-486 | the id ends at the first aligned 16-bit zero, or after 64 bytes |
| `Responder.IfaceState.ParseQueryLargeTlv` | lltdResponder/lltdBlock.c:435-500 | ignores sequence 0; fetches the icon once and keeps it; answers by type |
| `Responder.IfaceState.AnswerHello` | lltdResponder/lltdBlock.c:578-648 | the chain of writers sends the specified Hello; an empty generation slot is filled |
| `Responder.IfaceState.NoteDiscover` | lltdResponder/lltdBlock.c:667-683 | a Discover of a foreign mapper changes nothing; an accepted one locks the mapper and stores its generation |
| `Responder.IfaceState.Handle` | lltdResponder/lltdBlock.c:656-747 | the dispatch does to the record, and sends, what the function on its view says |
| `Responder.InterfaceList.FindNode` | lltdResponder/lltdBlock.c:48-53 | the walk finds the record of a context exactly if there is one |
| `Responder.InterfaceList.StateForIface` | lltdResponder/lltdBlock.c:48-64 | returns the only record of a context, a fresh one if it had none; contexts stay distinct |
| `Responder.InterfaceList.ParseFrame` | lltdResponder/lltdBlock.c:656-665 | one frame changes the view of its own interface alone and sends only on it |
| `Responder.InterfaceList.ParseFrames` | lltdResponder/lltdBlock.c:656-747 | any sequence of frames of any interfaces leaves the list, and the bytes on the port, that the run of all interfaces says |
| `Responder.WireIsIsolated` | lltdResponder/lltdBlock.c:656-665 | of those bytes, the ones on an interface are what a new responder sends for its own frames alone |
| `Responder.OnWireDecodes` | lltdResponder/lltdBlock.c:238-238 | the frames of a trace can be read back from the bytes sent |
| `ResponderProperties.ResetIsFreshStart` | lltdResponder/lltdBlock.c:713-720 | after a topology Reset every later input sequence makes the interface send what a new one would |
| `ResponderProperties.LockBreaksIff` | lltdResponder/lltdBlock.c:163-178 | a known mapper changes exactly on a Reset or on a Query under other addresses |
| `ResponderProperties.MapperLock` | lltdResponder/lltdBlock.c:673-699 | without those, both addresses stay for the whole run and the Hellos sent are exactly the answers to that mapper's Discovers, in order |
| `ResponderProperties.HelloRoundTrip` | lltdResponder/lltdBlock.c:600-646 | decoding a Hello gives sequence 0, the Discover's generation and addresses, and the exact ordered property list |
| `Frames.HelloFields` | lltdResponder/lltdBlock.c:600-646 | a Discover from the mapper is answered by a broadcast that decodes to its generation and sources and to every property of the station by type and value |
| `Frames.DiscoverEffects` | lltdResponder/lltdBlock.c:667-699 | a Discover of another mapper changes nothing; else the mapper is locked and its service's generation stored |
| `ResponderProperties.HelloLength` | lltdResponder/lltdBlock.c:583-644 | the exact length of a Hello, at most 206 bytes, which is what its buffer must hold |
| `ResponderProperties.RssiRoundTrip` | lltdResponder/lltdTlvOps.c:315-318 | sign extension of the wire value gives back the signal strength |
| `ResponderProperties.GenerationSlots` | lltdResponder/lltdBlock.c:153-157 | a Discover moves the generation of its own service and not the other |
| `ResponderProperties.EmitRefines` | lltdResponder/lltdBlock.c:543-570 | for any list within the offset range: the known entries' frames in order, then one Ack exactly if the last entry is known |
| `Frames.EmitFields` | lltdResponder/lltdBlock.c:193-272 | each entry of kind 0 or 1, in order, sends from its source to its destination a Train or Probe for the mapper's real address; the Ack goes to its apparent one under the Emit's number |
| `Frames.EmitReadsBack` | lltdResponder/lltdBlock.c:208-238 | kind, source and destination of those entries can be read back from the bytes sent |
| `ResponderProperties.ProbesAreNoAcks` | lltdResponder/lltdBlock.c:208-226 | no frame before that is an Ack |
| `ResponderProperties.EmiteeOffsetWrapsIff` | lltdResponder/lltdBlock.c:552-568 | the running offset is wrong exactly beyond entry 4681 |
| `ResponderProperties.EmitBreaks` | lltdResponder/lltdBlock.c:552-568 | for each greater length there is a list whose Emit leaves a frame out |
| `ResponderProperties.EmitLengthIff` | lltdResponder/lltdBlock.c:543-570 | every list of a length is answered as it should be exactly if that is at most 4682 |
| `ResponderProperties.StepHello` | lltdResponder/lltdBlock.c:667-699 | a frame is answered by a Hello exactly if it is an accepted Discover, and by one only |
| `ResponderProperties.QueryRespDecodes` | lltdResponder/lltdBlock.c:320-349 | declared and carried descriptors agree, are the newest of the log, and fit the MTU |
| `Frames.QueryFields` | lltdResponder/lltdBlock.c:274-353 | header, count and each descriptor's bytes of the response, and what a Query leaves behind |
| `Frames.LargeTlvFields` | lltdResponder/lltdBlock.c:355-500 | number 0 is ignored; else header, length field and bytes of the response by the kind asked for, and what is kept |
| `Frames.HwIdIs` | lltdResponder/lltdBlock.c:472-486 | the hardware id told is the 64-byte buffer up to its first aligned pair of zeros |
| `Frames.ResetEffects` | lltdResponder/lltdBlock.c:713-738 | what either Reset forgets |
| `Frames.ProbeEffects` | lltdResponder/lltdBlock.c:502-541 | a Probe or Train to us is logged unless its two sources are |
| `Frames.OthersIgnored` | lltdResponder/lltdBlock.c:685-746 | every other frame changes and sends nothing |
| `ResponderProperties.InterfacesAreIsolated` | lltdResponder/lltdBlock.c:40-64 | for any interleaving, an interface sends what its own frames alone make it send |
| `Machine.Isolation` | lltdResponder/lltdBlock.c:656-665 | the general law: keyed machines run independently under any interleaving |
| `ProbeLog.LogIsFirstReports` | lltdResponder/lltdBlock.c:502-541 | over any history the log is the first report of each origin since the last Query or topology Reset, newest first |
| `ProbeLog.LogHasUniqueOrigins` | lltdResponder/lltdBlock.c:524-540 | no origin is logged twice |
| `ProbeLog.QueryReportsHistory` | lltdResponder/lltdBlock.c:274-353 | a Query is answered by one frame that decodes to the newest of those reports, as many as fit |
| `ProbeLog.LogByFields` | lltdResponder/lltdBlock.c:502-541 | every Probe or Train to us since the last clearing is logged with both its sources, no two descriptors agree in both, and each holds the fields of the earliest such frame, newest first |
| `ProbeLog.QueryByFields` | lltdResponder/lltdBlock.c:274-353 | the response to a Query lists those fields byte for byte, as many as fit |
| `Download.GatherIsRead` | lltdResponder/lltdBlock.c:405-428 | against any server of the data the reader fetches what the data and its number of turns alone determine |
| `Download.ReassemblesIff` | lltdResponder/lltdBlock.c:405-420 | a reader of any number of turns ends with exactly the data if and only if it has enough turns and the last offset fits 16 bits; else it is not done or holds too much |
| `Download.ReadOverruns` | lltdResponder/lltdBlock.c:444-445 | if the last offset does not fit, a reader that is told it is done, after however many turns, holds more bytes than there are |
| `Download.ReadIsDoneIff` | lltdResponder/lltdBlock.c:405-421 | a reader is told it is done exactly when one of its requests, its offset cut to 16 bits, asks for the last part |
| `Download.WrappedReaderEnds` | lltdResponder/lltdBlock.c:444-445 | 90001 bytes in parts of 30000 are such a case: done after at most 14 requests with too many bytes |
| `Transfer.LengthFieldIff` | lltdResponder/lltdBlock.c:405-421 | the length field conveys length and flag exactly when fewer than 32768 bytes are carried |
| `Transfer.IconKept` | lltdResponder/lltdBlock.c:713-720 | only a topology Reset drops a cached icon |
| `Transfer.IconReassemblesIff` | lltdResponder/lltdBlock.c:363-428 | a mapper of any number of requests ends with exactly the icon, arbitrary other frames in between, if and only if it makes enough of them and the last offset fits 16 bits, for payloads of 1 to 32767 bytes |
| `WifiRates.HtMatchesFormula` | os/darwin/daemon/lltd_wifi_rates.c:18-58 | every HT entry is the documented formula, subcarriers times bits times coding rate over symbol time, rounded half up |
| `WifiRates.VhtMatchesFormulaIff` | os/darwin/daemon/lltd_wifi_rates.c:60-88 | a VHT entry is the formula exactly outside MCS 9 at 20 MHz |
| `WifiRates.HeMatchesFormulaIff` | os/darwin/daemon/lltd_wifi_rates.c:90-126 | an HE entry is the formula exactly outside MCS 11 at 160 MHz with the 1600 ns interval |
| `WifiRates.RateIsFormula` | os/darwin/daemon/lltd_wifi_rates.c:160-206 | the rate of a link is the formula's for its width, MCS and guard interval by value, times its streams, the deviating entries aside |
| `WifiRates.RateOutside` | os/darwin/daemon/lltd_wifi_rates.c:128-206 | parameters outside the standards have no rate, legacy links one |
| `WifiRates.MaxRateDominatesIff` | os/darwin/daemon/lltd_wifi_rates.c:294-325 | the maximum rate bounds every rate of its width and streams exactly outside VHT at 20 MHz |
| `WifiRates.MaxRateIsAttained` | os/darwin/daemon/lltd_wifi_rates.c:294-325 | the maximum rate is one of the rates |
| `WifiRates.Search` | os/darwin/daemon/lltd_wifi_rates.c:256-281 | the nested loops end with the first of the nearest rates, if one is within tolerance |
| `WifiRates.InferParams` | os/darwin/daemon/lltd_wifi_rates.c:208-292 | returns the lexicographically first nearest parameters and their rate, or failure and zeros |
| `WifiRates.InferredIsUnique` | os/darwin/daemon/lltd_wifi_rates.c:208-292 | that determines the result |
| `WifiRates.InferredIsFirst` | os/darwin/daemon/lltd_wifi_rates.c:256-291 | no parameters in range have a nearer rate, or one as near that is tried earlier |
| `WifiRates.InferenceSucceedsIff` | os/darwin/daemon/lltd_wifi_rates.c:256-291 | success exactly if some rate of the tables lies within tolerance |
| `WifiRates.OwnRateInferred` | os/darwin/daemon/lltd_wifi_rates.c:160-206 | inferring from a computed rate returns that rate |
| `WifiRates.InferredStreamsReachRate` | os/darwin/daemon/lltd_wifi_rates.c:294-325 | outside VHT at 20 MHz the maximum for the inferred streams reaches the observed rate up to the tolerance |

## Left out

- Clock readings within one part of a round: the frame part and the tick each see one reading, so
  `switch_state_session`, which relies on the clock not jumping, always terminates here.
- Failing allocation and failing sends, and the 32-bit wrap of the probe count after 2^32 allocated nodes.
- Bytes of the Hello that the tick sends (`sendHelloMessage`): recorded as time, mapper and generation.
- Truncated frames: bytes past the end of a received frame read as zero.
- Integer overflow in rate inference for a tolerance or observed rate at the limits of C's `int`.
- Releasing the nodes of the probe log and of the icon cache: memory only.
- Receive loops of the other systems: they neither tick nor derive session events.
- Port layer, interface discovery, threads, icon building, logging and sleeping: foreign calls and no protocol state.
- Stub writers that return 0 and property writers no Hello uses.
