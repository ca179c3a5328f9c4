# linuxptp: the stateful kernels

Models of the parts of linuxptp (an implementation of IEEE 1588, with local hot-standby additions) that keep state
across calls, with proofs of what they promise over whole runs. Each module follows one source file or one mechanism
of it. Code that updates things in place is imperative Dafny (classes, arrays, loops), proved against functions on
values; protocols and runs are sequences of events over these functions. `dafny verify dfyconfig.toml` checks it all.

| module | what it models |
|---|---|
| `LeastSquares`, `SizeChoice`, `Linreg` | the linear-regression servo: the ring of 64 points, shared sums for all sizes, the choice of the size |
| `Bytes`, `Tlv`, `TlvSurvival`, `TlvInPlace` | byte order conversion of TLVs in the message buffer, in both directions |
| `WireFormat`, `TlvMembers`, `MsgMembers` | the packed structures on the wire, and what their members read as before and after a conversion |
| `MsgWalk`, `MsgRoundTrip`, `Msg` | whole messages: receiving, sending, appending TLVs, and the forwarding that sends and receives one buffer |
| `Tmv` | 64-bit time values and their wire formats |
| `ServoTypes`, `PiServo`, `ServoSample` | the PI servo, and when a locked servo counts as stable |
| `ServoShm`, `ShmOutcomes` | the servo state shared between processes: what is safe, and what each operation achieves |
| `TransparentClock`, `TcPairing` | what a transparent clock keeps per egress port, and what it adds to corrections |
| `PortFsm`, `PortLifecycle` | the four port state machines, and the opening and closing of a port's descriptors |
| `SyncFollowUp` | pairing Sync and Follow_Up |
| `ForeignMasters` | qualification of foreign masters and the choice of the best |
| `Mmedian`, `Pqueue`, `ClockCheck`, `Stats`, `SeqidWindow` | moving median, priority queue, clock sanity check, online statistics, sequence number window |
| `Phc2sys` | source and sink selection in phc2sys |
| `Basics` | notions shared by several modules |

## How to read the results

The codec works on one notion, the *walk*: which multi-byte fields a message in a given byte order has. Receiving is
proved to be the conversion of exactly the fields of the walk in network order, sending that of the walk in host
order, and a message that is converted has the same walk in the other order. From this follow both round trips. The
walks visit what the code visits, including the variable-length unicast master table and the clock description. What
the conversion means for the values is said independently of it: the packed structures of the headers (msg.h, tlv.h,
ddt.h, ds.h) are written down member by member, the fields of every walk are proved to be just the integers in them,
and so every integer reads afterwards in the one byte order what it read before in the other, and nothing else changes.

Some of what one would expect of the code does not hold as it stands. In these cases the code is kept as it is, a
lemma gives an input for which the expectation fails, and another one says exactly when it holds:

- The sequence number window lets every number from one to the window's size ahead pass. That nothing else passes
  holds exactly if the window neither ends at 65535 nor is *leaky*: it must not start at the wrap, and twice its size
  must reach the wrap (`SeqidWindow.PassesExactly`, `WindowIsExact`, `LeakyExamples`).
- A port stays in step with its descriptors on every run, if and only if the run does not begin with the event that
  reports a completed initialization; inside the repository only the state update itself produces that event
  (`PortLifecycle.NewPortStaysInStep`, `SkippedInitialization`). When initialization fails late, timer descriptors are closed twice
  (`ClosedAgainExactly`, `LateFailureClosesAgain`).
- Both orders of a Sync and its Follow_Up synchronize with the same times and corrections, but the sync interval
  passed on is that of the message that came second (`SyncFollowUp.BothOrders`, `IntervalsDiffer`).
- The size chosen by the linear-regression servo is not always the one with the smallest error: with errors of 1 and
  1.04 the larger one is chosen (`SizeChoice.SmallestErrorMissed`). Of the sizes that can be chosen at all it is the
  one with the smallest error exactly if none after the last smallest one has an error below 1.05 times it
  (`ChoosesSmallestExactly`). In any case it is so up to a factor of 1.05 for each size between the two
  (`ChosenIsNearlyBest`).
- A fit needs two different abscissae among its own points; without them the slope is divided by zero
  (`LeastSquares.DivisorZeroExactly`, `Linreg.LinregServo.DivisionNeedsInformation`). All sizes have them exactly if
  the four newest points do (`Observe`). Four samples with the same time stamp are a case in which they do not
  (`Linreg.FourEqualStamps`).
- A process that maps the shared servo state before its creator has set the size gets a bus error
  (`ServoShm.EarlyLookFaults`). Processes can go on in any way without such a fault exactly from those states in which
  the object has its size (`SafeToLookExactly`), and a given run faults exactly if some process looks too early
  (`FaultsExactly`).
- The moving median of an even number of samples lies between the two in the middle exactly if their sum fits into
  64 bits (`Mmedian.EvenMedian`, `MedianOverflows`).
- The best foreign master is one that no other qualified clock beats, whatever clocks there are, if and only if the
  dataset comparison is a strict order among clocks with different senders (`ForeignMasters.UnbeatenExactly`). The
  comparison is a parameter of the model, as bmc.c is not part of it; the circle of three clocks in `CircleIsBeaten` is
  about that parameter, and no statement about the comparison in bmc.c.
- Pruning leaves just those of the newest two announcements that are not out of date, exactly unless the second newest
  is in date and the newest is not (`ForeignMasters.PrunedExactly`). This takes a change of the announce interval
  (`OutOfDateInFront`, `SteadyIntervalIsExact`).

## Model

| member | source | states |
|---|---|---|
| LeastSquares.FitIsBest | linuxptp1103/linreg.c:185-188 | slope and intercept from the sums are the unique line of least weighted squared error, for positive weights and at least two abscissae |
| LeastSquares.DivisorPositive | linuxptp1103/linreg.c:185-187 | the divisor of the slope is positive for such samples, so the division is safe |
| LeastSquares.DivisorZeroExactly | linuxptp1103/linreg.c:185-187 | for positive weights the divisor of the slope is zero exactly if there are no two abscissae |
| LeastSquares.OneAbscissaNoBestLine | linuxptp1103/linreg.c:185-188 | with a single abscissa no line is best, so the condition of the fit is exact |
| Linreg.MovedIsSameLine | linuxptp1103/linreg.c:100-104 | moving the reference and the intercept by dx times the slope less dy leaves every fitted line where it was |
| Linreg.LinregServo.MoveReference | linuxptp1103/linreg.c:92-105 | the reference moves with wrap-around and all fits move along; nothing else changes |
| Linreg.LinregServo.UpdateReference | linuxptp1103/linreg.c:107-124 | the reference advances by the uncorrected local interval, whose fraction is carried over |
| Linreg.LinregServo.AddSample | linuxptp1103/linreg.c:126-136 | the new point becomes the newest of the ring, and the oldest of 64 drops out |
| Linreg.NewestAfterPush | linuxptp1103/linreg.c:128-132 | after a push the newest k + 1 points are the new one and the newest k from before |
| Linreg.SampleEntersWindow | linuxptp1103/linreg.c:128-132 | a new sample enters every window at abscissa 0 with the negated offset as its height, wrap-around included |
| Linreg.LinregServo.Regress | linuxptp1103/linreg.c:138-190 | one pass with shared sums gives each size its own best line through exactly its newest points if these have two abscissae, and otherwise some value that counts as a slope; it leaves sizes without enough points alone |
| Linreg.LinregServo.Refit | linuxptp1103/linreg.c:149-189 | sums carried over from the smaller sizes become those of this size, which gets its best line if its own points have two abscissae |
| Linreg.LinregServo.Extend | linuxptp1103/linreg.c:169-182 | the running sums, extended point by point from newest to oldest, are those of the whole window |
| Linreg.LinregServo.UpdateSize | linuxptp1103/linreg.c:192-214 | the size is the one the scan over all results ends with; none is chosen exactly if no size has a slope |
| SizeChoice.ChoosesSmallestExactly | linuxptp1103/linreg.c:203-211 | the scan ends with the smallest error of all sizes it can choose exactly if none after the last smallest one is within the ratio that counts as equal |
| SizeChoice.SmallestErrorMissed | linuxptp1103/linreg.c:205-207 | results for which the scan ends with an error that is not the smallest |
| SizeChoice.ChosenIsNearlyBest | linuxptp1103/linreg.c:203-211 | no settled size is better than the chosen one by more than a factor of 1.05 per size between them |
| SizeChoice.ChosenIsCandidate | linuxptp1103/linreg.c:205-207 | the chosen size is the first with a slope or has enough updates, and there is none exactly if no size has a slope |
| Linreg.LinregServo.Observe | linuxptp1103/linreg.c:236-237 | the sample enters the ring, and the four newest points have two abscissae exactly if the sample is informative |
| Linreg.LinregServo.DivisionNeedsInformation | linuxptp1103/linreg.c:185-187 | the divisor over the newest n points is zero exactly if they have one abscissa |
| Linreg.FourEqualStamps | linuxptp1103/linreg.c:107-137 | four samples with one time stamp leave the servo with a divisor of zero |
| Linreg.LinregServo.Estimate | linuxptp1103/linreg.c:236-240 | after any sample every size with enough points holds the best line through its newest points if there is one, as for all sizes after an informative sample, and the size is the one the scan chooses |
| Linreg.LinregServo.TakeSample | linuxptp1103/linreg.c:216-287 | the servo is unlocked exactly without a size and jumps exactly if the intercept is beyond a threshold; a jump raises all intercepts by the offset; at the returned frequency the correction interval works off just the intercept left after that, or the frequency is at the limit on that side |
| Linreg.LinregServo.Step | linuxptp1103/linreg.c:256-258 | a step of the clock keeps all slopes and raises all intercepts by the offset |
| Linreg.LinregServo.StepOrNot | linuxptp1103/linreg.c:249-261 | the clock is stepped exactly if the intercept of the chosen size is beyond a threshold, the first one counting only at the first update |
| Linreg.LinregServo.SetFrequency | linuxptp1103/linreg.c:263-284 | within the limits the frequency is off the slope by what works the intercept off in one correction interval, and otherwise it is at the limit on that side; the ratio times the corrected rate is the slope |
| Linreg.CorrectsExactly | linuxptp1103/linreg.c:263-282 | the clamped frequency leaves nothing of the intercept over, or is at the limit on whose far side nothing would be left |
| Linreg.SmoothedExactly | linuxptp1103/linreg.c:157-167 | the error is the average over the first ten predictions, and then one in which the newest counts 2 % |
| Linreg.LinregServo.Reset | linuxptp1103/linreg.c:296-310 | points and slopes are forgotten, the frequency is kept |
| Linreg.LinregServo.SetLeap | linuxptp1103/linreg.c:319-331 | the reference moves by a leap second exactly when a pending one is taken away |
| Tmv.TimestampRoundTrip | linuxptp1103/tmv.h:132-169 | every 64-bit time survives the conversion to a wire time stamp and back |
| Tmv.IntervalRoundTrip | linuxptp1103/tmv.h:91-130 | a time put in a correction field comes back clamped to 48 bits, and unchanged exactly if it fits |
| Bytes.FlipAllTwice | linuxptp1103/tlv.c:44-113 | converting the same fields twice restores every byte |
| Bytes.FlipAllFlipped | linuxptp1103/tlv.c:44-113 | within its own stretch a conversion mirrors each field and leaves all other bytes, whatever is converted around it |
| Bytes.CommuteBlocks | linuxptp1103/tlv.c:653-671 | blocks of fields that lie apart can be converted in either order, as sender and receiver do |
| Bytes.FlipInPlace | linuxptp1103/tlv.c:72-79 | converts one field in the buffer and no other byte |
| WireFormat.FlippedReads | linuxptp1103/msg.c:80-98 | converting just the integers of a structure makes each of them read in the other byte order what it read before, and leaves all octets alone |
| Tlv.Entries | linuxptp1103/tlv.c:440-466 | the walk over a unicast master table stays within its data; its fields are disjoint and in order |
| Tlv.Description | linuxptp1103/tlv.c:191-290 | the walk over a clock description stays within its data; its fields are disjoint and in order |
| Tlv.BodyWalk | linuxptp1103/tlv.c:1145-1224 | the fields of every TLV that is accepted lie within its value, disjoint and in order |
| Tlv.ArrayTestExact | linuxptp1103/tlv.c:115-129 | the length test with its unsigned wrap-around accepts exactly base plus whole records |
| TlvSurvival.EntriesSurvive | linuxptp1103/tlv.c:440-466 | a converted unicast master table walked in the other byte order visits the same offsets |
| TlvSurvival.DescriptionSurvives | linuxptp1103/tlv.c:191-290 | a converted clock description walked in the other byte order has the same parts |
| TlvSurvival.MgtSurvives | linuxptp1103/tlv.c:164-692 | the data of every management id is walked alike before and after conversion |
| TlvSurvival.NsmSurvives | linuxptp1103/tlv.c:694-797 | a converted monitor response has the same foot |
| TlvSurvival.OrgSurvives | linuxptp1103/tlv.c:799-910 | organization and subtype are not converted, so the fields stay the same |
| TlvSurvival.BodySurvives | linuxptp1103/tlv.c:1145-1291 | every TLV accepted in one byte order is accepted, once converted, in the other, with the same fields and pointers |
| TlvSurvival.BodyLocal | linuxptp1103/tlv.c:1145-1224 | the walk over a TLV depends on no byte outside it |
| TlvMembers.DataStructIsConverted | linuxptp1103/tlv.h:193-453 | for every management id the converted fields are just the integers of its packed structure, and the size tested is the size of that structure |
| TlvMembers.DataNumbers | linuxptp1103/tlv.c:164-512 | all members of accepted management data, clock descriptions and master tables included, fill the data, and its integers are just what is converted |
| TlvMembers.DescriptionPointers | linuxptp1103/tlv.c:192-290 | the nine pointers into a clock description: each part begins where the one before it ends, by the lengths in the data |
| TlvMembers.DataAcceptedExactly | linuxptp1103/tlv.c:291-508 | the lengths of management data that are accepted, for every id with a structure of its own and for all others |
| TlvMembers.OrgStructIsConverted | linuxptp1103/tlv.c:799-861 | for every organization and subtype the converted fields are just the integers of its structure, whose size is demanded |
| TlvMembers.NsmNumbers | linuxptp1103/tlv.c:694-797 | head, address and foot of a monitor response fill its value, the foot at its end, and their integers are just what is converted |
| TlvMembers.ValueNumbers | linuxptp1103/tlv.c:1145-1224 | the members of an accepted TLV of any kind fill its value, and their integers are just what is converted |
| TlvMembers.ValueAcceptedExactly | linuxptp1103/tlv.c:1145-1224 | which lengths and contents of a TLV are accepted, for every kind but management |
| TlvInPlace.EntriesPostRecv | linuxptp1103/tlv.c:440-466 | the loop that reads each address length after its conversion converts exactly the fields of the walk in network order, and fails exactly if the walk leaves the data |
| TlvInPlace.EntriesPreSend | linuxptp1103/tlv.c:653-671 | the loop that reads each address length before its conversion converts exactly the fields of the walk in host order |
| TlvInPlace.DescriptionPostRecv | linuxptp1103/tlv.c:191-290 | converts the fields of a clock description one after the other, keeps the pointers, and fails exactly if its parts or its padding do not fit |
| TlvInPlace.NsmPostRecv | linuxptp1103/tlv.c:694-763 | finds the foot behind an address whose length follows from the protocol, and converts it |
| TlvInPlace.MgtPostRecv | linuxptp1103/tlv.c:164-512 | for every management id: accepts exactly the lengths of its rule, and converts exactly its fields |
| TlvInPlace.MgtPreSend | linuxptp1103/tlv.c:514-692 | for every management id: converts exactly the fields the receiver converts back |
| TlvInPlace.MasterTablePreSend | linuxptp1103/tlv.c:653-671 | converting entries first and the size last leaves the bytes of the plain conversion |
| TlvInPlace.ConvertTimingData | linuxptp1103/tlv.c:912-1010 | port number and whole records of both timing TLVs, converted alike in both directions |
| TlvInPlace.TlvPostRecv | linuxptp1103/tlv.c:1145-1224 | accepts exactly what the walk in network order accepts, converts its fields and keeps its pointers |
| TlvInPlace.TlvPreSend | linuxptp1103/tlv.c:1226-1291 | following the pointers kept by the descriptor converts exactly the fields of the walk in host order |
| MsgWalk.SuffixWalk | linuxptp1103/msg.c:184-226 | the walk over the TLVs of a message stops within the received bytes with less than a TLV header left, with all fields in order |
| MsgWalk.SuffixSurvives | linuxptp1103/msg.c:184-239 | converted TLVs are walked alike in the other byte order |
| MsgWalk.SuffixTiles | linuxptp1103/msg.c:192-224 | the descriptors tile the suffix: each starts where the one before ends, all lengths are even |
| MsgRoundTrip.SentIsExamined | linuxptp1103/msg.c:344-489 | the receiver of a sent message reads the type, length, fields and TLVs the sender wrote |
| MsgRoundTrip.SendThenReceive | linuxptp1103/msg.c:344-489 | sending and receiving a well-formed host message succeeds and restores every byte, but for the body time stamp of four types, which reappears in the message's host time stamp |
| MsgRoundTrip.ReceivedIsWellFormed | linuxptp1103/msg.c:392-437 | a message that is accepted has descriptors that tile the suffix up to exactly the message length, is a well-formed host message, and can be converted back |
| MsgMembers.BodyNumbers | linuxptp1103/msg.h:90-179 | the converted fields of every message type are just the integers of its structure, time stamps included only when sending, and the length demanded is its size |
| MsgMembers.ReceivedReads | linuxptp1103/msg.c:344-440 | of an accepted message every integer at its offset in header and body, and every integer of its TLVs, reads in host order what it read in network order, and all other bytes are as they came |
| MsgMembers.SentReads | linuxptp1103/msg.c:442-489 | of a sent message every integer, time stamps included, reads in network order what it read in host order, and all other bytes are as they were |
| Msg.PtpMessage.OnePostRecv | linuxptp1103/msg.c:201-222 | one TLV: refused exactly if odd, too long or malformed, else converted with its header |
| Msg.PtpMessage.SuffixPostRecv | linuxptp1103/msg.c:184-226 | converts and attaches exactly the TLVs of the walk, or reports a bad message exactly if the walk fails |
| Msg.PtpMessage.SuffixPreSend | linuxptp1103/msg.c:228-239 | converting the attached TLVs, each value before its header, is the conversion of the whole walk |
| Msg.PtpMessage.PostRecv | linuxptp1103/msg.c:344-440 | success, error code, attached TLVs, the values that all integers read as and the body time stamp, for every input; a message refused for its header is unchanged, one refused for its type or length has only its header converted |
| Msg.PtpMessage.PreSend | linuxptp1103/msg.c:442-489 | leaves a well-formed host message with every integer readable in network order and nothing else changed; fails exactly for an unknown type |
| Msg.PtpMessage.MonitorForward | linuxptp1103/monitor.c:34-52 | the buffer sent and converted back in place is as before, with the same TLVs, but for the sequence number, which is one higher, and the body time stamp |
| Msg.PtpMessage.TlvAppend | linuxptp1103/msg.c:127-162 | a TLV is appended behind the last one exactly if the buffer has room, and the message length grows by it |
| Msg.AppendedTile | linuxptp1103/msg.c:491-501 | with its length filled in, an appended TLV continues the tiling of the suffix |
| PiServo.EstimateMultipliesRates | linuxptp1103/pi.c:101-103 | the new drift multiplies the corrected rate with that seen in the offsets |
| PiServo.NoWindup | linuxptp1103/pi.c:138-146 | the integral term that is accepted leaves the drift within the frequency range |
| PiServo.NeverWindsUp | linuxptp1103/pi.c:64-178 | on every run with resets and changes of gains: the initial frequency until the first lock or jump, and from then on drift, last frequency and result within the maximum |
| PiServo.DriftIsIntegral | linuxptp1103/pi.c:138-148 | between steps and limits the drift is the integral of the weighted offsets, and the frequency the proportional term on top of it |
| PiServo.LimitedGain | linuxptp1103/pi.c:161-167 | a gain is the scaled power of the interval while that times the interval stays within its norm, and else the norm divided by the interval |
| PiServo.EstimateInterval | linuxptp1103/pi.c:90-93 | the wait for the estimate is positive and at most 1000 s, also without an integral gain |
| PiServo.PiServo.Sample | linuxptp1103/pi.c:64-155 | the object does what the function on values says that the run lemmas are about |
| PiServo.LocksExactly | linuxptp1103/pi.c:81-124 | the second sample starts over, waits or locks, and locks with a jump exactly if the offset is beyond a threshold, the first one counting only at the first update |
| PiServo.UnlocksExactly | linuxptp1103/pi.c:125-152 | a locked servo starts over exactly if the offset is beyond the step threshold |
| PiServo.PiServo.SyncInterval | linuxptp1103/pi.c:157-171 | both gains follow the interval, or stop at their norms |
| PiServo.PiServo.Reset | linuxptp1103/pi.c:173-178 | only the sample count is forgotten, the drift is kept |
| ServoSample.Servo.Sample | linuxptp1103/servo.c:121-155 | a servo is stable exactly if it is locked, a threshold is set, and the last samples, as many as configured, were all locked with an offset below it |
| ServoSample.Servo.CheckOffsetThreshold | linuxptp1103/servo.c:105-119 | the counter runs down over small offsets and starts again on a large one |
| ServoSample.NextReport | linuxptp1103/servo.c:105-119 | a small report makes the run of small ones longer by one, any other ends it |
| ServoShm.EveryRunIsSafe | linuxptp1103/servo.c:198-367 | in every interleaving of any number of processes and with any failing system calls: at most one creator, no mapping before the semaphore is initialised, exclusive critical sections, and every successful read returns the latest completed update, which was for the wanted domain |
| ServoShm.StepKeeps | linuxptp1103/servo.c:198-367 | the invariant behind it is kept by every single step |
| ServoShm.CreatorKeeps | linuxptp1103/servo.c:233-265 | initialization publishes the magic number only over a ready semaphore and an empty state |
| ServoShm.UpdateKeeps | linuxptp1103/servo.c:310-334 | a writer holds the semaphore alone, and has written what it has passed |
| ServoShm.ReadKeeps | linuxptp1103/servo.c:339-367 | what a reader holds is the latest completed update |
| ShmOutcomes.ReadOutcome | linuxptp1103/servo.c:339-367 | in every reachable state and with any moves of others in between, a read that finds the semaphore free is refused exactly if there is no completed update or the latest one is for another domain, and otherwise returns the state of the latest one |
| ShmOutcomes.UpdateOutcome | linuxptp1103/servo.c:310-334 | an update that finds the semaphore free becomes the latest one, whatever others do in between |
| ShmOutcomes.CreateOutcome | linuxptp1103/servo.c:198-265 | a process that finds no object gets attached to the one it creates, published with a free semaphore and no state, whatever others do in between |
| ShmOutcomes.JoinOutcome | linuxptp1103/servo.c:203-292 | once the object is published every process that calls create gets attached |
| ShmOutcomes.CriticalCompletes | linuxptp1103/servo.c:316-366 | a process that has the semaphore completes its operation and releases the semaphore, with the result fixed when it got it |
| ShmOutcomes.ReadsOwnUpdate | linuxptp1103/servo.c:198-367 | a process alone that creates, updates and reads gets its own state back for the same domain, and a refusal for any other |
| ServoShm.EarlyLookFaults | linuxptp1103/servo.c:224-272 | a run on which a second process faults, as it looks before the object has its size |
| ServoShm.SafeToLookExactly | linuxptp1103/servo.c:233-272 | from a state without a fault no way of going on leads to one, if and only if the object has its size |
| ServoShm.FaultsExactly | linuxptp1103/servo.c:266-272 | a run faults exactly if some process looks for the magic number before the object has its size |
| TransparentClock.CompleteSyfup | linuxptp1103/tc.c:179-239 | the first half is kept, the second sends the Follow_Up with residence, peer delay and asymmetry added; every message has its own correction again afterwards |
| TransparentClock.CompleteRequest | linuxptp1103/tc.c:121-139 | a request is kept at its egress port with residence and ingress port |
| TransparentClock.CompleteResponse | linuxptp1103/tc.c:141-177 | the response leaves with the residence of the first request it answers, which is forgotten; without one it does not leave; its correction is restored |
| TransparentClock.FirstPair | linuxptp1103/tc.c:188-207 | the first kept message that pairs, or none |
| TransparentClock.Blocked | linuxptp1103/tc.c:55-119 | along a spanning tree requests leave only towards the master, everything else only from the master's side away from it |
| TransparentClock.FwdFolup | linuxptp1103/tc.c:411-424 | each unblocked port completes on its own, with the same original correction |
| TransparentClock.FwdEvent | linuxptp1103/tc.c:268-313 | an event message leaves unchanged through every unblocked port once, and each of them completes with its own residence, scaled by the rate ratio |
| TransparentClock.FwdResponse | linuxptp1103/tc.c:431-444 | what each port sends and what requests are left, port by port |
| TransparentClock.Port.Prune | linuxptp1103/tc.c:504-519 | drops what is out of date at the front of the list |
| TcPairing.PrunedExactly | linuxptp1103/tc.c:258-266 | as messages are kept in order of time, that is exactly what is a second old |
| TcPairing.EitherOrder | linuxptp1103/tc.c:179-239 | both orders of a Sync and its Follow_Up send the Follow_Up once, with the residence of the Sync, the peer delay and the asymmetry added, and keep nothing |
| TcPairing.ResidenceIsAdded | linuxptp1103/tc.c:224-227 | where no value exceeds its range, residence and peer delay times 2^16 are added on top of correction and asymmetry |
| TcPairing.ResidenceExactly | linuxptp1103/tc.c:302-308 | the residence is the time from the receive stamp to the transmit stamp, stretched by the rate ratio and rounded towards zero |
| TcPairing.NeverBothKept | linuxptp1103/tc.c:336-355 | on every run no list holds two messages that belong together |
| TcPairing.RunOutcome | linuxptp1103/tc.c:179-239 | after any run without repeated messages each value has left as often as there are Follow_Ups with a Sync that are to be sent as it: every one once, with the residence of its Sync, and nothing else; just the other halves are kept |
| TcPairing.PairsAreSent | linuxptp1103/tc.c:179-239 | in particular a value has left exactly if it is the Follow_Up of a pair with the residence of its Sync, the peer delay and the asymmetry on top of its correction |
| TcPairing.OrderDoesNotMatter | linuxptp1103/tc.c:179-239 | runs with the same messages in any order send and keep the same, equally often |
| TcPairing.AnswerExactly | linuxptp1103/tc.c:141-177 | a response leaves through a port exactly if it is not blocked and a request is kept that came in there, from the same requester and with the same number |
| TcPairing.AnswersIndependent | linuxptp1103/tc.c:431-444 | what leaves through a port does not depend on the ports served before |
| TcPairing.EachRequestOnce | linuxptp1103/tc.c:121-177 | on every run each stored request is answered once, or dropped, or still kept |
| PortFsm.MachineFacts | linuxptp1103/fsm.c:21-337 | in all four machines: only a completed initialization makes a port work, a fault always stops it, the ways into initialization, and states that are never reached (a slave-only port never gets to a master state or passive) |
| PortFsm.FaultyExactly | linuxptp1103/fsm.c:21-337 | exactly when a port is faulty, in all four machines |
| PortFsm.DisabledExactly | linuxptp1103/fsm.c:21-337 | exactly when it is disabled, in all four machines |
| PortFsm.MasterExactly | linuxptp1103/fsm.c:21-220 | exactly when an ordinary port is about to become a master, a master, or a grandmaster |
| PortFsm.PassiveExactly | linuxptp1103/fsm.c:21-220 | exactly when an ordinary port is passive |
| PortFsm.OnlyOrdinary | linuxptp1103/fsm.c:222-337 | under the other machines no event leads into these states |
| PortFsm.ListensExactly | linuxptp1103/fsm.c:21-337 | exactly when a port listens, in all four machines |
| PortFsm.UncalibratedExactly | linuxptp1103/fsm.c:21-337 | exactly when it is uncalibrated, in all four machines |
| PortFsm.SlaveExactly | linuxptp1103/fsm.c:21-337 | exactly when it is a slave, in all four machines |
| PortFsm.DesignatedMasterExactly | linuxptp1103/designated_fsm.c:23-64 | exactly when a designated master is one |
| PortLifecycle.Port.Initialize | linuxptp1103/port.c:2021-2132 | called only with no open descriptors; stores descriptors also when it fails late |
| PortLifecycle.Port.Disable | linuxptp1103/port.c:1989-2019 | no descriptor is left open or stored |
| PortLifecycle.Port.StateUpdate | linuxptp1103/port.c:3833-3875 | keeps to its specification, and its calls meet the demand of initialization |
| PortLifecycle.Port.Dispatch | linuxptp1103/port.c:2977-3007 | the recursive dispatch ends, for all machines and answers of the environment |
| PortLifecycle.DispatchInStep | linuxptp1103/port.c:2977-3007 | a dispatch never ends in INITIALIZING, and leaves descriptors open exactly while enabled, unless it is the one exception |
| PortLifecycle.NewPortStaysInStep | linuxptp1103/port.c:2874-3007 | on every run of a new port, if and only if it does not begin with that exception |
| PortLifecycle.SkippedInitialization | linuxptp1103/port.c:3833-3875 | told that its initialization is complete, a new port works without a descriptor open |
| PortLifecycle.ClosedAgainExactly | linuxptp1103/port.c:2125-2131 | exactly when descriptors are closed that were closed before |
| PortLifecycle.LateFailureClosesAgain | linuxptp1103/port.c:2091-2131 | it happens on the first dispatch if initialization fails late |
| SyncFollowUp.SyncPort.ProcessSync | linuxptp1103/port.c:2792-2813 | an accepted Sync gets the asymmetry added and completes a stored Follow_Up with its number, or displaces what is stored; a one-step Sync synchronizes alone; all arguments of the call are written out |
| SyncFollowUp.SyncPort.ProcessFollowUp | linuxptp1103/port.c:2445-2453 | an accepted Follow_Up completes a stored Sync with its number, with its own origin time, correction and interval, or displaces what is stored |
| SyncFollowUp.SyncPort.FlushLastSync | linuxptp1103/port.c:1921-1927 | nothing is stored and nothing synchronizes |
| SyncFollowUp.RunIsGreedy | linuxptp1103/port.c:1485-1574 | the machine calls for exactly the matching neighbours of the stream, cut up from the left, and for one-step Syncs |
| SyncFollowUp.EachMessageOnce | linuxptp1103/port.c:1485-1574 | every call comes from a pair with equal numbers or a one-step Sync, and no message is used twice |
| SyncFollowUp.BothOrders | linuxptp1103/port.c:1531-1559 | same number, times, corrections and corrected origin time in both orders; the same call exactly if both messages tell the same interval |
| SyncFollowUp.IntervalsDiffer | linuxptp1103/port.c:1531-1559 | a pair for which the order decides which interval is passed on |
| SyncFollowUp.MessagesAddUp | linuxptp1103/port.c:1503-1566 | every two-step message is half of a pair, a counted mismatch, flushed, or stored |
| ForeignMasters.ForeignClock.Prune | linuxptp1103/port.c:320-342 | leaves at most the newest two announcements; the counter is the length of the list |
| ForeignMasters.PrunedExactly | linuxptp1103/port.c:320-342 | pruning leaves just those of the newest two announcements that are not out of date, exactly unless the second newest is in date and the newest is not |
| ForeignMasters.SteadyIntervalIsExact | linuxptp1103/port.c:320-342 | so it is while the announce interval stays the same |
| ForeignMasters.LifetimeIsFour | linuxptp1103/port.c:143-161 | an announcement counts for 4 s at an interval of 1 s, twice as long for each step up, half as long for each step down |
| ForeignMasters.OutOfDateInFront | linuxptp1103/port.c:334-341 | an input for which an announcement out of date is left, as the interval changed |
| ForeignMasters.Port.AddForeignMaster | linuxptp1103/port.c:381-439 | a new clock's first announcement is not counted; a later one matters if it makes the clock qualify or differs from the one before; all senders stay distinct and all counters right, at most three |
| ForeignMasters.Port.UpdateCurrentMaster | linuxptp1103/port.c:2159-2192 | an announcement of the best clock matters only if it differs from the one before |
| ForeignMasters.Port.ComputeBest | linuxptp1103/port.c:2839-2872 | the scan that clears losers on its way chooses as if it did not, and so, for a strict order, a qualified clock that no other one beats, or none exactly if none is qualified; the chosen clock and those it overtook keep their pruned announcements, and exactly the qualified clocks that lost their comparison have none left |
| ForeignMasters.BestIsUnbeaten | linuxptp1103/port.c:2863-2868 | among clocks with different senders and with a strict order the choice is qualified and no other qualified clock beats it; none is chosen exactly if none is qualified |
| ForeignMasters.UnbeatenExactly | linuxptp1103/port.c:2863-2868 | the scan chooses an unbeaten clock among any clocks with different senders, if and only if the comparison of datasets, senders included, is a strict order among different senders |
| ForeignMasters.CircleIsBeaten | linuxptp1103/port.c:2863-2868 | clocks with the same announced fields and different senders, and a comparison that goes in a circle, for which the choice is beaten |
| Mmedian.Mmedian.Sample | linuxptp1103/mmedian.c:44-77 | returns the median of the last samples since the reset, as many as the filter holds, and keeps the index sorted |
| Mmedian.Mmedian.MakeRoom | linuxptp1103/mmedian.c:49-59 | the replaced slot is off the sorted index, the others stay in order |
| Mmedian.Mmedian.InsertIndex | linuxptp1103/mmedian.c:61-68 | the index is a sorted permutation of all live slots again |
| Mmedian.Mmedian.Reset | linuxptp1103/mmedian.c:79-84 | no sample is remembered |
| Mmedian.SortedIndexMedian | linuxptp1103/mmedian.c:72-76 | the middle of the sorted index holds the median of the window, defined by sorting it |
| Mmedian.RingStep | linuxptp1103/mmedian.c:48-70 | the ring keeps exactly the newest samples |
| Mmedian.EvenMedian | linuxptp1103/mmedian.c:74-76 | the mean of the middle two lies between them exactly if their sum fits into 64 bits |
| Mmedian.MedianOverflows | linuxptp1103/mmedian.c:74-76 | two samples whose median is not between them |
| Mmedian.SortedUnique | linuxptp1103/mmedian.c:61-68 | there is only one way to sort a window |
| Pqueue.Pqueue.Heapify | linuxptp1103/pqueue.c:41-62 | ends, restores the heap below a place in disorder, and keeps the elements |
| Pqueue.Pqueue.Insert | linuxptp1103/pqueue.c:105-128 | keeps heap and elements, growing the array twofold when full; without memory nothing changes |
| Pqueue.Pqueue.SiftUp | linuxptp1103/pqueue.c:118-125 | the free place moves up until the new element fits |
| Pqueue.Pqueue.Extract | linuxptp1103/pqueue.c:90-103 | takes out a greatest element, once; nothing exactly if the queue is empty |
| Pqueue.RootIsGreatest | linuxptp1103/pqueue.c:97-97 | in a heap no element is above the first |
| Pqueue.SwapDown | linuxptp1103/pqueue.c:56-61 | swapping with the greater child moves the disorder down |
| Pqueue.SwapUp | linuxptp1103/pqueue.c:121-124 | moving a smaller parent down moves the disorder up |
| ClockCheck.ClockCheck.Sample | linuxptp1103/clockcheck.c:62-114 | a sample within a second of the last record, by either clock, changes nothing, unless the clock went back; any other is recorded, with an alarm as the function on values says |
| ClockCheck.AlarmExactly | linuxptp1103/clockcheck.c:90-107 | an alarm means exactly that the clock gained more than the fastest or less than the slowest clock within the limit could have |
| ClockCheck.BackwardRaisesAlarm | linuxptp1103/clockcheck.c:74-107 | a clock that has gone back since the last record raises an alarm |
| ClockCheck.NoFalseAlarm | linuxptp1103/clockcheck.c:54-140 | on every run of a clock within the limit, whose corrections are all reported, no sample raises an alarm |
| ClockCheck.RunsStartTracked | linuxptp1103/clockcheck.c:43-60 | so it is from a fresh check on, at any time |
| ClockCheck.TracksStep | linuxptp1103/clockcheck.c:54-140 | set_freq, step, reset, sample and the passing of time keep the recorded time stamp within reach |
| ClockCheck.ClockCheck.SetFreq | linuxptp1103/clockcheck.c:116-124 | the range of corrections since the last record includes the new one |
| ClockCheck.ClockCheck.Step | linuxptp1103/clockcheck.c:136-140 | a step moves the recorded time stamp, with wrap-around |
| ClockCheck.ClockCheck.Reset | linuxptp1103/clockcheck.c:54-60 | neither frequency nor time stamp is known |
| Stats.Stats.AddValue | linuxptp1103/stats.c:47-60 | extremes, mean, squares and squared deviations are those of all values so far |
| Stats.Stats.GetResult | linuxptp1103/stats.c:67-80 | no result exactly without values; else extremes, greatest magnitude, mean, and the squares of rms and standard deviation of all values since the reset |
| Stats.DeviationStep | linuxptp1103/stats.c:57-59 | the one-pass step gives the squared deviations from the new mean |
| Stats.VarianceIsLeast | linuxptp1103/stats.c:77-77 | the deviations are least around the mean, and equal the squares less the square of the mean |
| Stats.ResultDescribes | linuxptp1103/stats.c:67-80 | the variance is not negative, so its root exists, and equals mean square less squared mean |
| SeqidWindow.AheadPasses | linuxptp1103/sad.c:239-281 | every number one to the window's size ahead passes, wrap-around included |
| SeqidWindow.InOrderAllPass | linuxptp1103/sad.c:219-281 | no stream with gaps within the window is ever interrupted |
| SeqidWindow.PassesExactly | linuxptp1103/sad.c:259-276 | exactly which numbers pass: all of other messages, without a window or without a last number, and else those ahead and those the wrap-around lets through |
| SeqidWindow.WindowIsExact | linuxptp1103/sad.c:259-276 | the check is just the window, if and only if the association is neither leaky nor blind |
| SeqidWindow.LeakyExamples | linuxptp1103/sad.c:259-276 | numbers behind the last one that pass |
| SeqidWindow.SecurityAssociation.SetLast | linuxptp1103/sad.c:219-234 | minus one forgets the number, others are cut to 16 bits |
| SeqidWindow.SecurityAssociation.SetWindow | linuxptp1103/sad.c:496-513 | exactly the windows from 0 to 32767 are taken |
| Phc2sys.Domain.Reconfigure | linuxptp1103/phc2sys.c:382-466 | the source is the one clock that can be a source and only if it is a slave; sinks have distinct indices and stand for every clock in a sink state; it postpones exactly if there is no such choice |
| Phc2sys.Domain.FindDstClock | linuxptp1103/phc2sys.c:370-380 | a selected sink with the index, or none exactly if there is none |
| Phc2sys.Domain.Classify | linuxptp1103/phc2sys.c:412-440 | one more clock: as a sink, standing in for it, or counted as a source |
| Phc2sys.Verdict | linuxptp1103/phc2sys.c:441-458 | what count and slave found say about the clocks |
| Phc2sys.SelectIsFirstGreatest | linuxptp1103/phc2sys.c:468-501 | the domain to borrow from is the first of the greatest priority among those with a source |
| Phc2sys.Reconfigure | linuxptp1103/phc2sys.c:484-526 | with several domains and some source among them every domain ends with a source: its own, or that of the selected domain; or the first domain without a clear choice stops it |
| Phc2sys.Borrow | linuxptp1103/phc2sys.c:520-525 | domains without a source of their own, or without a priority, take the selected one |

## Left out

- Floating point: `double` is `real`; overflow in casts to integers, NaN and infinities are not modelled. The linear-regression servo therefore demands positive weights; what becomes of a division of zero by zero is said below.
- Signed 64-bit overflow in differences of offsets (pi.c), which C leaves undefined; unbounded integers are used there. The PI servo also takes its powers of the interval from the caller.
- The byte order of the host: it is little-endian, as on the machines the daemon runs on. On a big-endian host all conversions are the identity.
- Time stamps in Sync and Announce bodies: they are read on receipt but not converted on sending, as in the source, so they are part of the bytes that are restored.
- Fixed-layout TLVs: their conversions are tables of fields instead of one statement per field; the order of conversions within one of them is not kept. The counters of port statistics are little-endian on the wire and are octets here.
- Memory: pools, reference counts and failing allocations of TLV descriptors, messages and foreign clocks; only the priority queue's growth can fail. A priority queue of capacity zero is not modelled, as doubling never makes room in it.
- Host clock readings: they are parameters or fields set in advance. The time a transparent clock forwards a message at is part of the message.
- Msg.PtpMessage.PostRecv: does not say what a message refused for its TLVs leaves in the buffer, as the source may stop halfway through a conversion and its callers drop the message.
- Msg.PtpMessage.PreSend: says nothing about host messages that are not well formed, as the source checks nothing when sending.
- Linreg.LinregServo.TakeSample: does not cover samples that leave a single abscissa among the four newest points. The source divides zero by zero there and goes on with a value that is not a number, which no real stands for; Linreg.LinregServo.Observe says exactly which samples these are.
- Linreg.LinregServo.Regress: where a size has a single abscissa in its window, the slope and intercept it is left with are arbitrary but for the slope not being zero, as a value that is not a number counts as a slope; so in Refit and Estimate.
- Linreg.LinregServo.SetFrequency: the maximum frequency, and so the correction the servo starts with, is less than 1e9 ppb. The configuration admits values up to INT_MAX; a clamped frequency of -1e9 ppb would make the rate that the source divides by zero. The same holds for TakeSample.
- Linreg.LinregServo.SyncInterval: has to come before the first sample; a new servo has an interval of zero, by which the source would divide.
- Logging, notifications, statistics counters other than the mismatch counters, and the service statistics of ports.
- ServoShm: memory is sequentially consistent; destroying the object, and the sibling structures for restart detection and slave stability, are not modelled. Writing the initial contents takes two steps instead of one per byte.
- TransparentClock: sends and transmit time stamps succeed; faults dispatched in mid-operation, authentication TLVs, one-step Syncs that are made two-step, and forwarding of Announce, signaling and management messages are not modelled.
- PortLifecycle: timers other than their descriptors, renewing the transport, and the dispatch of transparent clocks.
- SyncFollowUp: whether a message is accepted (state, source, follow-up information TLV), the check of socket time stamps, and the monitoring of the sync interval; a change of state during synchronization appears as a flush between messages.
- ForeignMasters: the dataset comparison is a parameter. The receiver and the local priority of a dataset are those of the port for all its clocks, so they belong to that parameter. Time properties and the path trace of the current master are not modelled, nor is freeing the list.
- Stats: the count of values is unbounded, so its wrap-around after 2^32 values is not modelled; roots are given by their squares.
- ClockCheck: the comparison of a frequency read back from the clock (clockcheck_freq) is a single test without effect on the rest.
- Phc2sys: the device index after a reinitialization is a parameter; servos and statistics of clocks are not modelled.
- SeqidWindow: integrity check values and key handling.
- bmc.c, clock.c and tsproc.c are not part of this model.
