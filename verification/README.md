# Verified model of the battery-bank controller firmware

The firmware connects battery racks ("clusters") in parallel, talks to them over TCP and Modbus, watches for faults
and reports a common state of charge. This project models six of its components in Dafny and proves what they promise.
`dafny verify dfyconfig.toml` checks everything.

* **Selection and the central machine** (`ClusterSelection`, `CentralSpec`, `CentralLaws`, `CentralRuns`,
  `CentralStall`, `CentralProgress`, `CentralControl`). A bubble sort and a sliding window choose the clusters to
  connect; the choice is optimal over all subsets of the candidates, and unique. A nine-state machine closes their
  contactors one at a time. `CentralSpec` gives it as a transition relation with its inductive invariant,
  `CentralLaws` says in the fields of the clusters what each call sends and where it leads, `CentralRuns` proves
  safety over whole runs in which the racks may report anything between two calls, `CentralStall` shows when closing
  waits for ever, `CentralProgress` when it ends in Run, and `CentralControl` is the controller itself: a class with
  the file-scope variables as fields, whose ghost log of calls is proved to be such a run.
* **Checksum, frames and streams** (`Crc16`, `Crc16Bursts`, `Crc16Parity`, `RbmsFrame`, `RbmsStream`). The two-table
  loop is the bit-by-bit CRC-16 of section 6.2.2 of MODBUS over Serial Line Specification and Implementation Guide
  V1.02, and it detects every burst of up to sixteen bits and every odd number of wrong bits. Builder and checker of
  the rack frames are each other's inverse exactly for payloads of at most 247 bytes, and a stream cut into arbitrary
  chunks gives back the frames.
* **Modbus requests** (`ModbusPlan`, `ModbusMerge`, `ModbusPlanProperties`, `ModbusRequest`, `ModbusDecode`,
  `NetPartition`). Points are sorted in place and merged into register groups by a counting and a filling pass; groups
  become requests, and answers are decoded in step with the plan. Devices are distributed over network endpoints.
* **Faults** (`FaultDebounce`, `FaultMonitor`). Trigger and recover timers on a wrapping tick counter, characterised
  by the sample history alone, and the scan that handles rising edges, derates and fills the bitmap.
* **State of charge** (`BankSoc`). Bounds and monotonicity of the blending formula in integer arithmetic, and every
  result of every run of calls.
* **Ring queue** (`KitQueue`). The byte-addressed ring refines a bounded first-in first-out sequence.

`MachineInts` holds the integer widths and the wrap-around clock difference, `Bytes` the conversion between bytes and
integers, `Occurrences` a count over sequences. Everything the code reads from outside (clock, rack reports, rack
count, bank fault level, data source values, socket behaviour) is an input and may be anything.

## What the proofs brought to light

The model does what the code does; where that differs from its comments or from what one would expect, the difference
is proved.

* Selection allows a voltage difference equal to the limit (the comment says "less than"), closing demands a smaller
  one, so two healthy clusters exactly the limit apart are selected and the second is never asked to close
  (`LimitDifferenceHappens` gives the run). This is the only obstacle: if the racks close when they are asked to,
  closing ends in Run exactly when no selected cluster is exactly the limit away from the master
  (`EpisodeReachesRunIff`).
* The timeout of PowerOff can never be taken, because every call that finds a closed contactor restarts the timer
  first (`PowerOffNeverTimesOut`).
* The running spread check starts its minimum at 10000, so a single cluster more than the limit above 10000 trips it
  (`SpreadExceeded`).
* No code of the repository sets the `ready` flag of a cluster, and `syncClustersFromRtdb` is never called. The model
  lets `ready` change from outside (`SetReady`); without that nothing is ever closed (`UnreadyNeverCloses`).
* The frame builder keeps the body length in eight bits: longer payloads are cut, or give frames that the checker
  calls too short (`BuiltIsReceived`, `RoundTripIffShort`). The frame-too-large check of the reader can never fire,
  since the length field has eleven bits.
* The length guard of the frame builder admits payloads of up to 1492 bytes, the message area has room for 1487
  (`OutcomeByLength`, `OverrunHappens`). In the other direction the checker accepts bodies of up to 1500 bytes, and
  the receiving loop copies the whole frame into a field of 1500, which holds those of bodies up to 1495
  (`AcceptedFitsIff`, `AcceptedButTooLong`); control replies longer than 1500 bytes would afterwards be dropped. The
  model stops at such a copy and says so.
* Merged groups end with their last point, so a wide point followed by an overlapping narrow one can be requested only
  in part (`OverhangHappens`). At a given limit this happens exactly when a point ends beyond the point where its
  group breaks (`CoveredIffNoneSticksOut`); points without overhangs are safe under every limit
  (`CoveredIffNoOverhang`).
* Planner and decoder disagree on 8-bit types, one register against one byte (`AlignedIffWide`).
* Recovery from a fault uses the trigger's comparison with the recover threshold. Only a value that passes it can
  clear a fault (`OnlyPassingSamplesClear`): with `>=` a value below the recover threshold does not recover
  (`NoRecoveryBelowTheBand`), so the fault for too large a temperature difference stands for ever once the difference
  drops from 20 to below 10 degrees at once (`DeltaTempFaultStays`).
* The state of charge that is published is always 0. The rack count is tested before it is read; it starts at zero,
  and the only statement that writes it stands behind the test (`NothingIsComputed`, `PublishBankSoc`;
  `HalfFullReadsEmpty` is an input). The result has the properties of the formula exactly when the kept count is above
  zero (`BankIsBetweenRacksIff`, `BankOfEqualRacksIff`). From a record with such a count, a call that finds no racks
  would yield 5857 (`BlendOfNoRacks`), and a result decided by a limit would be returned without being stored
  (`BmsSocStatistics`).

## Model

| member | source | states |
|---|---|---|
| ClusterSelection.GetBmsCandidateClusters | firmware/app/app_bms_ctrl.c:222-240 | exactly the online, ready, fault-free clusters below the rack count (capped at 20), in ascending order |
| ClusterSelection.SortByVoltage | firmware/app/app_bms_ctrl.c:273-290 | the bubble sort over two parallel arrays: ids stay paired with their voltages, are a permutation, and end ascending in voltage |
| ClusterSelection.LargestWindow | firmware/app/app_bms_ctrl.c:292-311 | the sliding window ends with the longest window of the sorted voltages within the limit, the leftmost of equals |
| ClusterSelection.NoLargerSet | firmware/app/app_bms_ctrl.c:292-322 | no set of candidates with pairwise differences within the limit is larger than the window, contiguous in voltage or not; an equally large one starts no lower |
| ClusterSelection.BuildValidClusterSet | firmware/app/app_bms_ctrl.c:249-339 | success gives a largest compatible set of distinct candidates (and among those the lowest in voltage), at least the minimum number; failure means no candidate or no compatible set of the minimum size |
| ClusterSelection.SelectionIsDecided | firmware/app/app_bms_ctrl.c:249-339 | the success and the failure condition exclude each other, so failure happens exactly when no acceptable set exists |
| ClusterSelection.SelectionInFields | firmware/app/app_bms_ctrl.c:222-339 | a selection in fields: configured racks that are online, ready and fault-free, within the limit, in ascending voltage and by number where voltages are equal; no set of such racks is larger, nor as large and lower |
| ClusterSelection.FailureInFields | firmware/app/app_bms_ctrl.c:249-339 | the selection fails exactly when every non-empty set of such racks is smaller than the minimum |
| ClusterSelection.SelectionIsUnique | firmware/app/app_bms_ctrl.c:249-339 | one snapshot gives one selection, in one order |
| ClusterSelection.GetBmsMasterCluster | firmware/app/app_bms_ctrl.c:348-375 | the first list member closest to the mean voltage, or -1 exactly when all are 10000 V or more away from it |
| ClusterSelection.MasterExists | firmware/app/app_bms_ctrl.c:348-375 | on the snapshot of a successful selection the master is always found, because the 8-bit limit keeps every member near the mean |
| ClusterSelection.MasterIsUnique | firmware/app/app_bms_ctrl.c:348-375 | the description of the master leaves no choice |
| ClusterSelection.MasterInIntegers | firmware/app/app_bms_ctrl.c:348-375 | the master in integers: the first member whose voltage differences to all members add up to the least absolute value, below 10000 for each member |
| CentralControl.Controller.constructor | firmware/app/app_bms_ctrl.c:25-39 | initial state: Init, nothing selected, no pending cluster, master -1, empty log |
| CentralControl.Controller.SyncClustersFromRtdb | firmware/app/app_bms_ctrl.c:46-66 | a synchronisation rewrites online, fault, voltage and contactor of the reported clusters and leaves ready and selected alone |
| CentralControl.Controller.BbmsSelfCheckOk | firmware/app/app_bms_ctrl.c:391-420 | passes exactly when all configured racks are online and fault-free and the bank has no level-1 fault |
| CentralControl.Controller.StandbyArm | firmware/app/app_bms_ctrl.c:848-857 | Prepare with a fresh optimal selection stored, or SelfCheck with the stored list and count untouched |
| CentralControl.Controller.PrepareArm | firmware/app/app_bms_ctrl.c:859-890 | selected marks are exactly the stored list, the master is chosen and asked to close, or the machine returns to Init |
| CentralControl.Controller.MasterGridOnArm | firmware/app/app_bms_ctrl.c:892-908 | the four ways out of MasterGridOn in their order: lost or faulty master, closed contactor, timeout, wait |
| CentralControl.Controller.PendingArm | firmware/app/app_bms_ctrl.c:919-944 | a pending cluster is seen closed, or times out and is deselected, with PowerOff below the minimum |
| CentralControl.Controller.IdleArm | firmware/app/app_bms_ctrl.c:946-987 | the lowest eligible cluster is asked to close, or Run is entered when every selected contactor is closed |
| CentralControl.Controller.RunArm | firmware/app/app_bms_ctrl.c:989-1056 | switch-off commands in order (selected faulty ones, then strays), PowerOff below the minimum or when the voltage spread trips |
| CentralControl.Controller.SpreadExceeded | firmware/app/app_bms_ctrl.c:1040-1054 | trips exactly when two closed selected clusters differ by more than the limit, or one lies more than the limit above 10000 |
| CentralControl.Controller.PowerOffArm | firmware/app/app_bms_ctrl.c:1057-1092 | every closed contactor is asked to open and restarts the timer; Standby exactly when all are open |
| CentralControl.Controller.FaultArm | firmware/app/app_bms_ctrl.c:1094-1111 | all clusters are asked to open; Standby exactly when all are open |
| CentralControl.Controller.BmsCentralRunControl | firmware/app/app_bms_ctrl.c:831-1117 | one call is one transition of the machine, keeps the invariant, and extends the logged run by exactly this call |
| CentralSpec.EnvironmentKeepsInv | firmware/app/app_bms_ctrl.c:46-66 | the invariant survives any change of the reported values |
| CentralSpec.NextKeepsInv | firmware/app/app_bms_ctrl.c:831-1117 | inductive invariant: in MasterGridOn, GridOn and Run the count equals the number of selected clusters and is at least the minimum, the master is in range and selected; a pending cluster is a selected one other than the master |
| CentralSpec.PendingKeepsInv | firmware/app/app_bms_ctrl.c:919-944 | the 8-bit count of valid clusters never wraps below zero |
| CentralLaws.StartDecides | firmware/app/app_bms_ctrl.c:837-890 | Init leads to SelfCheck; Prepare sends its one switch-on, to the master, starts the timer and clears the pending cluster, or goes back to Init without a master |
| CentralLaws.SelfCheckDecides | firmware/app/app_bms_ctrl.c:391-446 | Fault exactly for an offline or faulty rack among those configured or a level-1 fault of the bank, Standby otherwise |
| CentralLaws.StandbyDecides | firmware/app/app_bms_ctrl.c:848-857 | back to SelfCheck exactly when no non-empty set of healthy configured racks within the limit has the minimum size |
| CentralLaws.PrepareMarks | firmware/app/app_bms_ctrl.c:859-871 | exactly the clusters of the stored list are selected afterwards, and nothing else of a cluster changes |
| CentralLaws.MasterDecides | firmware/app/app_bms_ctrl.c:892-908 | GridOn with a restarted timer for a healthy closed master; PowerOff for one that is offline, faulty, or open longer than the timeout; else no change |
| CentralLaws.GridOnNeedsHealthyMaster | firmware/app/app_bms_ctrl.c:892-908 | in every run, whenever GridOn is entered the master was seen online, fault-free and closed |
| CentralLaws.PendingDecides | firmware/app/app_bms_ctrl.c:919-944 | a pending cluster seen closed is done; one that exceeds the timeout is deselected and counted off, with PowerOff below the minimum; else no change |
| CentralLaws.IdleClosesLowest | firmware/app/app_bms_ctrl.c:946-987 | a switch-on is sent exactly when a selected, fault-free, open cluster other than the master lies strictly within the limit of it, and to the lowest such; without one, Run is entered exactly when no selected cluster is open |
| CentralLaws.RunOpensFaultyAndStray | firmware/app/app_bms_ctrl.c:989-1038 | in Run exactly the selected faulty clusters are asked to open and, with at least the minimum closed, the closed ones that are not selected; the selected ones first, each part in ascending order |
| CentralLaws.RunDecides | firmware/app/app_bms_ctrl.c:989-1055 | PowerOff exactly when fewer than the minimum of the selected clusters are closed, two closed ones differ by more than the limit, or one is more than the limit above 10000 |
| CentralLaws.PowerOffOpensClosed | firmware/app/app_bms_ctrl.c:1057-1082 | in PowerOff exactly the clusters with closed contactors are asked to open, once, in ascending order |
| CentralLaws.FaultOpensAll | firmware/app/app_bms_ctrl.c:1093-1097 | in Fault all twenty clusters are asked to open, once, in ascending order, and nothing else is sent |
| CentralLaws.OpeningDecides | firmware/app/app_bms_ctrl.c:1057-1111 | PowerOff and Fault end, for Standby, exactly when every contactor is open; PowerOff restarts its timer until then |
| CentralLaws.StepIsDetermined | firmware/app/app_bms_ctrl.c:831-1117 | what a call finds and reads determines what it leaves and sends, down to the order of the stored list |
| CentralRuns.RunKeepsInv | firmware/app/app_bms_ctrl.c:831-1117 | the invariant holds before and after every call of every run, with the racks changing arbitrarily in between |
| CentralRuns.SwitchOnIsGuarded | firmware/app/app_bms_ctrl.c:873-970 | a call sends at most one switch-on: to the master when leaving Prepare, or in GridOn with nothing pending to a cluster whose fields show it selected, fault-free and open, with a voltage strictly within the limit of that of the master |
| CentralRuns.EntryToRun | firmware/app/app_bms_ctrl.c:972-987 | every entry to Run comes from GridOn and has observed all selected contactors closed, at least the minimum number, the master among them |
| CentralRuns.NoRestartBeforeAllOpen | firmware/app/app_bms_ctrl.c:1057-1111 | after any call that gives up for PowerOff, a later switch-on is preceded by a call that saw all contactors open and, after it, a successful fresh selection |
| CentralRuns.SwitchOnsAreSerial | firmware/app/app_bms_ctrl.c:873-970 | between consecutive switch-ons of an episode the earlier target was observed closed, or its wrap-around time exceeded the timeout and it was deselected; the master, the first target, was always observed closed |
| CentralRuns.TimeoutsAreBounded | firmware/app/app_bms_ctrl.c:892-944 | an episode has at most (initial count - minimum + 1) timeouts, the master's among them; a timeout of the master is the only one of its episode, and otherwise the count shows how many there were |
| CentralRuns.DroppedStaysOut | firmware/app/app_bms_ctrl.c:926-950 | a cluster dropped from the selection gets no switch-on before the next Prepare |
| CentralRuns.PowerOffNeverTimesOut | firmware/app/app_bms_ctrl.c:1066-1090 | the timeout branch of PowerOff is dead: PowerOff lasts exactly until all contactors are open |
| CentralStall.StallIsStutter | firmware/app/app_bms_ctrl.c:946-987 | an idle call of GridOn changes and sends nothing exactly when it is stalled: no cluster eligible, a selected one open |
| CentralStall.StallIsPermanent | firmware/app/app_bms_ctrl.c:946-987 | as long as the racks report the same, a stalled machine never moves |
| CentralStall.LimitDifferenceStalls | firmware/app/app_bms_ctrl.c:300-962 | two healthy clusters exactly the limit apart are compatible for the selection, and a machine that has selected them and closed the lower one is stalled |
| CentralStall.LimitDifferenceHappens | firmware/app/app_bms_ctrl.c:831-987 | for every limit, a run from Init in which the selection succeeds with these two clusters, the lower one closes as master, and the machine is then stalled |
| CentralProgress.TargetIffNotAtLimit | firmware/app/app_bms_ctrl.c:300-962 | after a successful selection, an open selected cluster other than the master may be switched on exactly when its voltage is not exactly the limit away from that of the master |
| CentralProgress.EpisodeStep | firmware/app/app_bms_ctrl.c:892-987 | with racks that close when they are asked to, each call of an episode enters Run, or gets one step nearer without closing a cluster at the limit, or finds something open and nothing to close |
| CentralProgress.EpisodeReachesRunIff | firmware/app/app_bms_ctrl.c:831-987 | with such racks, 2n + 3 calls from the selection of n clusters with all contactors open reach Run exactly when no selected cluster is exactly the limit away from the master; otherwise no number of calls does |
| CentralProgress.StallingRunObeys | firmware/app/app_bms_ctrl.c:831-987 | the run of two racks exactly the limit apart is such an episode |
| CentralRuns.UnreadyNeverCloses | firmware/app/app_bms_ctrl.c:233 | while no rack has ever been ready, no switch-on is sent and the machine stays among Init, SelfCheck, Standby and Fault |
| Crc16.ShiftByPolynomial | firmware/kernel/kit_math.c:189-200 | the register shift is the one of the standard: shift right and, if a 1 fell out, exclusive-or 0xA001 |
| Crc16.TablesAreShift8 | firmware/kernel/kit_math.c:95-141 | all 2 x 256 table entries are the low and high byte of eight shifts |
| Crc16.KitCheckCrc16 | firmware/kernel/kit_math.c:189-200 | for every byte string the two-table loop gives the bit-by-bit CRC with initial value 0xFFFF |
| Crc16.ExampleOfGuide | firmware/kernel/kit_math.c:189-200 | the example of the guide: the bytes 02 and 07 give 1241 |
| Crc16.ResidueIsZero | firmware/kernel/kit_math.c:189-206 | a string checks to zero exactly when it ends with the low and then the high checksum byte of the rest |
| Crc16.KitLtWriteBuf2 | firmware/kernel/kit_math.c:386-390 | writes the two bytes low first and touches nothing else |
| Crc16.KitAppendCrc16 | firmware/kernel/kit_math.c:202-206 | appending the checksum makes the whole check to zero and touches nothing else |
| Crc16Bursts.CrcIsRun | firmware/kernel/kit_math.c:189-200 | the checksum is the register after taking in the message one bit at a time |
| Crc16Bursts.BurstIsDetected | firmware/kernel/kit_math.c:189-200 | equal-length messages that differ only within sixteen consecutive bits never share a checksum |
| Crc16Bursts.TwoByteErrorIsDetected | firmware/kernel/kit_math.c:189-200 | equal-length buffers that differ only within two adjacent bytes never share a checksum |
| Crc16Parity.OddErrorIsDetected | firmware/kernel/kit_math.c:189-200 | equal-length messages that differ in an odd number of bits, wherever these are, never share a checksum |
| RbmsFrame.CreateSendFrameQueueItem | firmware/bsp/bsp_bms_com.c:116-166 | the message is the frame with the body cut at the 8-bit body length; a bad length leaves the zeroed message; the copy overruns the message area exactly for a buffer of 1488 to 1492 bytes |
| RbmsFrame.OutcomeByLength | firmware/bsp/bsp_bms_com.c:116-166 | a payload is sent exactly up to 1487 bytes, overruns the message area exactly from 1488 to 1492, and is refused exactly from 1493 |
| RbmsFrame.OverrunHappens | firmware/bsp/bsp_bms_com.c:116-166 | a payload of 1488 bytes passes the guard and overruns the message area |
| RbmsFrame.WriteHeader | firmware/bsp/bsp_bms_com.c:136-164 | the header carries head, version, body length and the checksum of exactly the body behind it |
| RbmsFrame.HeaderIsDetermined | firmware/bsp/bsp_bms_com.c:321-343 | version and length fields together determine the two header bytes |
| RbmsFrame.FrameInBytes | firmware/bsp/bsp_bms_com.c:116-166 | the link header byte by byte: A5, version 2 below the three low bits of the body length, its eight high bits, checksum low byte first; then the body |
| RbmsFrame.SentInBytes | firmware/bsp/bsp_bms_com.c:116-166 | each field of the envelope stands at its place in a sent frame, and the payload, cut to the 8-bit length, behind them |
| RbmsFrame.AcceptedIffWellFormed | firmware/bsp/bsp_bms_com.c:345-378 | the checker accepts exactly the well-formed frames with 8 to 1500 body bytes |
| RbmsFrame.CodeInBytes | firmware/bsp/bsp_bms_com.c:345-378 | which of the codes 1 to 4 a frame gets, from its bytes and in the order of the tests |
| RbmsFrame.BodyBurstIsRejected | firmware/bsp/bsp_bms_com.c:345-378 | damage within sixteen consecutive body bits is always reported as code 4 |
| RbmsFrame.TwoByteDamageIsRejected | firmware/bsp/bsp_bms_com.c:345-378 | damage within two adjacent body bytes is always reported as code 4 |
| RbmsFrame.OddDamageIsRejected | firmware/bsp/bsp_bms_com.c:345-378 | damage that flips an odd number of body bits is always reported as code 4 |
| RbmsFrame.BuiltIsReceived | firmware/bsp/bsp_bms_com.c:116-378 | for every payload length: refused above 1492, overrun from 1488, and of the frame sent below that what the checker and the receiver make of it, too short when the 8-bit length wraps below 8, else accepted with the payload cut |
| RbmsFrame.RoundTripIffShort | firmware/bsp/bsp_bms_com.c:116-378 | builder and checker are inverse exactly for payloads of at most 247 bytes |
| RbmsStream.TcpLink.FillTo | firmware/bsp/bsp_bms_com.c:419-463 | reads on to the wanted total, whatever the chunk sizes, and never a byte further; errors clear the received length |
| RbmsStream.TcpLink.RecvFullFrame | firmware/bsp/bsp_bms_com.c:384-464 | a success takes exactly the announced bytes from the stream; a wait that times out takes nothing; on a sound link a complete frame is read unless the wait times out |
| RbmsStream.TcpLink.ReceiveLoop | firmware/bsp/bsp_bms_com.c:537-603 | for any concatenation of self-delimiting frames and any chunking, the accepted ones are delivered in order up to the first accepted frame that overruns the 1500-byte message; stopped by a timed-out wait, the loop leaves exactly the frames not taken; on a sound and prompt link nothing else stops it early |
| RbmsStream.TcpLink.ServeRounds | firmware/bsp/bsp_bms_com.c:517-613 | over any number of rounds in which the peer sends more, each round resumes exactly where the last one stopped, so the delivered frames are the accepted ones among all those taken |
| RbmsStream.AcceptedInFields | firmware/bsp/bsp_bms_com.c:533-555 | of any received frames, the delivered ones are exactly those with 8 to 1500 body bytes whose header and checksum are the ones of their body |
| RbmsStream.DamagedIsNeverDelivered | firmware/bsp/bsp_bms_com.c:533-600 | a sent frame whose body is damaged within sixteen consecutive bits is never delivered, whatever else is in the stream |
| RbmsStream.OddDamageIsNeverDelivered | firmware/bsp/bsp_bms_com.c:533-600 | nor is one with an odd number of flipped body bits |
| RbmsStream.AcceptedFitsIff | firmware/bsp/bsp_bms_com.c:345-559 | an accepted frame fits into the queue message exactly when its body has at most 1495 bytes |
| RbmsStream.AcceptedButTooLong | firmware/bsp/bsp_bms_com.c:345-559 | a frame with a body of 1496 bytes is accepted and does not fit |
| RbmsStream.BuiltIsSelfDelimiting | firmware/bsp/bsp_bms_com.c:116-166 | every frame that the builder sends announces its own length and fits into a message |
| RbmsStream.MessagesArriveIntact | firmware/bsp/bsp_bms_com.c:116-464 | all messages with payloads of at most 247 bytes arrive unchanged and in order, and none overruns |
| ModbusPlan.CalcRegister | firmware/bsp/bsp_modbus.c:124-149 | the least number of 16-bit registers that hold a value of the type, and none exactly for an undefined one |
| ModbusPlan.RegistersOfTypes | firmware/bsp/bsp_modbus.c:124-149 | which types take one, two and four registers |
| ModbusPlan.ModbusSort | firmware/bsp/bsp_modbus.c:99-122 | a permutation in which every place keeps its device, sorted by address within every stretch of one device; points of one device and address keep their order |
| ModbusPlan.OneDeviceIsSorted | firmware/bsp/bsp_modbus.c:99-122 | with one device the whole list comes out sorted |
| ModbusMerge.CountGroups | firmware/bsp/bsp_modbus.c:175-207 | the counting pass finds the number of groups of the plan |
| ModbusMerge.FillGroups | firmware/bsp/bsp_modbus.c:209-260 | the filling pass uses up an array of the counted size exactly and leaves the plan in it |
| ModbusMerge.ModbusMergeAddr | firmware/bsp/bsp_modbus.c:158-260 | the two passes agree for every point list, also the empty and the single one |
| ModbusPlanProperties.EntryOf | firmware/bsp/bsp_modbus.c:215-258 | a group runs from its first point to the end of its last point |
| ModbusPlanProperties.GroupWidthIsBounded | firmware/bsp/bsp_modbus.c:185-258 | each point starts inside its group, belongs to the device of the group, and a group covers 1 to maxRegNum + 7 registers |
| ModbusPlanProperties.EveryGroupIsUsed | firmware/bsp/bsp_modbus.c:175-260 | no group of the plan is without a point |
| ModbusPlanProperties.MergedIff | firmware/bsp/bsp_modbus.c:188-207 | the next point joins the group that starts at a point exactly when it is of the same device, starts where the last one ends or one register after its start, and the registers before the last one are fewer than the limit |
| ModbusPlanProperties.NeighboursAreMerged | firmware/bsp/bsp_modbus.c:188-207 | touching or consecutive points of one device share the group that the first one starts, as long as all but the last two have fewer registers than the limit |
| ModbusPlanProperties.GaplessIsOneGroup | firmware/bsp/bsp_modbus.c:159-259 | a gapless list of one device below the limit is one group, from its first register to its last |
| ModbusPlanProperties.WideNeighboursShareRequest | firmware/bsp/bsp_modbus.c:159-259 | two 32-bit points at 10 and 12 are one group 10..13 |
| ModbusPlanProperties.CoveredIffWithinLast | firmware/bsp/bsp_modbus.c:215-258 | at any limit a point lies inside its group with all its registers exactly when it does not end beyond the last point of the group |
| ModbusPlanProperties.CoveredIffNoneSticksOut | firmware/bsp/bsp_modbus.c:215-258 | at any one limit, as the 30 in use, all points are covered exactly when no point ends beyond the point at which its run of joined neighbours breaks |
| ModbusPlanProperties.CoveredIffNoOverhang | firmware/bsp/bsp_modbus.c:215-258 | over all limits together: every point is covered whatever the limit exactly when no point reaches beyond the end of a neighbour it can be merged with; at one limit this is sufficient |
| ModbusPlanProperties.OverhangMayBeCovered | firmware/bsp/bsp_modbus.c:215-258 | at one limit it is not necessary: three points with an overhang and limit 30 give one group that covers them all |
| ModbusPlanProperties.OverhangHappens | firmware/bsp/bsp_modbus.c:215-258 | with the limit in use, a 64-bit value at 10 and a 16-bit value at 11 give a group 10..11 that misses half of the first |
| ModbusRequest.RequestIsExact | firmware/bsp/bsp_modbus.c:461-494 | with the limit 30 the 8-bit count and the 16-bit address lose nothing, and the count is at most 37, within the 125 of the standard |
| ModbusRequest.AskedIffWithinLast | firmware/bsp/bsp_modbus.c:461-494 | the request of its group asks for every register of a point exactly when the point does not end beyond the last point of the group |
| ModbusRequest.EveryPointIsAsked | firmware/bsp/bsp_modbus.c:461-494 | so without overhangs all points are asked for |
| ModbusRequest.BuildTcpRequest | firmware/bsp/bsp_modbus.c:457-471 | the twelve-byte frame, byte by byte: length 6, unit, function, address high byte first, count in one byte; the rest untouched |
| ModbusRequest.BuildRtuRequest | firmware/bsp/bsp_modbus.c:486-496 | the eight-byte frame, byte by byte: unit, function, address high byte first, count, checksum low byte first; it checks to zero |
| ModbusRequest.InitReqModbus | firmware/bsp/bsp_modbus.c:421-504 | the list holds one frame for each group of each function code, in order and as many as were counted; refused exactly when there is no group |
| ModbusRequest.RequestStands | firmware/bsp/bsp_modbus.c:421-504 | where the request of a group of a function code stands in the list |
| ModbusDecode.MbParseFunc03Fun04Respond | firmware/bsp/bsp_modbus.c:894-1024 | the stored readings are those of the decoding recursion from the first point at the requested address, none if there is no such point |
| ModbusDecode.ReadingAt | firmware/bsp/bsp_modbus.c:940-1024 | the decoder without recursion: points in order, each with as many bytes as its type is wide, from where the one before ended modulo 256, until the answer or the points end |
| ModbusDecode.DecodedIsEmptyIff | firmware/bsp/bsp_modbus.c:915-940 | nothing is stored exactly when no point has the requested address or the answer is empty |
| ModbusDecode.AlignedIffWide | firmware/bsp/bsp_modbus.c:894-1024 | a full answer to a gapless group is decoded into exactly its points, each from its own registers with the offset never wrapping, exactly when the group has no 8-bit type |
| ModbusDecode.SortedIsReadable | firmware/bsp/bsp_modbus.c:99-122 | sorting brings the points of one device, no two of which share a register, into the order that the next two rows start from |
| ModbusDecode.AnswerIsDecoded | firmware/bsp/bsp_modbus.c:894-1024 | for sorted non-overlapping points of wide types, the answer to every planned request is decoded into exactly the points of its group |
| ModbusDecode.PointGetsItsRegisters | firmware/bsp/bsp_modbus.c:99-1024 | end to end: the bytes stored for a point are those of its registers in the server |
| NetPartition.CollectEndpoints | firmware/bsp/bsp_modbus.c:2250-2269 | the distinct endpoints in first-occurrence order |
| NetPartition.CountBehind | firmware/bsp/bsp_modbus.c:2288-2297 | the device number of an endpoint |
| NetPartition.FillBehind | firmware/bsp/bsp_modbus.c:2311-2348 | the fill index ends exactly at the counted number, and the array holds the endpoint's devices in input order |
| NetPartition.InitNetUartModeParseCfg | firmware/bsp/bsp_modbus.c:2242-2350 | one task for each endpoint with its count and its devices |
| NetPartition.EndpointsAreDistinct | firmware/bsp/bsp_modbus.c:2250-2269 | no two tasks share an endpoint |
| NetPartition.EndpointsInOrder | firmware/bsp/bsp_modbus.c:2250-2269 | endpoints come in the order of their first devices |
| NetPartition.GroupIsStable | firmware/bsp/bsp_modbus.c:2311-2348 | a group lists, in increasing order of place, exactly the devices of its endpoint |
| NetPartition.DeviceHasOneTask | firmware/bsp/bsp_modbus.c:2242-2350 | each device is in the task of its endpoint and in no other |
| NetPartition.NoDeviceIsLost | firmware/bsp/bsp_modbus.c:2242-2350 | the groups together hold the configured devices, each as often as the input does |
| FaultDebounce.TimersAlwaysFit | firmware/app/app_bms_fault.c:497-566 | after every history the two timers are never both active, the recover timer runs only during a fault, and an active timer started at the first sample of the present stretch |
| FaultDebounce.RiseAndFall | firmware/app/app_bms_fault.c:521-565 | a fault rises exactly when the present stretch of triggering samples has lasted the trigger time, and falls exactly when the present stretch of recovering samples has lasted the recover time |
| FaultDebounce.FaultIsLatched | firmware/app/app_bms_fault.c:497-566 | the fault holds exactly when some sample met the trigger time and none since has met the recover time |
| FaultDebounce.FaultInRealTime | firmware/app/app_bms_fault.c:486-566 | the same in true time over histories of any length, when no time limit plus one sample gap exceeds 2^32 ms |
| FaultDebounce.GreaterThanDecides | firmware/app/app_bms_fault.c:467-566 | values all above the trigger threshold for the trigger time raise the fault; values never above it never do |
| FaultDebounce.LessThanDecides | firmware/app/app_bms_fault.c:467-566 | the same with values below it |
| FaultDebounce.EqualDecides | firmware/app/app_bms_fault.c:467-566 | the same with values less than 0.0001 away from it |
| FaultDebounce.NotEqualDecides | firmware/app/app_bms_fault.c:467-566 | the same with values at least 0.0001 away from it |
| FaultDebounce.GreaterEqualDecides | firmware/app/app_bms_fault.c:467-566 | the same with values at or above it |
| FaultDebounce.LessEqualDecides | firmware/app/app_bms_fault.c:467-566 | the same with values at or below it |
| FaultDebounce.OtherConditionNeverRaises | firmware/app/app_bms_fault.c:467-566 | a condition outside the enumeration never raises a fault |
| FaultDebounce.BandClears | firmware/app/app_bms_fault.c:536-565 | with >=, values between recover threshold (inclusive) and trigger threshold, held for the recover time, clear the fault |
| FaultDebounce.LostRackIsReported | firmware/app/app_bms_fault.c:46-46 | one configured fault: its signal at 1 for thirty seconds raises it, and the first 0 clears it |
| FaultDebounce.DisabledStaysInitial | firmware/app/app_bms_fault.c:507-511 | a disabled fault never leaves its initial state |
| FaultDebounce.OnlyPassingSamplesClear | firmware/app/app_bms_fault.c:536-565 | whatever the comparison, while no sample passes it against the recover threshold a standing fault stands |
| FaultDebounce.NoRecoveryBelowTheBand | firmware/app/app_bms_fault.c:541-564 | with the comparison >=, a fault whose value stays below the recover threshold never clears |
| FaultDebounce.DeltaTempFaultStays | firmware/app/app_bms_fault.c:48-48 | a history for one configured fault: 20 degrees for ten seconds raise it, and if the difference then drops below 10 and stays there the fault never clears |
| FaultMonitor.Monitor.DetectMFault | firmware/app/app_bms_fault.c:497-566 | one detection changes the state of its fault only, as the sample demands |
| FaultMonitor.Monitor.ExecuteFaultHandle | firmware/app/app_bms_fault.c:683-730 | the ratio becomes the configured one of a derating fault if that is less, and so that of the longer list of handled faults |
| FaultMonitor.Monitor.UpdateMFaultBitmap | firmware/app/app_bms_fault.c:647-660 | byte n of the 25 is the sum of 2^k over the standing faults 8 n + k, and the bits behind the last fault are clear |
| FaultMonitor.Monitor.BmsFaultDetectLoop | firmware/app/app_bms_fault.c:990-1027 | after every pass all states, the handled faults, the ratio and the bitmap are those of the scans made so far |
| FaultMonitor.HandledOncePerRise | firmware/app/app_bms_fault.c:1000-1010 | every rising edge of a fault is handled exactly once |
| FaultMonitor.DeratingIsLeastEverRisen | firmware/app/app_bms_fault.c:697-710 | the ratio is the least of 100 and the configured ratios of all derating faults that have ever risen |
| FaultMonitor.RatioNeverGrows | firmware/app/app_bms_fault.c:697-710 | no pass raises the ratio again |
| BankSoc.SocConfig.BmsUpdateSocCalcData | firmware/app/app_bms_statistics.c:85-101 | takes over count and values of the racks and the fixed limits |
| BankSoc.SocConfig.BmsSocStatistics | firmware/app/app_bms_statistics.c:138-183 | record and result of one call: 0 without change when the kept count is zero, else the blend of the racks now in the data base; the stored value is left alone when a limit decides |
| BankSoc.NothingIsComputed | firmware/app/app_bms_statistics.c:138-183 | from the zeroed record, whatever the racks report and however often it is called, every result is 0 and the record stays as it is |
| BankSoc.PublishBankSoc | firmware/app/app_bms_statistics.c:1856-1856 | so every level that the only caller publishes is 0 |
| BankSoc.HalfFullReadsEmpty | firmware/app/app_bms_statistics.c:138-183 | two racks at half charge: the blend says 50 %, the program says 0 % |
| BankSoc.ResultsOfRun | firmware/app/app_bms_statistics.c:138-183 | every result of every run from any record: the blend of the racks up to and including the first call that finds none, if the count starts above zero, and 0 otherwise |
| BankSoc.RecordInNumbers | firmware/app/app_bms_statistics.c:85-182 | what a call with a kept count above zero leaves: racks, limits 3000 and 9900, and the result, unless some rack is at or beyond a limit |
| BankSoc.BlendInNumbers | firmware/app/app_bms_statistics.c:154-182 | the formula from the least and the greatest rack: the least up to 3000, the greatest from 9900, and in between the rounded-down quotient |
| BankSoc.BankIsBetweenRacksIff | firmware/app/app_bms_statistics.c:138-183 | the result lies between given bounds on the racks exactly when the kept count is above zero or the lower bound is 0 |
| BankSoc.BankOfEqualRacksIff | firmware/app/app_bms_statistics.c:138-183 | when all racks agree the bank agrees with them exactly when the kept count is above zero or they are all at 0 |
| BankSoc.BankIsMonotone | firmware/app/app_bms_statistics.c:138-183 | no rack's rise lowers the result, across the three regions too, unless the kept count becomes zero |
| BankSoc.BlendIsBetweenRacks | firmware/app/app_bms_statistics.c:154-182 | the formula behind the guard lies between any bounds on the racks |
| BankSoc.BlendIsMonotoneInRacks | firmware/app/app_bms_statistics.c:154-182 | no rack's rise lowers the formula behind the guard |
| BankSoc.BlendIsMonotone | firmware/app/app_bms_statistics.c:169-182 | the formula is monotone in least and greatest rack for any ordered limits |
| BankSoc.BlendFits | firmware/app/app_bms_statistics.c:155-179 | no intermediate leaves 32 bits and the result fits 16 bits, also with no racks |
| BankSoc.BlendOfNoRacks | firmware/app/app_bms_statistics.c:154-182 | the formula makes 5857 out of no racks, an input that no call from the zeroed record gives it |
| KitQueue.Queue.KitQueueInit | firmware/kernel/kit_queue.c:14-46 | -1 exactly for an empty capacity or element size, else an empty queue on the given or a new buffer |
| KitQueue.WriteIsLocal | firmware/kernel/kit_queue.c:76-76 | writing one block changes that block and no other |
| KitQueue.WriteAppends | firmware/kernel/kit_queue.c:76-80 | a write at the tail appends the element to the stored ones |
| KitQueue.MoveDropsOldest | firmware/kernel/kit_queue.c:105-109 | advancing the head drops exactly the oldest element |
| KitQueue.Queue.KitQueueEnqueue | firmware/kernel/kit_queue.c:64-85 | accepted exactly when not full; the element goes to the end, its block alone is written |
| KitQueue.Queue.KitQueueDequeue | firmware/kernel/kit_queue.c:93-115 | delivers the oldest element exactly when not empty; what was accepted is what was delivered followed by what is stored |
| KitQueue.Queue.KitQueueIsEmpty | firmware/kernel/kit_queue.c:122-131 | whether nothing is stored |
| KitQueue.Queue.KitQueueIsFull | firmware/kernel/kit_queue.c:133-142 | whether a capacity of elements is stored |
| KitQueue.Queue.KitQueueCount | firmware/kernel/kit_queue.c:144-153 | accepted minus delivered |
| MachineInts.ElapsedIsExact | firmware/app/app_bms_ctrl.c:379-386 | truncated clocks measure true distances below 2^32 ms |

## Left out

- ClusterSelection.GetBmsMasterCluster: the mean is a real number; the rounding of the one float division is not modelled (the float sums themselves are exact for 20 voltages of 16 bits).
- CentralControl.Controller.BmsCentralRunControl: asks for a rack count of at most 20, since the self-check would index beyond its 20 clusters; an unknown state value (the default branch) cannot occur in the datatype.
- CentralControl.Controller.BbmsSelfCheckOk: asks for at most 20 racks, the size of the table it reads; the second scan over the rack faults is omitted, because the first one has already returned on any fault.
- CentralControl.Controller.SyncClustersFromRtdb: asks for at most 20 racks, the size of the table it writes; the data base reads and the derivation of the power-off fault flag are inputs.
- RbmsFrame.CreateSendFrameQueueItem: reports a copy that leaves the message area and does not describe what it destroys.
- RbmsStream.TcpLink.RecvFullFrame: on a link that is not sound a read may fail or end anywhere, and what is left of the stream is then not described; the duration of waiting is not modelled.
- RbmsStream.TcpLink.ReceiveLoop: stops at a frame that does not fit into the message; the split into reply queue and receive queue and the call-back are not modelled.
- RbmsStream.TcpLink.ServeRounds: the sending half of the loop and reconnecting after a failure are not modelled, nor rounds after an early end of stream.
- ModbusPlanProperties.CoveredIffNoOverhang: exact over all group limits together; for one limit see CoveredIffNoneSticksOut.
- ModbusRequest.InitReqModbus: asks for fewer than 65536 groups, the reach of its 16-bit count; a device that is neither TCP nor RTU and failing allocation are not modelled.
- ModbusDecode.MbParseFunc03Fun04Respond: a reading is the raw bytes; endianness, ratio and offset are not applied, and a point of undefined type, for which the code stores the previous value again, has an empty reading. The bounds test on the point index stands before the read of the point's type, and the answer lies in a buffer that extends past it.
- ModbusDecode.AlignedIffWide: groups of overlapping points are not considered.
- ModbusMerge.ModbusMergeAddr: allocation failure is not modelled.
- NetPartition.CollectEndpoints: asks for at most 255 devices and 16 endpoints, the reach of the 8-bit index and the size of the table.
- NetPartition.CountBehind: asks for at most 255 devices, beyond which the 8-bit index never ends.
- NetPartition.FillBehind: asks for at most 255 devices, for the same reason.
- NetPartition.InitNetUartModeParseCfg: asks for at most 255 devices and 16 endpoints; each group is counted and filled in turn rather than in three passes over all groups, and allocation failure is not modelled.
- FaultDebounce.FaultIsLatched: values and thresholds are real numbers instead of doubles.
- FaultMonitor.Monitor.ExecuteFaultHandle: the log entries of alarms and the shutdown commands to the racks are output and not modelled.
- FaultMonitor.Monitor.BmsFaultDetectLoop: the power limits set from the ratio are output and not modelled; the separate faults of the other core, detected by the same rules, are left out.
- BankSoc.SocConfig.BmsUpdateSocCalcData: asks for at most 20 racks, the size of its table.
- BankSoc.SocConfig.BmsSocStatistics: asks for at most 20 racks, too; the null pointer branch has no counterpart.
- BankSoc.PublishBankSoc: asks for at most 20 racks; the other values published with this one are not modelled.
- CentralProgress.EpisodeReachesRunIff: the racks report nothing new during the episode but the contactors they were asked to move; what happens under other reports is in CentralRuns.
- KitQueue.Queue.KitQueueInit: asks that capacity times element size stays below 2^32, and that a caller's buffer is that large; failing allocation or mutex creation is not modelled. Every operation is one step, as its lock makes it.
- Distributed mode, the superseded single state machine and switching the mode during a run.
- The commands' way to the racks: a switch-on or switch-off is recorded with the id it is called for; the frame that is queued for it does not carry that id.
- `createSendFrame`, the variant of the frame builder that writes to a caller's buffer.
- Function codes other than 3 and 4, control commands and the Modbus command ring.
- Real-time data base, shared memory, sockets, serial lines, CAN, GPIO, logging, JSON, SQLite, NTP and threads.
- State of health and the other aggregate scans, cooling control and the digital input and output logic: plain folds and one-branch decisions.
- The web front end.
