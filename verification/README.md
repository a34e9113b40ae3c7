# Verified model of the camera firmware's stateful core

The firmware of this IP camera keeps its state in a handful of C files: the controller
that starts and stops the recorder, the queue and subscriber tables of the live stream,
the intrusive lists below them, and the text stores for configuration.  This project
models those files in Dafny and proves what they promise.

| file | models |
|---|---|
| `RingList.dfy`, `HList.dfy` | the circular list and the hash-bucket list, on the heap |
| `StreamQueue.dfy`, `ChannelRun.dfy` | one channel's frame queue, its eviction pass and whole runs of producer and consumer |
| `Delivery.dfy`, `Subscribers.dfy` | who is sent which frame, and the tables of subscribers |
| `RecordCtrl.dfy` | the recorder controller's loop |
| `Ini.dfy`, `IniFile.dfy` | the ini store: laws, and the C functions |
| `NetParm.dfy`, `Transcode.dfy` | netmask and gateway checks, the two byte transcoders |
| `CText.dfy`, `PlanConfig.dfy`, `PlanStore.dfy` | the record-plan codec and its store |
| `RecList.dfy` | paging and merging of the list of recordings |
| `Ptz.dfy` | turning the pan/tilt motor |
| `AlarmReport.dfy` | rate limits of the alarms, and the sound detector's interval |
| `RecordPlan.dfy` | the plan table, shared by controller and store |
| `CTypes.dfy`, `Sequences.dfy`, `Subsequence.dfy`, `Wrappers.dfy` | shared notions |

Each C function is a method over arrays, objects or sequences that a loop updates, tied
by its contract to a function of its inputs or of the old state; the laws are lemmas
about those functions, or invariants kept over every run.

Modelling conventions:

- Code under a mutex is one step.  A run of one stream channel is any sequence of such
  steps; a run of the recorder loop is any sequence of rounds, with the recorder's
  callback free to come in between any two steps of a round, and within a stop.
- The recorder, the encoder, the motor and the configuration library are state with
  contracts: the recorder reports that it stopped only if it was running, and the motor
  moves by exactly the steps it is told.
- A round of the recorder loop sees one clock value, and the clock does not go back; a
  day has 86400 seconds.  The file tests and the calendar are inputs.
- `unsigned` byte and slot counts wrap around at 2^32; other numbers are unbounded.

Where the code does not do what its comments or its callers expect, the model follows
the code:

- The report interval of `ak_alarm_set_interval_time` is documented in seconds, but the
  sound alarm compares it with milliseconds (`SoundsHalfSecondApart`; exact conditions in
  `SecondsKeptIff` for a run and `SettingsKeepSecondsIff` for the settings).
- The recorder may stop by itself between the look at its flag and the call that stops
  it, and is then told to stop while stopped (exact condition in `ProtocolIff`).
- `check_net_parm` repairs only gateway bytes under a mask byte of 255; for other masks
  it can accept a gateway outside the net (`UnalignedMaskCanFail`, exact condition in
  `CheckNetParm`).
- The cloud recording registers without private data, and stopping it can free a slot
  that nobody holds (`CloudStopMisses`, `CloudAudioStopMisses`, exact conditions in
  `StopVideoKeepsCounts` and `StopAudioKeepsCounts`).
- A quality change to a full channel drops the user (`QualityChangeToFullDrops`,
  `FifthUserIsLost`, exact condition in `QualityChangeKeepsUserIff`).
- `check_plan_continuity` counts days from today, so a plan checked only after midnight
  does not go on but is started anew (exact condition in `MidnightGoesOn`).

## Model

| member | source | states |
|---|---|---|
| `RingList.InitListHead` | platform/libplat/include/list.h:28-32 | an initialised head is the empty list |
| `RingList.LinkBetween` | platform/libplat/include/list.h:40-48 | linking between two neighbours of a ring inserts one node there and touches only the three |
| `RingList.ListAdd` | platform/libplat/include/list.h:58-61 | the new entry becomes the first of the list |
| `RingList.ListAddTail` | platform/libplat/include/list.h:71-74 | the new entry becomes the last of the list |
| `RingList.UnlinkEntry` | platform/libplat/include/list.h:83-92 | the neighbours are joined: the list without that entry; the entry's own pointers go stale |
| `RingList.ListDel` | platform/libplat/include/list.h:100-105 | the list without the entry, which is poisoned |
| `RingList.ListDelInit` | platform/libplat/include/list.h:134-138 | the list without the entry, which becomes an empty list of its own |
| `RingList.ListReplace` | platform/libplat/include/list.h:114-121 | the new node takes the old one's place anywhere in a ring, also when the old one is a lone head |
| `RingList.ListReplaceInit` | platform/libplat/include/list.h:123-128 | the same, the old node becoming an empty list |
| `RingList.ListMove` | platform/libplat/include/list.h:145-149 | moves an entry to the front of its own or another list; both lists are as expected |
| `RingList.ListMoveTail` | platform/libplat/include/list.h:156-161 | moves an entry to the end of its own or another list |
| `RingList.ListRotateLeft` | platform/libplat/include/list.h:206-214 | the first entry becomes the last |
| `RingList.FullRotationIsIdentity` | platform/libplat/include/list.h:206-214 | rotating a sequence once per element gives the sequence back |
| `RingList.RotateFully` | platform/libplat/include/list.h:206-214 | rotating a heap list once per entry leaves the list as it was |
| `RingList.ListCutPosition` | platform/libplat/include/list.h:251-263 | splits the list after the entry; all four cases, also the two in which nothing is written |
| `RingList.CutAfter` | platform/libplat/include/list.h:225-235 | the part up to the entry goes to one head, the rest stays with the other |
| `RingList.SpliceBetween` | platform/libplat/include/list.h:265-277 | the entries of a list stand between two neighbours of another ring |
| `RingList.ListSplice` | platform/libplat/include/list.h:284-289 | concatenation in front |
| `RingList.ListSpliceTail` | platform/libplat/include/list.h:296-301 | concatenation behind |
| `RingList.ListSpliceInit` | platform/libplat/include/list.h:310-317 | concatenation in front, the source list becoming empty |
| `RingList.ListSpliceTailInit` | platform/libplat/include/list.h:327-334 | concatenation behind, the source list becoming empty |
| `HList.ReadingIsUnique` | platform/libplat/include/list.h:580-586 | the pointers of a bucket determine its sequence of nodes |
| `HList.PprevPointsBack` | platform/libplat/include/list.h:584-586 | every node's `pprev` is the address of the pointer to it |
| `HList.Unlink` | platform/libplat/include/list.h:613-621 | the bucket without the node, first or not |
| `HList.Del` | platform/libplat/include/list.h:623-628 | the same, the node poisoned |
| `HList.DelInit` | platform/libplat/include/list.h:630-636 | the same, the node unhashed; an unhashed node is left alone |
| `HList.AddHead` | platform/libplat/include/list.h:638-647 | the node becomes the first of the bucket |
| `HList.AddBefore` | platform/libplat/include/list.h:651-657 | the node is inserted before a given one |
| `HList.AddBehind` | platform/libplat/include/list.h:659-668 | the node is inserted behind a given one |
| `HList.AddFake` | platform/libplat/include/list.h:671-674 | the node's `pprev` is its own `next` |
| `HList.DelFaked` | platform/libplat/include/list.h:613-628 | deleting a faked node works: apart from the node it touches at most its successor |
| `HList.MoveList` | platform/libplat/include/list.h:695-702 | the whole bucket changes head |
| `StreamQueue.SurvivorsStay` | platform/apps/akipc/dana/dana_av.c:524-545 | closed form of an eviction pass: a frame stays exactly if it is an I-frame with an odd number of I-frames before it or none after it |
| `StreamQueue.SurvivorsInOrder` | platform/apps/akipc/dana/dana_av.c:524-545 | what a pass leaves is an order-preserving subsequence |
| `StreamQueue.SurvivorsHalve` | platform/apps/akipc/dana/dana_av.c:529-538 | of n I-frames gone through, ceil(n/2) are left |
| `StreamQueue.FullPassHalves` | platform/apps/akipc/dana/dana_av.c:524-545 | a pass that runs to the end leaves only I-frames, ceil(n/2) of them |
| `StreamQueue.PassKeepsLastIFrame` | platform/apps/akipc/dana/dana_av.c:529-536 | no pass drops the last I-frame |
| `StreamQueue.PassKeepsNextIFrame` | platform/apps/akipc/dana/dana_av.c:529-536 | an I-frame is dropped only if the next I-frame of the queue is kept |
| `StreamQueue.KeptOrDropped` | platform/apps/akipc/dana/dana_av.c:528-543 | every frame gone through is kept or released, exactly once |
| `StreamQueue.PassKeepsCount` | platform/apps/akipc/dana/dana_av.c:321-332 | a pass that begins with the true byte count ends with it and prints no warning |
| `StreamQueue.VideoQueue.constructor` | platform/apps/akipc/dana/dana_av.c:60-73 | an empty queue of zero bytes |
| `StreamQueue.VideoQueue.Append` | platform/apps/akipc/dana/dana_av.c:562-567 | the new entry is last and its length is added, with 32-bit wrap-around |
| `StreamQueue.VideoQueue.FreeOne` | platform/apps/akipc/dana/dana_av.c:321-332 | the entry is off the list and released; its length is subtracted if the count allows it, else the warning is printed |
| `StreamQueue.VideoQueue.EvictPass` | platform/apps/akipc/dana/dana_av.c:524-545 | over the heap list, for a pass that begins with no mark: the contents afterwards, the frames released and in which order, the 32-bit count and the warnings, that it stops at the first point where the count is within the limit, or at the end, and exactly when it leaves a mark |
| `StreamQueue.VideoQueue.EvictStep` | platform/apps/akipc/dana/dana_av.c:528-538 | what one turn of the pass does to list, mark, count and releases |
| `StreamQueue.VideoQueue.First` | platform/libplat/include/list.h:511-515 | the safe iteration starts with the first entry and the one after it |
| `StreamQueue.VideoQueue.Advance` | platform/libplat/include/list.h:511-515 | the safe iteration goes on with the saved entry although entries before it were freed |
| `StreamQueue.VideoQueue.Pop` | platform/apps/akipc/dana/dana_av.c:426-437 | the first entry is taken off, its length subtracted with 32-bit wrap-around |
| `StreamQueue.VideoQueue.Drain` | platform/apps/akipc/dana/dana_av.c:339-353 | everything is released in order, and what the count is before it is reset |
| `ChannelRun.Run` | platform/apps/akipc/dana/dana_av.c:321-353 | over any interleaving of looks, appends, passes, pops and drains, of any length: each entry queued, popped or released exactly once, pops in order of arrival; the 32-bit count is the queued bytes at every step exactly if the queue never holds 2^32 bytes, and then the warning is dead |
| `ChannelRun.RunAndDrain` | platform/apps/akipc/dana/dana_av.c:339-353 | after any run a drain hands back what is left, and finds the count at zero if the queue never held 2^32 bytes |
| `ChannelRun.QueuedBytes` | platform/apps/akipc/dana/dana_av.c:523-567 | bytes are conserved: appended bytes are queued, popped or released |
| `ChannelRun.StepKeepsExact` | platform/apps/akipc/dana/dana_av.c:321-353 | no step makes a true count false unless it queues 2^32 bytes |
| `ChannelRun.CountExactIff` | platform/apps/akipc/dana/dana_av.c:321-353 | the count is true after every step exactly if the queued bytes stay below 2^32 |
| `ChannelRun.KeptOfLast` | platform/apps/akipc/dana/dana_av.c:524-545 | of the last I-frames of a queue a pass keeps about half |
| `ChannelRun.FullPassLimits` | platform/apps/akipc/dana/dana_av.c:521-546 | of three frames beyond the limit a pass to the end leaves two |
| `ChannelRun.GuardBoundsQueue` | platform/apps/akipc/dana/dana_av.c:520-570 | in every run that keeps to the encoder thread's order, of any length, each pass beginning with no mark: the queue never holds more than 1 MiB and three frames, so the count is always true and the warning dead |
| `ChannelRun.EncodeAndSend` | platform/apps/akipc/dana/dana_av.c:520-570 | the encoder thread's loop, turn by turn, with the sending thread and cancels in between, each pass beginning with no mark: it looks, passes after seeing more than 1 MiB, queues exactly the frames it fetched, in order, and looks again without one; the sending thread takes the first frame; the queue never holds more than 1 MiB and three frames, the count is always true and the warning dead |
| `ChannelRun.TurnMeans` | platform/apps/akipc/dana/dana_av.c:520-570 | one turn in terms of the queue before and after |
| `Delivery.CopyOccupied` | platform/apps/akipc/dana/dana_av.c:400-411 | the session's copy is the occupied slots in order |
| `Delivery.OccupiedInOrder` | platform/apps/akipc/dana/dana_av.c:400-411 | the occupied slots keep the table's order |
| `Delivery.OccupiedExactly` | platform/apps/akipc/dana/dana_av.c:400-411 | each occupied slot is copied as often as it stands in the table, no free one is |
| `Delivery.FromFirstIIsSuffix` | platform/apps/akipc/dana/dana_av.c:443-451 | "from the first I-frame on" is the suffix that starts with the first I-frame |
| `Delivery.PreviewStartsWithI` | platform/apps/akipc/dana/dana_av.c:453-475 | a subscriber with private data gets the frames from the first I-frame on, so an I-frame first |
| `Delivery.OwedMeans` | platform/apps/akipc/dana/dana_av.c:453-475 | a subscriber without private data, behind none that has any, is owed every frame; another all of them exactly if the first popped is an I-frame |
| `Delivery.ChannelSession.constructor` | platform/apps/akipc/dana/dana_av.c:387-413 | a new session has sent nothing and waits for an I-frame |
| `Delivery.ChannelSession.Deliver` | platform/apps/akipc/dana/dana_av.c:443-488 | each popped frame reaches, in order, whoever has no private data and nobody with any before it, at once, and the others from the first I-frame on; when its time stamp is taken over |
| `Delivery.SendQueued` | platform/apps/akipc/dana/dana_av.c:426-489 | with the encoder thread quiet, the session is sent exactly the queued frames, up to a change of subscribers |
| `Delivery.ChannelStep` | platform/apps/akipc/dana/dana_av.c:426-489 | one step on a channel: a frame popped is delivered, any other step delivers nothing |
| `Delivery.SessionTurn` | platform/apps/akipc/dana/dana_av.c:421-502 | one step of an encoder thread or of the sending thread: which channel it pops, and when it moves on or leaves |
| `Delivery.VideoStreamToDana` | platform/apps/akipc/dana/dana_av.c:387-503 | a whole session on both channels, the encoder threads appending and evicting between any two of its steps: what each subscriber has been sent of the frames popped from its channel, that no frame is lost or out of order, and the sending thread's order: it empties the main channel, then the sub channel, and leaves on a change |
| `Subscribers.StartVideoKeepsCounts` | platform/apps/akipc/dana/dana_av.c:1238-1337 | exactly when a start or quality change keeps `count` the number of occupied slots, for any private data |
| `Subscribers.StartAudioKeepsCounts` | platform/apps/akipc/dana/dana_av.c:1357-1424 | exactly when an audio or talk-back start keeps the counts, for any private data |
| `Subscribers.QualityChangeKeepsUserIff` | platform/apps/akipc/dana/dana_av.c:1256-1315 | a quality change keeps the main and sub total exactly if the wanted channel is the user's own, which it then leaves as it is, or has a free slot; the counts stay right and audio is untouched |
| `Subscribers.QualityChangeMoves` | platform/apps/akipc/dana/dana_av.c:1256-1283 | a change to a channel with a free slot moves user and callback and keeps the total |
| `Subscribers.QualityChangeToFullDrops` | platform/apps/akipc/dana/dana_av.c:1290-1315 | a change to a full channel frees the user's slot and leaves the wanted channel as it was |
| `Subscribers.FifthUserIsLost` | platform/apps/akipc/dana/dana_av.c:1256-1315 | five starts and one change after which the fifth user is nowhere: a concrete run |
| `Subscribers.StopVideoKeepsCounts` | platform/apps/akipc/dana/dana_av.c:1439-1460 | exactly when a video stop keeps the counts; private data other than NULL suffices |
| `Subscribers.CloudStopMisses` | platform/apps/akipc/dana/dana_av.c:1441-1460 | a stop without private data can free a slot nobody holds: a concrete run |
| `Subscribers.CloudAudioStopMisses` | platform/apps/akipc/dana/dana_av.c:1464-1474 | the same for the audio input: the count is zero while the cloud's slot is occupied |
| `Subscribers.StopAudioKeepsCounts` | platform/apps/akipc/dana/dana_av.c:1461-1528 | exactly when an audio, talk-back or connection-failure stop keeps the counts; private data other than NULL suffices |
| `Subscribers.CallbackMaxForgets` | platform/apps/akipc/dana/dana_av.c:1488-1526 | a failed connection leaves no slot with its private data and every other slot as it was |
| `Subscribers.RunKeepsCounts` | platform/apps/akipc/dana/dana_av.c:1238-1545 | over any sequence of calls the counts are the occupied slots all the way exactly if every call meets its condition; they are then at most MAX_USER |
| `Subscribers.UserTable.Add` | platform/apps/akipc/dana/dana_av.c:1290-1310 | takes the first free slot, or refuses |
| `Subscribers.UserTable.FreeFirst` | platform/apps/akipc/dana/dana_av.c:1465-1472 | frees the first slot with that private data |
| `Subscribers.AvCtrl.constructor` | platform/apps/akipc/dana/dana_av.c:1554-1557 | all tables are empty |
| `Subscribers.AvCtrl.DanaAvStartVideo` | platform/apps/akipc/dana/dana_av.c:1238-1348 | the new tables and the result, slot by slot: registered in the first free slot of the wanted channel, moved there with its callback, left as it was, or refused with 0 or -1 |
| `Subscribers.AvCtrl.StartVideoBody` | platform/apps/akipc/dana/dana_av.c:1249-1337 | the same as a function of the old tables |
| `Subscribers.AvCtrl.DanaAvStartAudio` | platform/apps/akipc/dana/dana_av.c:1357-1424 | the new tables and the result: the first free slot, or refused with -1; talk-back takes its one slot over; nothing else changes |
| `Subscribers.AvCtrl.DanaAvStop` | platform/apps/akipc/dana/dana_av.c:1432-1528 | the new tables: the first slot that matches is freed and no other, talk-back emptied with a count of zero, a failed connection's slots freed, nothing else changed |
| `Subscribers.AvCtrl.ForgetUser` | platform/apps/akipc/dana/dana_av.c:1488-1526 | every slot of the user is freed in all four tables |
| `RecordCtrl.DayStart` | platform/apps/akipc/record/internal_time.c:14-24 | today's local midnight |
| `RecordCtrl.NextDay` | platform/apps/akipc/record/record_ctrl.c:476-515 | the first enabled day up to the coming Sunday, if any |
| `RecordCtrl.MidnightGoesOn` | platform/apps/akipc/record/record_ctrl.c:488-512 | exactly when a plan recording goes on, however long after its day that is asked: still on that day, its end being the day's last second and the plan on from midnight tomorrow |
| `RecordCtrl.NextWeekDay` | platform/apps/akipc/record/internal_time.h:22-26 | a day later it is the next day of the week |
| `RecordCtrl.EpochIsThursday` | platform/apps/akipc/record/internal_time.h:22-26 | day 0 is a Thursday |
| `RecordCtrl.WeekDayOfMidnight` | platform/apps/akipc/record/internal_time.h:22-26 | the week day does not change within a day |
| `RecordCtrl.ProtocolAlternates` | platform/libapp/include/ak_dvr_record.h:79-96 | a log in which every start found the recorder stopped, and every stop found it running, alternates |
| `RecordCtrl.ProtocolIff` | platform/apps/akipc/record/record_ctrl.c:375-394 | what the controller always keeps is the protocol, exactly if no stop comes right after the recorder stopped by itself |
| `RecordCtrl.RecordControl.constructor` | platform/apps/akipc/record/record_ctrl.c:1152-1179 | a new controller records nothing and assumes the card removed |
| `RecordCtrl.RecordControl.GetVideoRecordError` | platform/apps/akipc/record/record_ctrl.c:175-202 | codes are added to the flags; a self-stop keeps the protocol |
| `RecordCtrl.RecordControl.StopRecord` | platform/apps/akipc/record/record_ctrl.c:375-394 | the recorder is told exactly if the flag does not say that it stopped by itself, which it may do between the look at the flag and the call; neither recording is on |
| `RecordCtrl.RecordControl.ReportException` | platform/apps/akipc/record/record_ctrl.c:204-224 | only the four card flags are kept |
| `RecordCtrl.RecordControl.CheckRecordException` | platform/apps/akipc/record/record_ctrl.c:637-683 | each card flag afterwards, the others unchanged |
| `RecordCtrl.RecordControl.CheckPlanContinuity` | platform/apps/akipc/record/record_ctrl.c:455-518 | goes on exactly if index and weekday are in range and the next enabled window opens within a second of the end; the new end is after now |
| `RecordCtrl.RecordControl.CheckPlanRecordStart` | platform/apps/akipc/record/record_ctrl.c:520-577 | starts exactly if some plan's window contains now, and then the one of least index |
| `RecordCtrl.RecordControl.StartPlan` | platform/apps/akipc/record/record_ctrl.c:557-562 | the recorder is started for that plan |
| `RecordCtrl.RecordControl.CheckPlanRecordStop` | platform/apps/akipc/record/record_ctrl.c:579-596 | goes on exactly before the end or when the plan continues; then the end is after now |
| `RecordCtrl.RecordControl.CheckRecordPlan` | platform/apps/akipc/record/record_ctrl.c:686-702 | with no recording on it starts exactly if a window holds now; a recording goes on exactly before its end or when its plan continues; it ends after now |
| `RecordCtrl.RecordControl.CheckAlarmRecordStart` | platform/apps/akipc/record/record_ctrl.c:704-737 | starts exactly for a trigger later than the last one seen and not before the last scheduled end |
| `RecordCtrl.RecordControl.CheckAlarmRecordStop` | platform/apps/akipc/record/record_ctrl.c:739-771 | the end is extended, capped, never moved back; the first check at start plus max(limit, pre + stop) or later stops |
| `RecordCtrl.RecordControl.Extend` | platform/apps/akipc/record/record_ctrl.c:744-751 | a trigger moves the end on, up to the limit, and never back |
| `RecordCtrl.RecordControl.CheckRecordAlarm` | platform/apps/akipc/record/record_ctrl.c:774-790 | starts exactly for a fresh trigger; a recording's end is extended and capped, and it stops exactly at its end |
| `RecordCtrl.RecordControl.ChangeMode` | platform/apps/akipc/record/record_ctrl.c:797-820 | the mode is switched with nothing recording |
| `RecordCtrl.RecordControl.FormatCard` | platform/apps/akipc/record/record_ctrl.c:885-968 | formatting begins with nothing recording and flags a card that was mounted again |
| `RecordCtrl.RecordControl.SetMode` | platform/apps/akipc/record/record_ctrl.c:1074-1087 | only another mode is requested |
| `RecordCtrl.RecordControl.CheckOrStop` | platform/apps/akipc/record/record_ctrl.c:982-1004 | the mode is checked exactly if no flag is set when it is looked at; else nothing is left recording and the card flags stay |
| `RecordCtrl.RecordControl.LookAtCard` | platform/apps/akipc/record/record_ctrl.c:981-982 | no flag is set exactly if the card is there, mounted, working and not full, nothing was left over and nothing reported |
| `RecordCtrl.RecordControl.CheckMode` | platform/apps/akipc/record/record_ctrl.c:984-995 | only the current mode is checked, with what that does; a plan recording then ends after now, an alarm recording is within its bound |
| `RecordCtrl.RecordControl.StopAndReport` | platform/apps/akipc/record/record_ctrl.c:996-1004 | with exceptions nothing is left recording, and exactly the card flags are kept |
| `RecordCtrl.RecordControl.AfterPause` | platform/apps/akipc/record/record_ctrl.c:1006-1020 | formatting stops any recording, a changed plan table a plan recording, another mode any; nothing asked leaves recordings on; none is started |
| `RecordCtrl.RecordControl.Iterate` | platform/apps/akipc/record/record_ctrl.c:980-1021 | one round, with callbacks between any two steps: the mode is checked exactly if there is no exception, over the round's inputs and the old flags, and with any nothing is left recording; if nothing else is asked, a recording is on afterwards exactly if a window holds now or the plan continues, or a fresh trigger came or the alarm has not ended; never both recordings |
| `RecordCtrl.RecordControl.RecordCtrlMain` | platform/apps/akipc/record/record_ctrl.c:975-1027 | over every run with a clock that does not go back, round by round: no recording on a missing or failing card, none started without a window or a fresh trigger; starts and stops alternate exactly if the recorder never stops by itself between a stop's look at the flag and its call; plan recording only in plan mode, alarm recording only in alarm mode, no alarm recording beyond its bound or triggered before the end of the one before |
| `Ini.LineReadBack` | platform/libapp/demo/onvif_demo/onvif_service.c:77-108 | a written line is read back stripped, also when its end no longer fits the line buffer |
| `Ini.OnlyBlanksGo` | platform/libapp/demo/onvif_demo/onvif_service.c:96-106 | carriage returns, line feeds and spaces are stripped, nothing else |
| `Ini.LinesAfterWrite` | platform/libapp/demo/onvif_demo/onvif_service.c:188-319 | the lines of a rewritten file are the updated lines of the old file |
| `Ini.FindAfterUpdate` | platform/libapp/demo/onvif_demo/onvif_service.c:252-291 | updating lines is updating a map, with duplicate sections and keys and missing sections |
| `Ini.ReadAfterWrite` | platform/libapp/demo/onvif_demo/onvif_service.c:57-319 | a written key reads as its stripped value, every other section or key as before, for any file or none |
| `Ini.ReadAfterWrites` | platform/libapp/demo/onvif_demo/onvif_service.c:57-319 | after any run of writes every key reads as its last value, or as in the beginning |
| `Ini.WriteTwice` | platform/libapp/demo/onvif_demo/onvif_service.c:188-319 | two writes to a key leave the same file as the second alone |
| `IniFile.Gets` | platform/libapp/demo/onvif_demo/onvif_service.c:77-85 | how much one read of a line takes |
| `IniFile.ReadNodes` | platform/libapp/demo/onvif_demo/onvif_service.c:74-85 | the reader's loop gives the file's pieces |
| `IniFile.ReadNodesToEof` | platform/libapp/demo/onvif_demo/onvif_service.c:212-222 | the writer's loop gives the pieces, and one empty piece more exactly if the last piece does not meet the end of the file |
| `IniFile.SameLines` | platform/libapp/demo/onvif_demo/onvif_service.c:212-251 | so the writer works on the same lines as the reader |
| `IniFile.StripBlanks` | platform/libapp/demo/onvif_demo/onvif_service.c:228-239 | a line without its blanks |
| `IniFile.CompactNodes` | platform/libapp/demo/onvif_demo/onvif_service.c:224-251 | all lines stripped, empty ones taken off |
| `IniFile.UpdateLines` | platform/libapp/demo/onvif_demo/onvif_service.c:252-309 | the loop over the list computes the update |
| `IniFile.PutLines` | platform/libapp/demo/onvif_demo/onvif_service.c:293-300 | what is written for the list |
| `IniFile.IniStore.IniReadString` | platform/libapp/demo/onvif_demo/onvif_service.c:57-139 | the value found, cut to the buffer, or the default; the default without a file or without the section |
| `IniFile.IniStore.IniReadInteger` | platform/libapp/demo/onvif_demo/onvif_service.c:152-175 | the number found, or the default for anything that is not all digits, without a file or without the section |
| `IniFile.IniStore.IniWriteString` | platform/libapp/demo/onvif_demo/onvif_service.c:188-319 | the file's new contents |
| `IniFile.IniStore.IniWriteInteger` | platform/libapp/demo/onvif_demo/onvif_service.c:332-340 | the file's new contents |
| `IniFile.ReadMissing` | platform/libapp/demo/onvif_demo/onvif_service.c:57-175 | both readers give the default if the first section of the name has no line for the key |
| `IniFile.ReadPresent` | platform/libapp/demo/onvif_demo/onvif_service.c:57-175 | both readers give what follows the first such line's `=`, cut to the buffer, or as a number |
| `IniFile.WritesThenRead` | platform/libapp/demo/onvif_demo/onvif_service.c:57-319 | after any run of writes a key reads as the last value written, stripped and cut to the buffer, or as before if it was not written |
| `IniFile.IntegerReadBack` | platform/libapp/demo/onvif_demo/onvif_service.c:152-175 | a number that is not negative is read back, a negative one reads as the default |
| `NetParm.ClearLowest` | platform/libapp/demo/onvif_demo/onvif_service.c:363-365 | b & (b - 1) is zero exactly for powers of two |
| `NetParm.NegatedPrefix` | platform/libapp/demo/onvif_demo/onvif_service.c:361-365 | the test passes exactly for 2^32 - 2^k, k from 0 to 32 |
| `NetParm.PrefixBits` | platform/libapp/demo/onvif_demo/onvif_service.c:354-369 | such a value is ones down to bit k and zeros below |
| `NetParm.IsValidNetmask` | platform/libapp/demo/onvif_demo/onvif_service.c:354-369 | accepts exactly the contiguous prefixes |
| `NetParm.CheckNetParm` | platform/libapp/demo/onvif_demo/onvif_service.c:371-421 | exactly which addresses, masks and gateways it accepts, and that the gateway left behind is valid and in the net exactly if the partly masked bytes agreed |
| `NetParm.RepairGateway` | platform/libapp/demo/onvif_demo/onvif_service.c:407-418 | a gateway outside the net takes over the fully masked bytes; it is then in the net exactly if the others agreed |
| `NetParm.AlignedMaskAgrees` | platform/libapp/demo/onvif_demo/onvif_service.c:407-418 | with a byte-aligned mask that condition always holds |
| `NetParm.AndBits` | platform/libapp/demo/onvif_demo/onvif_service.c:407-410 | `&` bit by bit |
| `NetParm.UnalignedMaskCanFail` | platform/libapp/demo/onvif_demo/onvif_service.c:407-418 | an accepted address, mask and gateway that do not meet it |
| `Transcode.EncodeIsUtf8` | platform/libapp/demo/onvif_demo/onvif_service.c:908-936 | the encoder's output is well-formed UTF-8 for the Latin-1 characters |
| `Transcode.AccentExample` | platform/libapp/demo/onvif_demo/onvif_service.c:908-975 | one accented letter, both ways |
| `Transcode.GbToJovision` | platform/libapp/demo/onvif_demo/onvif_service.c:908-936 | the buffer holds the encoding and a NUL, the rest unchanged |
| `Transcode.JovisionToGb` | platform/libapp/demo/onvif_demo/onvif_service.c:950-975 | the buffer holds one byte per round and a NUL |
| `Transcode.RoundTrip` | platform/libapp/demo/onvif_demo/onvif_service.c:908-975 | decoding an encoded text gives the text up to the first NUL, whatever follows it in the buffer |
| `CText.AtoiIntText` | platform/apps/akipc/config/ak_config.c:808-810 | a printed number is read back |
| `PlanConfig.DayClockToSeconds` | platform/apps/akipc/config/ak_config.c:66-105 | the seconds of a clock text, with its clamps and the missing-colon case, and that a text with two colons is cut at the first |
| `PlanConfig.ClockRoundTrip` | platform/apps/akipc/config/ak_config.c:66-119 | a time of day survives printing and parsing |
| `PlanConfig.ClockOfNumbers` | platform/apps/akipc/config/ak_config.c:83-104 | hours past 23, minutes and seconds past 59 count as 23 and 59 |
| `PlanConfig.ClockExample` | platform/apps/akipc/config/ak_config.c:107-119 | how 24320 seconds are written |
| `PlanConfig.EnableWeekDay` | platform/apps/akipc/config/ak_config.c:126-133 | day 7 and above count as index 0 |
| `PlanConfig.SaveWeekConfigInfo` | platform/apps/akipc/config/ak_config.c:140-179 | the week after reading a text |
| `PlanConfig.SavedDays` | platform/apps/akipc/config/ak_config.c:140-179 | a list of days 1-7 and ranges, of any length, sets exactly the days it names |
| `PlanConfig.GetWeekConfigInfoStr` | platform/apps/akipc/config/ak_config.c:186-227 | prints the week's runs as days and ranges, and never fills its buffer |
| `PlanConfig.RunsDenote` | platform/apps/akipc/config/ak_config.c:196-224 | the runs printed name exactly the days that are on |
| `PlanConfig.WeekRoundTrip` | platform/apps/akipc/config/ak_config.c:140-227 | a printed week is read back |
| `PlanConfig.WeekExample` | platform/apps/akipc/config/ak_config.c:186-227 | how two weeks are written |
| `PlanStore.NamesDiffer` | platform/apps/akipc/config/ak_config.c:802-818 | different plans and kinds have different item names |
| `PlanStore.ItemNames` | platform/apps/akipc/config/ak_config.c:802-818 | the names of the items |
| `PlanStore.Config.AkConfigSetRecordPlan` | platform/apps/akipc/config/ak_config.c:842-871 | every item of every plan holds that plan's text, every other item is as it was |
| `PlanStore.Config.InitRecordPlans` | platform/apps/akipc/config/ak_config.c:799-819 | every plan is what its items say; a missing item reads as what the buffer still holds, after a clock what stood before its first colon |
| `PlanStore.MissingItemsReadBuffer` | platform/apps/akipc/config/ak_config.c:801-818 | what a missing flag, start time or first week is read from |
| `PlanStore.MissingEndIsMidnight` | platform/apps/akipc/config/ak_config.c:813-818 | a plan with a start time and no end time ends at 0 |
| `PlanStore.PlanRoundTrip` | platform/apps/akipc/config/ak_config.c:799-871 | items written for a plan load as that plan |
| `PlanStore.SaveAndReload` | platform/apps/akipc/config/ak_config.c:799-871 | saving and loading the plan table is the identity |
| `RecList.MergeKeepsLength` | platform/apps/akipc/dana/dana_cmd.c:403-414 | a page's lengths sum to its files' whole seconds |
| `RecList.MergeApart` | platform/apps/akipc/dana/dana_cmd.c:403-414 | each record starts at least two seconds after the one before it ends |
| `RecList.RecordsStartWithFiles` | platform/apps/akipc/dana/dana_cmd.c:408-412 | each record starts where one of its files does, the first with the first |
| `RecList.NextFile` | platform/apps/akipc/dana/dana_cmd.c:403-414 | exactly when a file begins a record, and what becomes of it otherwise |
| `RecList.SeparateFilesStay` | platform/apps/akipc/dana/dana_cmd.c:403-414 | files two seconds or more apart all stay records of their own |
| `RecList.CopyRecordInfo` | platform/apps/akipc/dana/dana_cmd.c:384-422 | fills the array with the merged files from the cursor on, within its length, and stops at the first point where it is full |
| `RecList.ReplayPager.GetRecList` | platform/apps/akipc/dana/dana_cmd.c:448-518 | one page: which slice, what it becomes, what is kept for the next call, and that a page with more to come is full |
| `RecList.GetDay` | platform/apps/akipc/dana/dana_cmd.c:448-518 | the pages of a day are consecutive non-empty slices that make up the whole list |
| `Ptz.ThereAndBack` | platform/apps/drv/src/ak_drv_ptz.c:238-243 | steps to degrees and back never gains and loses less than cycle/360 + 1 steps |
| `Ptz.ConversionsMean` | platform/apps/drv/src/ak_drv_ptz.c:238-243 | a turn is 360 degrees and cycle steps, fractions are cut off, either direction alike |
| `Ptz.NoOvershoot` | platform/apps/drv/src/ak_drv_ptz.c:694-726 | a command lands between start and target, less than cycle/360 + 1 steps short |
| `Ptz.MovesIf` | platform/apps/drv/src/ak_drv_ptz.c:694-726 | exactly when a command moves the motor |
| `Ptz.RepeatingArrives` | platform/apps/drv/src/ak_drv_ptz.c:694-726 | repeated commands come closer each time until less than a degree is left |
| `Ptz.RepeatedEnough` | platform/apps/drv/src/ak_drv_ptz.c:694-726 | so they arrive within a degree |
| `Ptz.Motor.CheckDg` | platform/apps/drv/src/ak_drv_ptz.c:694-726 | the relative command for a clamped target |
| `Ptz.Motor.MotorTurnDg` | platform/apps/drv/src/ak_drv_ptz.c:311-338 | turns by the degree's steps and counts the degrees |
| `Ptz.Motor.SetTurnPositionInfo` | platform/apps/drv/src/ak_drv_ptz.c:294-302 | the counted angle follows the turn |
| `Ptz.Motor.TurnToPos` | platform/apps/drv/src/ak_drv_ptz.c:592-596 | a whole command, its target clamped to the first or last step, keeps the motor in range, never passes the target and, a degree or more away, comes closer |
| `AlarmReport.WindowHoldsFew` | platform/libapp/src/alarm/ak_alarm.c:193-226 | reports more than g apart: at most T/g + 1 in T milliseconds |
| `AlarmReport.MotionAlarm.RunTurn` | platform/libapp/src/alarm/ak_alarm.c:180-226 | exactly when a turn reports, and what it leaves to be asked for |
| `AlarmReport.MotionAlarm.MdAlarmThread` | platform/libapp/src/alarm/ak_alarm.c:169-234 | over every run exactly which turns report; reports are more than interval*1000 - 4000 ms apart, whatever the calendar does; a calendar that does not go back adds the full interval |
| `AlarmReport.MotionAlarm.GetTime` | platform/libapp/src/alarm/ak_alarm.c:411-416 | a motion is told once |
| `AlarmReport.SoundAlarm.AedCallbackTop` | platform/libapp/src/alarm/ak_alarm.c:53-66 | exactly when a sound is reported |
| `AlarmReport.MillisecondsKept` | platform/libapp/src/alarm/ak_alarm.c:53-66 | over every run reports are the interval apart in milliseconds |
| `AlarmReport.OnlyPassedAreTold` | platform/libapp/src/alarm/ak_alarm.c:59 | only sounds without a filter, or with the answer 0, are reported |
| `AlarmReport.SecondsKeptIff` | platform/libapp/src/alarm/ak_alarm.c:53-66 | over every run they are the interval apart in seconds exactly if no unfiltered sound comes between one interval in milliseconds and one in seconds after the report before it |
| `AlarmReport.SecondsKeptAlwaysIff` | platform/libapp/src/alarm/ak_alarm.c:53-66 | with sounds at least a gap apart, the documented spacing holds in every run exactly if the gap is that long, or the interval is zero |
| `AlarmReport.ReportsPolled` | platform/libapp/src/alarm/ak_alarm.c:53-66 | reports are at least as far apart as the sounds |
| `AlarmReport.HeardPolled` | platform/libmpi/src/aed/ak_aed.c:175-200 | the detector spaces the sounds by its interval less 5 ms, with 500 for none |
| `AlarmReport.CheckGapMeans` | platform/libmpi/src/aed/ak_aed.c:181-193 | the detector's interval for each setting |
| `AlarmReport.OnlyLoudIsHeard` | platform/libmpi/src/aed/ak_aed.c:193-196 | every sound is that of a loud piece |
| `AlarmReport.SettingsKeepSecondsIff` | platform/libapp/src/alarm/ak_alarm.c:305-318 | which two settings keep the documented spacing for all audio: exactly those with a detection gap of at least the report interval in seconds, or a report interval of zero |
| `AlarmReport.SoundDetector.AedThread` | platform/libmpi/src/aed/ak_aed.c:175-200 | the sounds the detector finds in a run of audio |
| `AlarmReport.SoundAlarm.AkAedThread` | platform/libapp/src/alarm/ak_alarm.c:69-86 | the reports of a whole run of the thread: as far apart as the interval in milliseconds and as the sounds, and exactly when also in seconds |
| `AlarmReport.SoundsHalfSecondApart` | platform/libapp/src/alarm/ak_alarm.c:53-66 | an interval of 60, meant in seconds, and a detection every 500 ms, with two reports half a second apart: a concrete run |

## Left out

- StreamQueue.VideoQueue.EvictPass: the mark of an I-frame that a pass leaves for the next, which happens under the condition stated, is assumed gone when that begins; the frame it points at may have been popped meanwhile.
- ChannelRun.GuardBoundsQueue: likewise.
- Drain: the byte count is reset after the lock is released, so the producer is assumed quiet.
- Delivery.SendQueued: the encoder thread is quiet; `VideoStreamToDana` has it at work.
- Delivery.VideoStreamToDana: what the sending thread reads of the change flag is an input; the semaphores that wake the threads are not modelled.
- ChannelRun.EncodeAndSend: as for `GuardBoundsQueue`; reading the byte count outside the lock is one step; frames of more than (2^32 - 2^20) / 3 bytes are left to `Run`.
- Subscribers.AvCtrl.DanaAvStartVideo: the encoder's bit rate for a quality is not modelled, and the frame rate is an input.
- RecordCtrl.RecordControl.FormatCard: unmounting, testing and making the file system are not modelled, only that the recorder is stopped first and which flag is set.
- RecordCtrl.RecordControl.CheckRecordException: remounting and read-only repair have no effect on the modelled state.
- AlarmReport.SoundDetector.AedThread: what counts as loud, and whether the alarm thread fetches an event in time, are inputs.
- RecordCtrl.RecordControl.GetVideoRecordError: an update of the flags is one step; lost updates between threads are not modelled.
- `record_ctrl_exit` and a second `record_ctrl_init`: ending the thread and starting over.
- Daylight saving and clocks that go back in the recorder, and the calendar library.
- IniFile.IniStore.IniReadString: the terminator missing after a value longer than the result buffer is not modelled.
- IniFile.IniStore.IniWriteString: requires the header and the new entry to fit the source's line buffers; the list of lines is a sequence, so its allocation is not modelled.
- PlanConfig.SaveWeekConfigInfo: requires that no single day is a negative number, which would be an index before the array.
- PlanStore.Config.InitRecordPlans: requires that no single day of a week's text is a negative number, as above.
- PlanStore.Config.AkConfigSetRecordPlan: negative times are not printed.
- RecordCtrl.RecordControl.CheckPlanRecordStart: a plan table with negative times, which only a configuration written by hand can hold, is not modelled in the controller.
- RecList.CopyRecordInfo: start times are taken as integers, so a file less than two seconds after the zone's offset from 1970 does not wrap around; lengths beyond 32 bits are not modelled.
- RecList.ReplayPager.GetRecList: a failed allocation and a maximum of zero are not modelled.
- Ptz.Motor.TurnToPos: overflow of `int`, failed device calls, timeouts and end-stop hits are not modelled.
- `CText.Atoi`: numbers outside the range of `int` are read as they stand.
- Drivers, OSD, codecs, RTSP, ONVIF messages, the cloud SDK, shell commands and the programs' menus have no model.
