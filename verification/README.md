# Flipper Zero firmware: a verified model of its services and codecs

The firmware's services talk to each other through records, queues, thread flags and message sequences,
and its readers and emulators turn bytes into pulses and back. This project models the parts of it whose
logic does not sit in a vendor library, and proves what they promise over every run or every input.

| file | what it models |
|---|---|
| `RecordRegistry.dfy` | the record registry as a machine: every interleaving of create, destroy, open and close by any number of threads |
| `RecordApi.dfy` | the same four operations as they update the dictionary in place, each one an uninterrupted run of the machine |
| `RecordFlags.dfy` | the wake-up flag that the registry shares with the rest of the firmware: when it is raised after a run, and when an opener sleeps again |
| `RecordNesting.dfy` | what opening a record twice in one thread does, for every state the machine reaches |
| `CyfralCode.dfy`, `CyfralEmulator.dfy`, `CyfralReader.dfy`, `CyfralRoundTrip.dfy`, `CyfralOutcomes.dfy`, `CyfralSampling.dfy` | the Cyfral line code, its emulator, its reader from the converter's readings on, what each outcome of a parse means, and when the reader reads what the emulator sends |
| `InputPress.dfy`, `InputProgress.dfy`, `InputDebounce.dfy` | one key of the input service: the scanning thread, the timer daemon and the press callback, interleaved; that none of them gets stuck; and what debouncing filters |
| `NotificationLayers.dfy`, `NotificationOutcomes.dfy`, `NotificationService.dfy` | the two-layer lights: what the message interpreters mean, what a sequence shows and leaves behind, and the interpreters |
| `InternalStorage.dfy` | the request/reply protocol of the internal storage service, for any number of clients |
| `SdApp.dfy`, `SdViews.dfy`, `SdReplies.dfy`, `SdSlots.dfy` | the SD card service's event loop, which view it shows and what its keys do, who gets its answers, and its table of open files |
| `GuiLayers.dfy`, `Gui.dfy`, `ViewDispatcher.dfy` | the GUI's layer stack and selection, and the view dispatcher |
| `Fnv1a.dfy`, `TickTimer.dfy`, `KeyFile.dfy` | the hash, the wrapping timers and the iButton key file |

Code that runs in one thread is written as classes, methods and loops proved against functions on values,
and the properties of whole runs are proved about those functions. The registry, the storage protocol,
the press timer and the answers to file-select are shared by several threads; they are machines whose steps
are single statements, so that their theorems hold for every interleaving. In those machines a step either
moves the state or is blocked, and a run is the sequence of actions taken. `Sets.dfy` holds two facts about
finite sets.

What the proofs brought out, each with its input and the exact condition:

- A thread that has a record open and opens it again is no longer counted among its holders after its first
  close. The owner can then destroy the record, and the second close dereferences null, although every close
  matches an open (`RecordNesting.ReopenedRecordIsTaken`). Wherever threads that open a record once at a time
  have come, beginning an open is harmless exactly when the thread does not have that record open
  (`RecordNesting.ReopeningIsExactlyTheHazard`).
- The internal storage service waits on the same thread-flag bit that the registry raises. `furi_record_open`
  can return with the bit still raised (`RecordApi.OpenMayLeaveFlagRaised`): begun with a clear bit it leaves it
  clear exactly when no raise of it came after the opener's last wake (`RecordFlags.OpenLeavesFlagClear`). And
  every `furi_record_create` raises it for all holders, those inside a storage call included (record.c:64-66;
  sd-filesystem.c:655 and :677 create "sdcard" twice). Such a raise is harmless exactly when the flag is raised
  already, at every point of a call and between calls (`InternalStorage.ForeignRaiseIsHarmlessOnlyIfRaised`).
- input.h:9-10 say of Press and Release "emitted after debounce". The debounce counter moves only after
  power-on; once at either end it stays there (`InputDebounce.DebounceSettles`). From then on a key that reads
  high in a single scan publishes Press, Release and Short (`InputDebounce.GlitchIsPublished`); a scanning key is
  unfiltered exactly when its debounce counter is at either end (`InputDebounce.FiltersOnlyWhileDebouncing`).
- The Cyfral reader begins to read at any instant of the transmission, and reads the line only now and then. With
  readings at most 25 us apart, which is exactly how far apart they may be (`CyfralSampling.LongestGap`), a key
  is read back from every instant exactly when none of its nibbles E is followed by a nibble 7
  (`CyfralSampling.SurvivesEveryStart`): of a key with E7 in it, a capture that begins late in the third bit of
  the E takes that one for a zero, and 1110 0111 then holds a start nibble. The parser needs two whole frames of
  bits, so the 72 bits that `read` captures are enough for keys of up to four bytes and no more
  (`CyfralRoundTrip.TwoFramesAreNeeded`).
- All callers of file-select take their answers from one queue. When a second call overlaps a first one, one
  of the two can return with the other's answer (`SdReplies.TwoCallersMixAnswers`); a further call is harmless
  exactly when none is outstanding (`SdReplies.AskingIsSafeExactlyAlone`).
- `sequence_set_red_255` and its like are to leave a light on. They leave it dark when the LEDs had been showing an
  internal value (`NotificationOutcomes.RedStaysDark`): the moment of darkness that is to come before the light
  comes after it when no delay follows the LED messages. A sequence that says DoNotReset leaves each colour at the
  last value it gave it exactly when a delay has sent the LEDs or they had no internal value to show; otherwise it
  leaves them at the level of zero (`NotificationOutcomes.LedsUnderDoNotReset`).
- A key file that is refused changes the key all the same when its header names another type: the text "C"
  makes a Cyfral key of a Dallas key (`KeyFile.CutShortAfterHeader`). The type stays exactly when the text is
  empty, its header is unknown, or it names the type the key has (`KeyFile.Key.Load`).

## Model

| member | source | states |
|---|---|---|
| RecordRegistry.ReachableInv | core/furi/record.c:49-132 | in every state that any interleaving of any set of threads reaches, the mutex holder is the one thread in a critical section, everyone inside open is among the record's holders, every holder is inside open or has the record open, and the wake-up, data and reply invariants hold |
| RecordRegistry.SleeperIsWoken | core/furi/record.c:62-66 | no lost wakeup: a thread asleep in open on a record that has an owner has its flag raised, or a create of it is in its holder loop with that thread still ahead; once no create is in its loop the sleeper can wake |
| RecordRegistry.OpenerReturns | core/furi/record.c:102-116 | from the moment the record has an owner, each step of the opener brings it one step closer to returning whatever the others do, so it never goes back to sleep and returns after at most six of its own steps |
| RecordFlags.FlagIsLastRaise | core/furi/record.c:62-66 | in every run of any threads, a thread's flag is raised at the end exactly when it was raised at some time of the run, or before it, and not taken since, by the thread waking inside open or draining it outside |
| RecordFlags.OpenLeavesFlagClear | core/furi/record.c:102-113 | an open begun with a clear flag returns with it clear exactly when no raise of it came after the opener's last wake, whoever raised it |
| RecordFlags.WokenForNothingSleepsAgain | core/furi/record.c:111-113 | while the record has no owner and nobody raises the opener's flag, each of its own steps brings it one step closer to sleep, whatever the others do; a sleeper woken by a raise that brought no owner is asleep again, its flag clear and its next step blocked, after exactly five own steps |
| RecordRegistry.HolderCanStep | core/furi/record.c:57-68 | the thread that holds the mutex can always take its next step |
| RecordRegistry.HolderReleases | core/furi/record.c:57-68 | the mutex is released: whatever the others do, its holder unlocks within a number of its own steps that is at most three more than the holders it has to notify |
| RecordRegistry.OpenerNeverDeadlocks | core/furi/record.c:102-113 | an opener of a record with an owner can step, or the thread it waits for can |
| RecordRegistry.OpenReturnsStoredData | core/furi/record.c:94-117 | every open returned a datum that some create stored under that name, never the empty placeholder |
| RecordRegistry.DestroySparesOpeners | core/furi/record.c:73-92 | in every run a record is taken away only by its owner, and only when no thread is inside open on it |
| RecordRegistry.DisciplinedRunsAreSafe | core/furi/record.c:119-132 | with opens less closes counted for each thread and name: when every close matches an open and no thread begins to open a record that it has open, no interleaving dereferences a null record in any operation, nor takes a record from a thread whose count is positive |
| RecordNesting.ReopeningIsExactlyTheHazard | core/furi/record.c:94-132 | in every state with the invariants of such runs, beginning an open is followed by safe runs only, and by fault-free runs only, exactly when the thread's count for that record is zero; otherwise some run whose closes all match opens takes the record away and faults |
| RecordNesting.AfterDisciplinedRuns | core/furi/record.c:94-132 | the same, stated of the states that disciplined runs reach from the empty registry, for any set of threads; those states are safe themselves |
| RecordNesting.ReopenedRecordIsTaken | core/furi/record.c:73-132 | the failing run from an empty registry, for any two threads: open, open, close, then the owner's destroy erases a record whose count is one, and the second matching close faults |
| RecordApi.Registry.GetOrCreate | core/furi/record.c:35-47 | the record of that name is in the dictionary afterwards, the empty placeholder if it was missing, and nothing else changed |
| RecordApi.Registry.Create | core/furi/record.c:49-71 | the record has the datum, the caller as owner and the holders it had, exactly their flags are raised in addition, nothing else changes, and the call is a run of the machine by the caller alone |
| RecordApi.Registry.Destroy | core/furi/record.c:73-92 | the record goes iff the caller owns it and nobody holds it, as a run of the machine |
| RecordApi.Registry.OpenTurn | core/furi/record.c:102-117 | one turn of the retry loop: the caller joins the holders and nothing else changes; it gets the datum iff there is an owner, otherwise it is about to sleep |
| RecordApi.Registry.Close | core/furi/record.c:119-132 | the caller leaves the holders; a missing record is a null dereference |
| RecordApi.OpenMayLeaveFlagRaised | core/furi/record.c:107-112 | for any two threads there is a run in which open returns with the caller's flag still raised by the create |
| CyfralCode.CapturedInTime | lib/cyfral/cyfral_reader.h:75-86 | the time limit of 280 us for each bit never cuts short what the emulator sends: by then at least that many bits are captured, and they are the complement of those sent |
| CyfralCode.CaptureOfPulses | lib/cyfral/cyfral_reader.h:92-111 | classifying the high pulses of any sent bit string against 75 us captures exactly its complement |
| CyfralEmulator.Emulator.SendBit | lib/cyfral/cyfral_emulator.h:48-62 | appends the pulses of that bit to the waveform: low 70, high 50, low 70 us for a zero, high 100, low 70 us for a one |
| CyfralEmulator.Emulator.SendNibble | lib/cyfral/cyfral_emulator.h:34-39 | sends the nibble's four bits, most significant first |
| CyfralEmulator.Emulator.SendByte | lib/cyfral/cyfral_emulator.h:41-46 | sends the byte's eight bits, most significant first |
| CyfralEmulator.Emulator.SendFrame | lib/cyfral/cyfral_emulator.h:76-82 | sends the start nibble and then the bytes |
| CyfralEmulator.Emulator.Send | lib/cyfral/cyfral_emulator.h:71-87 | the waveform grows by the pulses of the frame repeated back to back |
| CyfralReader.SearchArrayInArray | lib/cyfral/cyfral_reader.h:117-138 | returns the first occurrence of any non-empty needle, or the size of the haystack when there is none; the backtracking loop ends |
| CyfralReader.LevelsAreToldApart | lib/cyfral/cyfral_reader.h:66-70 | with the threshold as computed, a line of two levels is told apart, whatever is sent, exactly when the levels are at least two steps apart |
| CyfralOutcomes.ThresholdIsAQuarterUp | lib/cyfral/cyfral_reader.h:66-70 | the threshold is a quarter of the way from the lowest level up to the highest, within the rounding of the divisions |
| CyfralOutcomes.HighSinceLastRise | lib/cyfral/cyfral_reader.h:92-102 | the line counts as high exactly when some reading was above the threshold and none since was below it |
| CyfralOutcomes.TimeLimitIsExact | lib/cyfral/cyfral_reader.h:78-86 | a bit is captured exactly if its falling edge is read before 280 us for each bit of the buffer are up |
| CyfralReader.Reader.GetLineMinmax | lib/cyfral/cyfral_reader.h:41-56 | the calibration finds the lowest and the highest sample |
| CyfralReader.Reader.CaptureData | lib/cyfral/cyfral_reader.h:58-115 | for every sequence of converter readings the buffer holds the first bits captured within the time limit, padded with zeros when that is too few; a reading on the threshold leaves the line as it was |
| CyfralReader.Reader.ParseData | lib/cyfral/cyfral_reader.h:140-198 | error code, result and buffer are those that `CyfralOutcomes.NoStartNibbleMeans`, `OutcomeAtStart`, `BufferBit` and `BufferCleared` characterise bit by bit, for every capture and on every error path; the rest of the caller's memory is untouched |
| CyfralReader.Reader.StoreNibbles | lib/cyfral/cyfral_reader.h:157-193 | the parsing loop stores exactly the nibbles before the first invalid one, high nibble first |
| CyfralReader.Reader.Read | lib/cyfral/cyfral_reader.h:247-272 | a line whose highest sample is above 2000 is reported and the data left alone; otherwise error and data are those of parsing the 72 bits captured from the readings |
| CyfralRoundTrip.ParseAccepts | lib/cyfral/cyfral_reader.h:140-198 | the parse succeeds with given bytes iff, at the first start nibble, the capture is the complement of their frame, all nibbles are 7, B, D or E, and at least one more bit was captured |
| CyfralOutcomes.NoStartNibbleMeans | lib/cyfral/cyfral_reader.h:117-138 | a missing start nibble is reported exactly when 1110 occurs nowhere in the capture |
| CyfralOutcomes.OutcomeAtStart | lib/cyfral/cyfral_reader.h:148-196 | with the first start nibble at p: the size error exactly when p + 4 + 8n reaches the end of the capture, the unknown nibble exactly when there is room and some nibble behind p has not exactly one captured bit set, success exactly when there is room and all have |
| CyfralOutcomes.BufferBit | lib/cyfral/cyfral_reader.h:145-188 | when there is room, each bit of the buffer is the complement of the captured bit it comes from as long as every nibble up to its own is valid, and zero from the first invalid nibble on |
| CyfralOutcomes.BufferCleared | lib/cyfral/cyfral_reader.h:145-155 | without a start nibble, or without room behind it, the buffer is all zeros |
| CyfralRoundTrip.StartOnlyAtFrames | lib/cyfral/cyfral_emulator.h:29-32 | self-synchronisation: in the endless repetition of a valid frame the start pattern occurs only where a frame starts |
| CyfralRoundTrip.KeySurvives | lib/cyfral/cyfral_reader.h:140-198 | for every n and every n valid bytes, 2(8n+4) captured bits of the repeated frame or more, from any bit on, parse to exactly those bytes |
| CyfralRoundTrip.TwoFramesAreNeeded | lib/cyfral/cyfral_reader.h:28-30 | captures of one size parse at every rotation exactly when two frames fit into them |
| CyfralRoundTrip.KeySurvivesOnTheWire | lib/cyfral/cyfral_emulator.h:71-87 | the same from the emulator's pulses through the reader's pulse classifier, within its time limit |
| CyfralSampling.BitsSampled | lib/cyfral/cyfral_reader.h:85-114 | readings at most 25 us apart, at whatever instants, misjudge no bit that the emulator sends |
| CyfralSampling.LongestGap | lib/cyfral/cyfral_reader.h:85-114 | 25 us is the longest gap between readings at which that holds |
| CyfralSampling.SurvivesEveryStart | lib/cyfral/cyfral_reader.h:247-272 | for all such readings of the transmission of a valid key, it is read back from every instant at which the capture can begin, within a bit as well as between two, exactly when no nibble E of the key is followed by a nibble 7 |
| CyfralSampling.WholeReadSurvives | lib/cyfral/cyfral_reader.h:247-272 | the same of the 72 bits that a read captures from the converter's levels, for keys of up to four bytes |
| InputPress.PressesAreJudgedOnce | applications/input/input.c:119-149 | for every interleaving of scan, timer daemon and callback: the published events follow the life of a key, each Release has exactly one Short or Long, Press and Release alternate from the power-on level, and a Repeat comes only after the Long of the same press |
| InputPress.CounterBounded | applications/input/input.c:23-36 | the press counter never exceeds 5 and is above 4 only inside the callback |
| InputPress.CounterHasOneWriter | applications/input/input.c:140-147 | no callback is under way while the scan reads or resets the counter, although stopping the timer only posts a command |
| InputPress.TimerRunsWhileHeld | applications/input/input.c:137-140 | while a pressed key is held the timer runs or is about to be started |
| InputPress.VerdictByCallbacks | applications/input/input.c:23-36 | over every interleaving of a press up to the test of its counter: when the timer callback ran k times, the events it published are Long and then k - 4 Repeats if k >= 4 and none otherwise, and the test leads to Short iff k < 4 |
| InputProgress.FewStepsToScan | applications/input/input.c:137-147 | from every reachable state, over every interleaving, the thread makes at most four steps other than waiting for the timer without getting back to its scan: each of them brings it closer |
| InputProgress.WaitsForStop | applications/input/input.c:14-21 | a thread that waits on a running timer has its stop pending, as the last command |
| InputProgress.StopIsTaken | applications/input/input.c:14-21 | the wait ends: after as many steps of the daemon as it is from its queue and commands are pending, the timer is stopped and no command is left |
| InputProgress.PressEnds | applications/input/input.c:129-147 | from there the thread is back at its scan after an exact number of own steps, one more for a short press than for a long one, whatever the daemon does; a released key's counter is then reset, and the next reading that differs is published |
| InputProgress.CommandsInOrder | applications/input/input.c:137-140 | in every run each start and stop given is taken once, in order, or still pending, and the timer runs exactly when the last one taken was a start |
| InputProgress.HeldKeyIsJudged | applications/input/input.c:23-36 | while a key is held its timer can expire any number k of times, and then nothing was heard for k < 4, and Long and k - 4 Repeats otherwise |
| InputDebounce.DebounceSettles | applications/input/input.c:123-127 | once at either end the debounce counter never moves again, in any run |
| InputDebounce.EdgesAreChanges | applications/input/input.c:119-136 | over every interleaving, the Press and Release events published are exactly the level changes among the readings that were taken outside debouncing |
| InputDebounce.FiltersOnlyWhileDebouncing | applications/input/input.c:121-127 | every single level change that the scans of a run read becomes an event, for all runs, exactly when the scanning key is not being debounced |
| InputDebounce.GlitchIsPublished | applications/input/input.h:9-10 | the input on which "emitted after debounce" fails: on a settled, idle, released key one high reading followed by a low one publishes exactly Press, Release and Short |
| InputDebounce.NothingPublishedWhileDebouncing | applications/input/input.c:108-127 | while a run from power-on is still debouncing, nothing was published, the level is the one at power-on, and the debounce counter is its half-way value plus high readings less low ones |
| NotificationLayers.LightsShowTheirLayer | applications/notification/notification-app.c:27-101 | after any run of internal and notification requests, and during every wait, each light shows its notification value while on that layer and otherwise the last internal value written |
| NotificationLayers.LedsReturnToInternal | applications/notification/notification-app.c:240-261 | a sequence with an LED message and no DoNotReset leaves all three LEDs on the internal layer, showing internal values that it did not change |
| NotificationLayers.LedsAfterNotify | applications/notification/notification-app.c:82-101 | a sequence without LED messages leaves the LEDs alone; with one, they end on the internal layer iff there was no DoNotReset |
| NotificationOutcomes.LedsUnderDoNotReset | applications/notification/notification-app.c:240-261 | under DoNotReset a sequence with LED messages leaves every colour on the notification layer at the scaled last value it gave it, except that all are left at the level of zero exactly when no Delay follows an LED message and the LEDs were showing internal values |
| NotificationOutcomes.RedStaysDark | applications/notification/notification-messages.c:209-213 | the input on which a light that is to stay on does not: `sequence_set_red_255`, sent while an LED shows an internal value |
| NotificationLayers.OutputsAfterNotify | applications/notification/notification-app.c:162-213 | vibro and speaker end off if used, on what was last said under DoNotReset, and alone if unused; the backlight stays as last set |
| NotificationLayers.BatchedAgreesWithImmediate | applications/notification/notification-app.c:155-257 | at every wait that a sequence asks for, the LEDs show what an interpreter that applies each LED message at once would show |
| NotificationOutcomes.WaitsOfSequence | applications/notification/notification-app.c:217-257 | all waits of a sequence and what the LEDs show in them: those asked for, as the simple interpreter shows them, and exactly one dark moment of 100 ms if it has LED messages and the LEDs were showing internal values, after as many of the others as there are Delays before the first LED message |
| NotificationOutcomes.TimerAfterNotify | applications/notification/notification-app.c:82-178 | the backlight's timer runs afterwards exactly when the sequence had display messages and no DoNotReset, or it ran before and the sequence did not turn the display off |
| NotificationService.NotificationApp.constructor | applications/notification/notification-app.c:312-342 | all lights start on the internal layer, dark |
| NotificationService.NotificationApp.ApplyNotificationLeds | applications/notification/notification-app.c:103-108 | all three LEDs go to the notification layer with the scaled values |
| NotificationService.NotificationApp.ResetNotificationLayer | applications/notification/notification-app.c:82-101 | exactly the channels in the mask are reset |
| NotificationService.NotificationApp.ProcessNotificationMessage | applications/notification/notification-app.c:148-266 | the interpreter's loop computes the meaning of the sequence that `NotificationOutcomes` fixes from the messages alone (LEDs, waits, timer) and `OutputsAfterNotify` for the rest, and then a blocking caller's event is raised |
| NotificationService.NotificationApp.ProcessInternalMessage | applications/notification/notification-app.c:268-309 | the internal interpreter writes the internal layer only, light by light, and then a blocking caller's event is raised |
| InternalStorage.CallsAreSafe | applications/internal-storage/internal-storage.c:175-252 | when only the service raises flags: every call returned after its own command ran, with the answer to it, the service never wrote to the frame of a caller that had returned, and each outstanding command is the one its thread waits for |
| InternalStorage.ServedInOrder | applications/internal-storage/internal-storage.c:175-181 | in every run from the start, stray flags or not, commands run exactly once each and in the order they were put |
| InternalStorage.RepliesAreAnswers | applications/internal-storage/internal-storage.c:175-197 | every call that returned did so with what littlefs answered in the very action in which the service ran that call's command |
| InternalStorage.DeadWritesAreMarked | applications/internal-storage/internal-storage.c:183-197 | in every run, stray flags or not, the history says that a frame was written after its call returned exactly when some action did so |
| InternalStorage.NeverStalls | applications/internal-storage/internal-storage.c:215-217 | while a client is inside a call, it or the service can take its next step |
| InternalStorage.AnsweredInTime | applications/internal-storage/internal-storage.c:175-181 | over every run in which only the service raises flags, whatever other clients do, each step of the service brings a waiting thread one step closer to its flag, and after as many as it is away the flag is raised or the call has returned; until then the service can step |
| InternalStorage.StepsAwayInQueue | applications/internal-storage/internal-storage.c:77-78 | the thread whose command is at index i of the queue is 3(i + 1) steps away plus those for the command in hand, at most 26 |
| InternalStorage.StaleFlagBreaksCall | applications/internal-storage/internal-storage.c:249-251 | from any state the protocol reaches, a flag left over from elsewhere lets the next call return before its command ran |
| InternalStorage.ForeignRaiseIsHarmlessOnlyIfRaised | applications/internal-storage/internal-storage.c:199-218 | somebody else raises a thread's flag, in any state the protocol reaches: while idle, while its command is being put, queued, run or signalled, that is harmless exactly when the flag is raised already |
| InternalStorage.CleanFlagIsExactlyEnough | applications/internal-storage/internal-storage.c:199-218 | a thread about to call is safe exactly when its flag is clear, provided that nobody but the service raises flags from then on |
| SdApp.RepliesAreConserved | applications/sd-filesystem/sd-filesystem.c:732-947 | over every event sequence from the start the service survives iff each Back arrives while a view is up; then a view holder exists iff the state is not Background and replies sent are requests taken less the one on the screen |
| SdApp.ViewStaysUp | applications/sd-filesystem/sd-filesystem.c:585-600 | a view that is up stays whatever else is asked, and file-select requests are refused meanwhile |
| SdApp.PendingRequestIsAnswered | applications/sd-filesystem/sd-filesystem.c:770-791 | a file-select request on the screen is answered by the first Ok, with true, or Back, with false |
| SdViews.ViewIsTheOneAskedFor | applications/sd-filesystem/sd-filesystem.c:801-945 | over every event sequence a view is up exactly when some request for it was accepted while none was up and no key has closed it since; it is the view that this request asked for, or what Ok makes of it |
| SdViews.OnlyTheRequestIsCarriedOut | applications/sd-filesystem/sd-filesystem.c:736-769 | the card is shown as formatted exactly when a format was asked for with no view up and then confirmed with no Back after it, and as ejected exactly when that is so of an eject |
| SdViews.StatusIsTheLastWord | applications/sd-filesystem/sd-filesystem.c:743-769 | after every run the status is what the last mount, removal, confirmed format or confirmed eject said, and no card before any of them |
| SdViews.SelectionsAreReported | applications/sd-filesystem/sd-filesystem.c:770-776 | a file is reported as selected exactly as often as Ok was pressed on the file list |
| SdReplies.CallsGetTheirOwnAnswers | applications/sd-filesystem/sd-filesystem.c:432-467 | in every run in which file-select calls do not overlap, each call returns with the answer to itself |
| SdReplies.AskingIsSafeExactlyAlone | applications/sd-filesystem/sd-filesystem.c:452-462 | in every state with the invariant of such runs, a further call is harmless exactly when no call is outstanding, wherever the outstanding request is |
| SdReplies.AfterSeparateCalls | applications/sd-filesystem/sd-filesystem.c:452-462 | the same, stated of the states that calls which do not overlap reach from the start |
| SdReplies.TwoCallersMixAnswers | applications/sd-filesystem/sd-filesystem.c:874-881 | the failing run of two callers: the first one's request is refused and the second one returns with that refusal |
| SdReplies.RepliesAreDelivered | applications/sd-filesystem/sd-filesystem.c:452-467 | in every run, whoever asks when, the results that the calls returned with and the one in the queue are the replies sent, in order |
| SdApp.Service.TryToAllocViewHolder | applications/sd-filesystem/sd-filesystem.c:585-600 | succeeds iff no view holder exists, and there is one afterwards |
| SdApp.Service.AppResetState | applications/sd-filesystem/sd-filesystem.c:631-636 | the view goes and the state is Background; without a view holder null is dereferenced |
| SdApp.Service.HandleEvent | applications/sd-filesystem/sd-filesystem.c:732-947 | the event switch computes the transition of which `SdViews` says over runs which view is up, what Ok does in it and what becomes of the status, and `SdApp.RepliesAreConserved` which replies are sent |
| SdSlots.SlotsHaveOneClaim | applications/sd-filesystem/sd-filesystem-api.c:195-253 | over every run of calls from the empty table each occupied slot belongs to exactly one open since the last unmount, with its thread and kind, and no open has two slots |
| SdSlots.OthersSlotsUntouched | applications/sd-filesystem/sd-filesystem-api.c:39-76 | a thread's call neither changes nor acts on another thread's slot |
| SdSlots.OthersSlotsSurviveRuns | applications/sd-filesystem/sd-filesystem-api.c:195-253 | over any run of other threads' calls without an unmount a slot keeps its owner, kind and claim |
| SdSlots.ActsOnOwnKind | applications/sd-filesystem/sd-filesystem-api.c:39-76 | FatFs works on a slot only for its owner, and on a file in file calls and a directory in directory calls |
| SdSlots.CloseUndoesOpen | applications/sd-filesystem/sd-filesystem-api.c:379-427 | closing what was just opened restores the claims and every other slot |
| SdSlots.UnmountEmpties | applications/sd-filesystem/sd-filesystem.c:350-375 | unmounting frees every slot and ends every claim |
| SdSlots.UnmountedIsUnusable | applications/sd-filesystem/sd-filesystem.c:350-375 | from an unmount until the next mount no slot can be used or closed, whatever is opened meanwhile |
| SdSlots.UsableByItsClaim | applications/sd-filesystem/sd-filesystem-api.c:39-76 | after any run a slot can be used exactly while the card was last said to be ready, by the thread whose open claimed it and as what it was opened as |
| SdSlots.FileSystem.Open | applications/sd-filesystem/sd-filesystem-api.c:195-236 | claims the first free slot and points the handle at it, even when FatFs then fails; a full table leaves table and handle alone |
| SdSlots.FileSystem.Close | applications/sd-filesystem/sd-filesystem-api.c:239-253 | frees the slot iff the caller may use it, and reports FatFs's error then and the reason otherwise |
| SdSlots.FileSystem.GetFiledata | applications/sd-filesystem/sd-filesystem-api.c:39-76 | the slot behind a handle is given out iff the card is ready, the number is in range, the slot belongs to the calling thread and is of the kind asked for; each error is reported in exactly the case it names |
| SdSlots.VerdictIsUnique | applications/sd-filesystem/sd-filesystem-api.c:39-76 | in every state and for every caller there is exactly one error to report |
| SdSlots.FileSystem.Use | applications/sd-filesystem/sd-filesystem-api.c:256-374 | FatFs is let loose on a slot iff the caller may use it, and on the slot of the handle; otherwise the reason is reported |
| SdSlots.FileSystem.Unmount | applications/sd-filesystem/sd-filesystem.c:350-375 | the loop frees every slot and the status is no card |
| GuiLayers.RunKeepsInv | applications/gui/gui.c:270-368 | over every run of add, remove, send-front and send-back each view port occurs at most once across all layers and is linked iff it occurs |
| GuiLayers.PortsOccurOnce | applications/gui/gui.c:270-368 | the same from the empty layers |
| GuiLayers.OthersKeepOrder | applications/gui/gui.c:296-368 | no run changes which of the other ports are on a layer, nor their order |
| GuiLayers.SentToTheEnd | applications/gui/gui.c:318-368 | a port sent to the front is the last of its layer, one sent to the back the first, and the other layers stay |
| GuiLayers.AddedGoesInFront | applications/gui/gui.c:288-290 | an added port is linked and in front of the others of its layer, and the other layers stay; if enabled it is on top there, and on the fullscreen layer it is what is shown |
| GuiLayers.RemovedIsGone | applications/gui/gui.c:296-316 | a removed port is on no layer, not linked and never selected |
| GuiLayers.SelectedIsTopmost | applications/gui/gui.c:38-50 | the selection is the topmost enabled port of the first layer, among fullscreen, main and none, that has one |
| GuiLayers.SelectedIsLinked | applications/gui/view_port.c:81-99 | a selected port is linked, so the checks in drawing and input pass |
| GuiService.Gui.AddViewPort | applications/gui/gui.c:270-294 | appends the port to its layer and links it, unless the layer does not exist, the port is vertical and the layer not fullscreen, or the port is on a layer already |
| GuiService.Gui.RemoveFromLayer | applications/gui/gui.c:305-312 | the in-place removal loop equals a filter |
| GuiService.Gui.RemoveViewPort | applications/gui/gui.c:296-316 | the port is gone from every layer and unlinked, the rest as it was |
| GuiService.Gui.SendViewPortFront | applications/gui/gui.c:318-342 | moves the port to the end of its layer; refused when it is on none |
| GuiService.Gui.SendViewPortBack | applications/gui/gui.c:344-368 | moves the port to the start of its layer; refused when it is on none |
| GuiService.Gui.FindEnabled | applications/gui/gui.c:38-50 | the backward search finds the last enabled port |
| GuiService.Gui.Redraw | applications/gui/gui.c:192-203 | draws the selected port as main content, and the status bar iff nothing is fullscreen |
| GuiService.Gui.Input | applications/gui/gui.c:215-236 | input follows what is shown: the key goes to the port that a redraw selects, turned when the port is vertical, and to nobody when nothing is selected |
| GuiService.KeysTurnClockwise | applications/gui/gui.c:3-20 | for a vertical port the four directions are turned a quarter clockwise, and Ok and Back stay |
| ViewDispatcher.CallbacksAlternate | applications/gui/view_dispatcher.c:66-125 | over every run of add, remove and switch from the allocation on the current view is none or registered, the port is enabled iff there is one, callbacks are strictly alternating enter v, exit v pairs, and leaving the last view posts a stop |
| ViewDispatcher.CurrentIsLastSwitchedTo | applications/gui/view_dispatcher.c:112-125 | over every run the current view is the one registered under the id last switched to, unless that view was removed or none switched to since; before the first switch there is none |
| ViewDispatcher.RegisteredSinceAdded | applications/gui/view_dispatcher.c:66-110 | a view is registered under an id exactly when it was added under it and the id not removed since |
| ViewDispatcher.StopsAreLeavings | applications/gui/view_dispatcher.c:182-205 | a dispatcher with a queue is told to stop once for each time that it is left without a view, one without a queue never |
| ViewDispatcher.Dispatcher.SetCurrentView | applications/gui/view_dispatcher.c:182-205 | exit of the old view, enter of the new one, port and queue updated |
| ViewDispatcher.Dispatcher.Dispatch | applications/gui/view_dispatcher.c:66-125 | add, remove and switch compute the transition that the lemma above is about, including their failures |
| Fnv1a.BufferHash | lib/fnv1a-hash/fnv1a-hash.c:4-10 | the loop computes the hash of the buffer from the seed |
| Fnv1a.HashConcat | lib/fnv1a-hash/fnv1a-hash.c:4-10 | hashing in chunks equals hashing the whole |
| Fnv1a.UnmixUndoesMix | lib/fnv1a-hash/fnv1a-hash.c:7-7 | every step can be undone, with the inverse 899433627 of the prime |
| Fnv1a.OneByteApartNeverCollide | lib/fnv1a-hash/fnv1a-hash.c:4-10 | two buffers of one length that differ in exactly one byte never hash alike from the same seed |
| Fnv1a.XorByteBits | lib/fnv1a-hash/fnv1a-hash.c:7-7 | a byte of any value flips exactly the low eight bits of the hash that are set in it: no sign is extended |
| TickTimer.TimerRefinesClock | lib/ST25RFAL002/timer.c:68-90 | for every start and 16-bit duration, up to 2^31 ticks past the deadline and across the wrap, expired means that true time is past the deadline |
| TickTimer.LateAnswerIsCyclic | lib/ST25RFAL002/timer.c:75-90 | for any later time the answer is right iff the lateness modulo 2^32 is 1 to 2^31 |
| TickTimer.FirstWrongAnswer | lib/ST25RFAL002/timer.c:75-90 | one tick later the timer looks unexpired again |
| TickTimer.Delay | lib/ST25RFAL002/timer.c:94-101 | on a ticking clock the busy-wait ends, at the first poll past the deadline |
| TickTimer.StopwatchIsExact | lib/ST25RFAL002/timer.c:105-115 | the stopwatch is exact iff fewer than 2^32 ticks went by |
| TickTimer.Stopwatch.Measure | lib/ST25RFAL002/timer.c:112-115 | the true time since the start iff that is below 2^32 ticks; otherwise what is left of it after whole turns of the counter |
| KeyFile.KeyFileRoundTrip | applications/ibutton/ibutton-app.cpp:432-466 | for every key type and all its bytes, what saving writes is accepted by loading, which finds the same type and the same bytes |
| KeyFile.OnlyWholeFilesLoad | applications/ibutton/ibutton-app.cpp:448-466 | of all the beginnings of a key file that a failed save can leave, loading accepts the whole file only |
| KeyFile.FileForm | applications/ibutton/ibutton-key.cpp:27-44 | a Dallas key has 8 bytes, a Metakom key 4, a Cyfral key 2; the file is their first letter and for each byte a space and two upper-case hexadecimal digits, the high one first |
| KeyFile.HeadersAreLetters | applications/ibutton/ibutton-app.cpp:522-536 | a header is known exactly when it is the letter of a type, and then it means that type |
| KeyFile.DigitsAreRead | applications/ibutton/ibutton-app.cpp:555-558 | two hexadecimal digits of either case are read as the byte they spell |
| KeyFile.OneDigitIsRead | applications/ibutton/ibutton-app.cpp:555-558 | one digit is read after white space or a sign and before anything that is no digit, a minus wrapping to a byte; anything else is read as zero |
| KeyFile.Key.Save | applications/ibutton/ibutton-app.cpp:432-466 | succeeds iff the file can be created and every write is stored in full without an error, and then the file is the type letter and the hexadecimal bytes of that type; otherwise the file ends with what the first bad write stored |
| KeyFile.Key.Load | applications/ibutton/ibutton-app.cpp:515-565 | accepts a text iff it has a known header and enough characters for that type; then the key has the parsed bytes padded with zeros, otherwise its data is unchanged, and its type is iff the text is empty, has no known header or names the same type |
| KeyFile.Key.SetData | applications/ibutton/ibutton-key.cpp:8-14 | the data is the given bytes followed by zeros |

## Left out

- Pointers to records are modelled as lookups by name: that they stay good while the dictionary grows is an assumption about M*LIB.
- The registry, the storage protocol and the press timer are machines on values, so their theorems say nothing about how a compiler lays out or reorders the fields they share.
- FreeRTOS is an assumption: thread flags, queues and mutexes do what their names say, and the timer daemon takes commands in order and empties its queue before it looks for expired timers.
- The other keys of the input service: a pin is modelled alone, the scan of the others only delays it; `input_send`, which publishes events of its own, is left out.
- CyfralReader.Reader.Read: the converter's readings and the times between them are inputs; nothing is claimed of how long a conversion takes, nor of a line with more than two levels. `cyfral_reader_comp.h` repeats the same search and parse.
- CyfralSampling.SurvivesEveryStart: of a key with E7 in it, it says that some start fails, not which wrong key, if any, the parser then accepts.
- Brightness settings are two arbitrary functions on bytes instead of products with floats; the backlight timer is a flag.
- Sounds are on or off; the queue of eight notification messages is not modelled.
- A storage call made outside any thread, which returns at once, and the flash driver under littlefs.
- Mounting, formatting and littlefs or FatFs contents: what they answer is chosen freely.
- Races inside one SD API call with an unmount: each call is one step.
- Drawing, canvas, status bar layout, view port sizes and setters: no logic beyond a field.
- Callbacks that call back into the view dispatcher, its message loop and the input handling that picks the next view.
- Key names, the error views and the scenes of the iButton application.
- In `SdReplies` the events of other origin are served when they come, not in one queue with the requests.
- App loader, menu, CLI, archive browser, dolphin, power, Bluetooth, NFC worker, radio and sensor drivers, bootloader and asset scripts.
