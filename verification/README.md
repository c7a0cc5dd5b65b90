# A verified model of openpreflight

openpreflight is a small CI worker: it receives GitHub webhooks, queues one job per
commit in SQLite, runs the job's steps, streams and stores the log, and reports one
Check Run. This project models the parts of it that are hard to get right and proves
what they promise. `dafny verify dfyconfig.toml` checks everything.

| file | models |
|---|---|
| `Bytes.dfy` | bytes, options, sequence helpers |
| `Ansi.dfy` | the escape-sequence filter, its one-pass specification and its grammar |
| `LogWriter.dfy`, `LogReader.dfy` | the capped log file, the offset reader, the tail |
| `EventStream.dfy`, `LogStream.dfy` | server-sent events with an independent decoder; the `send` loop and the stream handler beside the writer |
| `StreamHistory.dfy` | the stream's runs told by their steps: what the log holds, what is sent of it, that it ends |
| `LogPipeline.dfy` | the writer and the stream put together |
| `Utf8.dfy`, `CheckOutput.dfy` | well-formed UTF-8 and its decoding with replacement; the Check Run text cutter |
| `Jobs.dfy` | the jobs table, one function per SQL statement, and the store over it |
| `ClaimLoop.dfy`, `Webhook.dfy`, `OneLiveRun.dfy` | `drain` and `CancelJob`; the webhook's guards; whole runs of one process |
| `Engine.dfy`, `EngineInvariants.dfy`, `EngineRuns.dfy` | the job engine as a machine at statement granularity, with crashes, and what every run keeps |
| `EngineHistory.dfy` | the same read off the events of a run: starts, requeues, Check Runs, and which of them the row names |
| `EngineRows.dfy` | who writes what, when a row is final, in what order jobs start, what a crash leaves |
| `EngineCancels.dfy`, `EngineStops.dfy` | what becomes of a cancel of a job without a goroutine, and of one with |
| `RunJob.dfy`, `StepDeadline.dfy` | one job from claim to its one outcome, and its titles; when its steps are stopped |
| `RunOutcomes.dfy` | that outcome written out case by case from what the world answered |
| `Rotation.dfy` | restartable key rotation |
| `LoginLimiter.dfy`, `Sessions.dfy`, `Mounts.dfy` | the sign-in budget, the sliding session deadline, the mount table |

Objects that the program updates in place are classes whose methods are proved against
functions on values; what runs concurrently is a state machine whose steps are the
program's statements, and its theorems are about every run. Functions named in the
theorems below (`Strip`, `Cancel`, `Taken`, `Finish`, ...) are the same ones the methods
are proved against; what they come to is then said again without them, byte by byte,
column by column, event by event, and with the constants written out.

## Where the code and its own comments differ

The code is followed in each case, with a lemma for the exact condition.

- `Truncated` (`internal/logs/logs.go:89`) says it reports whether the cap was reached. A write that
  ends exactly on the cap leaves the log unmarked and the rest is dropped without a notice:
  `LogWriter.Truncates` is the exact condition, `LogWriter.CapReachedWithoutNotice` an input.
- `SessionIdleTTL` (`internal/store/users.go:25`) is described as how long a session survives without a
  request. `Sessions.FullIdleWindow` says when it does; `Sessions.ActiveSessionDroppedEarly` is a session
  used at least every twelve hours and dropped before its week is over. What does hold is
  `Sessions.ActiveSessionLives`.
- The sign-in budget is five per fixed window; a sliding minute can see ten, and no more
  (`LoginLimiter.TenInAnyMinute`, `LoginLimiter.TenIsReached`).
- `PruneJobs` (`internal/store/jobs.go:391`) returns the ids it removed only when no DELETE of a job fails;
  otherwise it returns every id it selected (`Jobs.Store.PruneJobs`).
- `CancelJob` (`internal/queue/runner.go:180`) is said to stop a running job and to mark one that is only
  queued. Looking for a goroutine, reading the row and writing it are three statements, and the
  write does not look at the row again. The mark lasts exactly when the job is not claimed and has no
  goroutine that may yet write the row otherwise (`EngineCancels.CancelIsFinal`); seen from a row in
  flight, exactly when it is queued at the write, or left over from before a boot that has yet to
  queue it, or another call has stopped the job in its steps (`EngineCancels.CancelByStatus`).
  Otherwise the job runs on and its result may overwrite the mark (`EngineCancels.CancelIsLost`).
  A row no longer in flight at the write loses its result to the mark
  (`EngineCancels.FinishedIsOverwritten`).
- `Notify` (`internal/queue/runner.go:62`) wakes the loop after an enqueue. An enqueue that fails after its
  INSERT leaves a job without waking it (`EngineInvariants.UnannouncedWakes`,
  `EngineRuns.UnannouncedJobWaits`); only the ticker then finds the job.
- An interrupted job keeps its Check Run so that the run resolves (`internal/queue/runner.go:240-247`).
  `RunJob.EarlierRunEnds` says exactly when it does not, `RunJob.EarlierRunLeftOpen` is a case.
- A plan's timeout is said to tighten the job's or extend it (`internal/queue/runner.go:534-535`). It never
  extends it: `StepDeadline.PlanOnlyTightens`, `StepDeadline.ExtensionIsIgnored`.
- `truncateUTF8` (`internal/githubapp/checks.go:160`) splits no character unless the limit is too small for its
  notice; then it does exactly when the cut is inside one (`CheckOutput.ShortLimit`,
  `CheckOutput.ShortLimitSplits`). No caller reaches that: both limits in use leave room for the notice
  (`CheckOutput.CallersLeaveRoom`).
- The log page does not always show the log. A log survives the event stream exactly when it holds no
  carriage return and no chunk of it ends inside a character (`EventStream.RoundTrip`,
  `EventStream.RoundTripOfText`); the end of a 32 KiB read, or a poll between two writes, may put one there
  (`LogStream.ReadCutsCharacter`, `LogStream.CutCharacterRun`). A log that retention deletes, or that a
  requeued job empties, under a stream is not shown whole although the stream says "finished"
  (`LogStream.DeletedLogEndsShort`, `LogStream.RestartMixesLogs`).
- One live run per commit, and one commit per branch, do not survive a manual rerun or a crash
  unconditionally: `OneLiveRun.ManualRerun`, `OneLiveRun.ManualRerunOnBranch`,
  `OneLiveRun.CrashForgetsCancels` and `OneLiveRun.CrashForgetsBranches` say when they do. A first
  request that is answered "already queued" may be answered with a run that has been told to
  stop: `OneLiveRun.AnsweredWithADyingRun`. `OneLiveRun.RerunGoesWrong`, `OneLiveRun.CrashGoesWrong` and
  `OneLiveRun.AnswerGoesWrong` are runs from a fresh process that get there. A delivery that enqueues
  after another one slipped in behind its guards is as unguarded as a rerun, under the same conditions
  (`OneLiveRun.RacingDeliveries`).
- A mount at a path with a white-space character other than space, tab and newline is not read back,
  since the kernel escapes only these and fields end at any (`Mounts.KernelRow`,
  `Mounts.SpaceIsNotReadBack`).

## Model

| member | source | states |
|---|---|---|
| Ansi.AnsiFilter.Filter | internal/logs/ansi.go:39-59 | one call, fast path included, gives the one-pass output and held bytes from where the last call stopped; the held bytes are an unfinished sequence of fewer than 128 bytes |
| Ansi.ChunkIndependence | internal/logs/ansi.go:30-59 | however the input is cut into writes, the outputs concatenate to one pass over the whole |
| Ansi.Split | internal/logs/ansi.go:37-59 | output and held bytes of a concatenation, from any held state |
| Ansi.FilterIsGrammar | internal/logs/ansi.go:23-76 | an output and held bytes are the filter's if and only if the input reads as text bytes, well-formed sequences, 128-byte malformed runs and an unfinished rest with that text and that rest |
| Ansi.ReadingIsUnique | internal/logs/ansi.go:39-76 | an input has only one such reading: its pieces, its text and its rest are the ones the filter sees |
| Ansi.StripsExactly | internal/logs/ansi.go:39-76 | any interleaving of text with two-byte, CSI and OSC sequences of at most 128 bytes comes out as exactly its text, in order |
| Ansi.StripsSequences | internal/logs/ansi.go:28-76 | by number: output cut into text without 0x1b and sequences of at most 128 bytes comes out as its text, with nothing held; a sequence is 0x1b and one byte, or 0x1b `[` to the first byte from 0x40 to 0x7e, or 0x1b `]` to the first 0x07 or 0x1b backslash |
| Ansi.GivesUpAt128 | internal/logs/ansi.go:28-59 | a sequence that does not end is held whole up to 127 bytes; one of 128 is dropped, and what follows is text again |
| Ansi.ColourIsStripped | internal/logs/ansi.go:66-69 | bold red before an X leaves the X |
| Ansi.ParseRendersBack | internal/logs/ansi.go:39-59 | kept, dropped and held bytes together are the input, in order |
| Ansi.EcmaControlSequence | internal/logs/ansi.go:66-69 | every control sequence of ECMA-48, section 5.4, has the CSI form the filter strips |
| Ansi.KeptHasNoEsc | internal/logs/ansi.go:44-57 | no ESC reaches the output |
| Ansi.KeptIsSubsequence | internal/logs/ansi.go:44-57 | the output is the input with bytes deleted |
| Ansi.CleanPassesThrough | internal/logs/ansi.go:40-42 | input without ESC is unchanged, which justifies the fast path |
| LogWriter.Writer.Write | internal/logs/logs.go:41-75 | after any writes, as long as none landed short, the file is the first max bytes of the stripped input, then at most one notice; a short write is reported unless it is the notice, and leaves in the file a part of the stripped input in order, within the cap; every write reports its full length |
| LogWriter.LandedIsSound | internal/logs/logs.go:55-73 | one write below the cap, however much of it lands: what is stored stays a part of the stripped input within the cap, and is the payload with its mark if everything landed |
| LogWriter.PayloadIsCapped | internal/logs/logs.go:55-62 | the payload is a prefix of the filtered input: all of it, or exactly max bytes |
| LogWriter.DecimalReads | internal/logs/logs.go:65-66 | the notice names the cap in decimal digits, without a leading zero |
| LogWriter.FullStaysFull | internal/logs/logs.go:49-54 | once full, further writes change neither payload nor mark |
| LogWriter.Writer.Truncated | internal/logs/logs.go:89-94 | while no write landed short, true exactly when some write carried the log across its cap |
| LogWriter.TruncatesIsCrossing | internal/logs/logs.go:52-62 | the mark's condition: some one write found the log below its cap and carried it above |
| LogWriter.Writer.Bytes | internal/logs/logs.go:83-87 | the number of log bytes in the file, short writes included, the notice not counted; the payload's length if none was short |
| LogWriter.Writer.Close | internal/logs/logs.go:96-106 | leaves the file as it is; later writes change nothing |
| LogWriter.CapReachedWithoutNotice | internal/logs/logs.go:52-54 | a write that ends on the cap loses the rest of the log silently |
| LogWriter.ReadIsFaithful | internal/logs/logs.go:108-121 | reading a log written here returns the file unchanged, notice included |
| LogWriter.Read | internal/logs/logs.go:111-121 | a file is read as its stripped bytes, a missing one as empty |
| LogReader.ReadFrom | internal/logs/logs.go:123-162 | the bytes from an offset, 32 KiB at a time, for missing files and offsets past the end too |
| LogReader.TailIsALineSuffix | internal/logs/logs.go:164-194 | a tail is the whole log, or the notice and the part of the last n bytes after their first newline |
| LogReader.OmittedText | internal/logs/logs.go:191 | the text of that notice, in the encoding of its characters |
| EventStream.WriteSSEData | internal/api/logs_stream.go:118-125 | writes one data line per log line and a blank line |
| EventStream.DataOnWire | internal/api/logs_stream.go:118-125 | a chunk of one line is `data: `, the line and two newlines |
| EventStream.LinesAreSplit | internal/api/logs_stream.go:118-125 | a chunk goes line by line, cut at each newline |
| EventStream.PingOnWire | internal/api/logs_stream.go:91-93 | a heartbeat is the comment `: ping` and two newlines |
| EventStream.FinishedOnWire | internal/api/logs_stream.go:127-129 | the last event is `event: finished`, an empty data line and a blank line |
| EventStream.FieldsOfLine | internal/api/logs_stream.go:118-129 | the decoder takes a line `data: x` as data and `event: x` as the event's name, and ignores every other field |
| EventStream.RoundTrip | internal/api/logs_stream.go:118-129 | a decoder written from section 9.2.6 of the HTML Living Standard, its UTF-8 decoding included, gets back exactly the log bytes sent if and only if they hold no CR and every chunk is valid UTF-8 on its own |
| EventStream.RoundTripOfText | internal/api/logs_stream.go:118-129 | a valid log is got back if and only if it holds no CR and no chunk ends inside a character |
| EventStream.BodyIsValid | internal/api/logs_stream.go:118-129 | the response body is valid UTF-8 exactly when every chunk is |
| EventStream.CutCharacterIsLost | internal/api/logs_stream.go:118-125 | a valid log without CR, sent in two chunks, that is not got back |
| EventStream.TextRoundTrip | internal/api/logs_stream.go:118-129 | once decoded as UTF-8, a text is got back if and only if it holds no CR |
| Utf8.RepairKeepsValid | internal/api/logs_stream.go:118-129 | the client's UTF-8 decoder leaves exactly valid text as it is |
| Utf8.RuneIsScalar | internal/githubapp/checks.go:167-175 | bytes start with a well-formed character exactly when they start with a Unicode scalar value as section 3 of RFC 3629 encodes it |
| Utf8.EncodedIsValid | internal/githubapp/checks.go:167-175 | the encodings of any scalar values, one after another, are valid |
| Utf8.ValidIsEncoded | internal/githubapp/checks.go:167-175 | and valid text is nothing else |
| EventStream.DecodeData | internal/api/logs_stream.go:118-125 | once decoded as UTF-8, a chunk without CR is one unnamed event with that payload, whatever follows |
| EventStream.DecodedHasNoCr | internal/api/logs_stream.go:118-125 | no decoded payload ever holds a CR |
| LogStream.Streamer.Send | internal/api/logs_stream.go:39-67 | on a file that does not change, `send` ends with everything visible sent, as a prefix of the file, on the wire; when the client leaves or a read fails it ends at that turn with a longer prefix sent |
| LogStream.TurnExtendsPrefix | internal/api/logs_stream.go:47-65 | one turn extends the sent prefix within the cap, or everything visible has been sent |
| LogStream.StreamIsComplete | internal/api/logs_stream.go:21-116 | in every interleaving with the writer and with retention, as long as the log is not emptied under the stream: what was sent is a prefix of the log within the cap; "finished" is sent exactly by a stream that ended on a terminal row or on a row it could not read; and after a terminal row, with the log still there, everything visible when the row turned terminal was sent |
| LogStream.RestartKeepsPrefix | internal/logs/logs.go:25-39 | a job that opens its log again leaves what was sent a prefix of it exactly when nothing was sent |
| LogStream.RestartMixesLogs | internal/logs/logs.go:25-39 | a stream that shows the start of one log and the rest of the next |
| LogStream.DeletedLogEndsShort | internal/queue/runner.go:665-673 | a stream whose log is deleted after its row was read says "finished" with nothing sent |
| LogStream.ReaderSeesTheLog | internal/api/logs_stream.go:39-66 | in every run the client's text is what was sent, which is a prefix of a log not emptied, if and only if that has no CR and every chunk was valid UTF-8; for a valid prefix, no CR and no chunk ending inside a character |
| LogStream.CutCharacterRun | internal/api/logs_stream.go:39-66 | a run in which a poll reads half a character, and the client's text is not the log |
| LogStream.ReadCutsCharacter | internal/logs/logs.go:123-162 | a valid log with a character across the end of its first 32 KiB is never shown as it is, however the run goes on |
| LogStream.SendTerminates | internal/api/logs_stream.go:40-67 | from any reachable state, `send` ends in finitely many turns if nobody else steps |
| StreamHistory.FinishedMeansAllSent | internal/api/logs_stream.go:21-116 | by the steps alone: unless the log is emptied after some of it was sent, what a running job's stream has sent is the start of what was written, within the cap, and after a terminal row at least all that was there when the row turned terminal |
| StreamHistory.WorldOfRun | internal/api/logs_stream.go:21-116 | log, file and row are what the job and retention made of them; the handler's steps touch none |
| StreamHistory.HeartbeatsArePings | internal/api/logs_stream.go:84-93 | every heartbeat, and nothing else, sends one comment |
| StreamHistory.StreamEnds | internal/api/logs_stream.go:69-116 | once the row is no more in flight the stream, left alone, says "finished", and after a terminal row with the log still there it has sent everything |
| LogPipeline.ReaderGetsStrippedOutput | internal/api/logs_stream.go:39-115 | a stream that finished, of a log nothing was added to since its row turned terminal, shows exactly the stripped output up to the cap, whatever the writes and the interleaving, if and only if that output has no CR and no chunk of it was cut inside a character |
| LogPipeline.VisiblePartIsPayload | internal/logs/logs.go:43-75 | a stream with the writer's cap shows the payload and not the notice |
| LogPipeline.ReaderGetsTheText | internal/logs/ansi.go:39-59 | for output made of text and well-formed sequences the payload is its text |
| Utf8.BoundaryNear | internal/githubapp/checks.go:172-175 | valid text cut anywhere is valid again at most three bytes later |
| Utf8.PrefixValid | internal/githubapp/checks.go:167-169 | a prefix of valid text is valid exactly when the next byte starts a character |
| CheckOutput.TruncateUTF8 | internal/githubapp/checks.go:160-180 | at most limit bytes; the input itself, or the notice and the longest valid suffix that fits, moved to a line start within 200 bytes; valid whenever the notice fits; for valid input at least limit - 203 bytes |
| CheckOutput.DropPartialRune | internal/githubapp/checks.go:171-175 | the loop stops at the first valid suffix |
| CheckOutput.KeepTail | internal/githubapp/checks.go:170-179 | a valid end of the text that fits, from a character and preferably a line start, at most 203 bytes short for valid text |
| CheckOutput.LineStartIsNear | internal/githubapp/checks.go:176-178 | the kept end moves to a line start exactly when its first newline is among its first 200 bytes |
| CheckOutput.NoticeText | internal/githubapp/checks.go:166 | the text of the notice, in the encoding of its characters |
| CheckOutput.ShortLimit | internal/githubapp/checks.go:167-169 | with no room for the notice the cut of valid text is valid exactly when it is not inside a character |
| CheckOutput.ShortLimitSplits | internal/githubapp/checks.go:167-169 | a two-byte character cut to one byte is not valid text |
| CheckOutput.CallersLeaveRoom | internal/githubapp/checks.go:149-155 | the notice has 58 bytes and both limits in use are longer, so no caller reaches that cut |
| Jobs.Store.EnqueueJob | internal/store/jobs.go:106-133 | adds one queued row with a new key, or nothing for a job without repo or commit; it succeeds exactly when the row is added and the statements after the INSERT succeed |
| Jobs.Store.ClaimNextJob | internal/store/jobs.go:225-252 | takes the queued row with the smallest key, and finds none only when none is queued |
| Jobs.Store.InFlightJobForDelivery | internal/store/jobs.go:254-270 | the newest in-flight row of a non-empty delivery id |
| Jobs.Store.InFlightJobForSuite | internal/store/jobs.go:272-294 | the newest in-flight row of an App, repo and commit |
| Jobs.Store.InFlightJobsForRef | internal/store/jobs.go:296-314 | every in-flight row of a repo and ref, once |
| Jobs.Store.SetJobCheckRun | internal/store/jobs.go:316-320 | stores the id it is given in one column of one row, if the row is there; every other column and row stays |
| Jobs.Store.FinishJob | internal/store/jobs.go:344-347 | writes the terminal columns and leaves the reason |
| Jobs.Store.FinishJobWithSkipReason | internal/store/jobs.go:349-371 | writes the terminal columns; an empty reason leaves the reason column |
| Jobs.Store.RequeueStaleJobs | internal/store/jobs.go:373-389 | every interrupted row is queued again and counted, no Check Run id is touched |
| Jobs.Store.PruneJobs | internal/store/jobs.go:391-424 | deletes selected terminal rows only; the returned ids are those deleted if and only if no DELETE of a job failed; it succeeds if the one of old deliveries does not fail either |
| ClaimLoop.Runner.CancelJob | internal/queue/runner.go:180-198 | stops a running job, finishes one that is only queued, and says whether there was either |
| ClaimLoop.Runner.Drain | internal/queue/runner.go:97-125 | starts the oldest queued jobs, none younger than one left behind, until as many run as the setting says, or one if it says less, or none is queued; never more; changes nothing else |
| ClaimLoop.DrainedMore | internal/queue/runner.go:112-123 | one more claim keeps the set of started jobs the oldest ones |
| ClaimLoop.DrainedRows | internal/queue/runner.go:97-125 | row by row: a started job was queued and is in progress, none is younger than one left queued, every other row is as it was |
| Webhook.Server.HandleWebhook | internal/api/webhook.go:137-214 | a delivery is answered with the newest duplicate and no change, or cancels what the new job replaces and enqueues it, or fails after the cancels, with the job inserted or not; it notifies exactly when it answers with a new job |
| Webhook.AnswerIsDuplicate | internal/api/webhook.go:137-166 | "already queued" is the answer exactly when a job of this delivery, or for a request one for this App, repo and commit, is queued or in progress; it names the newest such job and changes nothing |
| Webhook.NewRow | internal/api/webhook.go:181-197 | a new job's row, field by field: the delivery's App, repo, commit, ref, id and skip reason, queued, without a Check Run |
| Webhook.WhenInserted | internal/api/webhook.go:181-206 | a delivery that is no duplicate adds one row exactly when it has a repo and a commit and its id is free, and says so exactly when the statements after the INSERT succeed |
| Webhook.OtherRows | internal/api/webhook.go:158-179 | such a delivery stops exactly the jobs it makes pointless, the newest for its own commit and every other commit's on its branch: cancelled in the row if queued, told to stop if running; every other row is as it was |
| RunOutcomes.SkippedDelivery | internal/api/webhook.go:181-197 | a job enqueued by a delivery with a reason not to run never reaches its clone, and once its Check Run is open it ends as skipped for that reason |
| Webhook.Server.CancelSuperseded | internal/api/webhook.go:216-237 | cancels every in-flight job of the ref that is for another commit, and no other |
| Webhook.CancelOneMore | internal/api/webhook.go:229-236 | cancelling one by one is cancelling all at once, whatever the order |
| OneLiveRun.OneLiveRunPerCommit | internal/api/webhook.go:149-181 | in every state of every run: of the in-flight jobs for one commit only the newest is not told to stop, and unstopped jobs on one branch are for one commit |
| OneLiveRun.ClearedMakesRoom | internal/api/webhook.go:158-179 | the cancels before an enqueue leave nothing unstopped that the new job competes with |
| OneLiveRun.ManualRerun | internal/api/jobs.go:138-177 | an unguarded rerun keeps one live run exactly when every in-flight job for the commit was told to stop |
| OneLiveRun.ManualRerunOnBranch | internal/api/jobs.go:138-177 | it keeps one commit per branch exactly when every unstopped in-flight job on the branch is for the commit rerun |
| OneLiveRun.RerunGoesWrong | internal/api/jobs.go:138-177 | after two pushes to a branch a rerun of either breaks one of the two |
| OneLiveRun.CrashForgetsCancels | internal/store/jobs.go:373-389 | after a crash there is one live run per commit exactly when there was one in-flight job per commit |
| OneLiveRun.CrashForgetsBranches | internal/store/jobs.go:373-389 | and one commit per branch exactly when all in-flight jobs of a branch were for one commit |
| OneLiveRun.CrashGoesWrong | internal/store/jobs.go:373-389 | runs of a fresh process after which a crash breaks the one, and the other |
| OneLiveRun.AnsweredWithADyingRun | internal/api/webhook.go:149-166 | after "already queued", to a request or a redelivery, the commit of the job named has an unstopped run exactly when the newest job for it was not told to stop; for a first request that is the job named |
| OneLiveRun.AnswerGoesWrong | internal/api/webhook.go:149-166 | a run of a fresh process whose request, and whose redelivery, is answered with a job that was told to stop |
| OneLiveRun.RacingDeliveries | internal/api/webhook.go:149-181 | two deliveries that both run their guards before either enqueues break one live run per commit, or one commit per branch |
| EngineRuns.NoLostWakeUp | internal/queue/runner.go:62-125 | in every run whose enqueues all notify, whenever the loop waits with its slot empty: nothing queued, or limit reached, or somebody is still about to notify |
| EngineInvariants.UnannouncedWakes | internal/api/webhook.go:181-206 | an enqueue that fails after its INSERT, and so does not notify, loses its wake-up exactly when the loop waits with its slot empty, a job could run, and nobody else is about to notify |
| EngineRuns.UnannouncedJobWaits | internal/api/webhook.go:181-206 | a run from an empty database in which such a job waits for the ticker beside an idle loop |
| EngineRuns.QueuedJobGetsClaimed | internal/queue/runner.go:83-125 | with notifications sent, work queued and a free slot, the loop's own statements claim the oldest job without the ticker exactly when it does not wait with its slot empty |
| EngineRuns.ReadyLoopIsAwake | internal/queue/runner.go:62-125 | so in a run whose enqueues all notify the ticker is not needed |
| EngineRuns.ClaimSafety | internal/queue/runner.go:98-164 | no more jobs run than the setting says, or one if it says less; a claimed job has not run in this process; starts are at most one more than requeues |
| EngineRuns.OneStartPerBoot | internal/queue/runner.go:138-164 | between two crashes a job is started at most once |
| EngineRuns.LeavingFlightIsPermanent | internal/store/jobs.go:344-389 | no run, crashes and requeues included, brings a terminal or deleted job back into flight |
| EngineRuns.PruneDeletesOnlyTerminal | internal/store/jobs.go:393-423 | whatever runs between its statements, each DELETE of retention finds a row that is there and terminal, and no deleted row is back when it is done |
| EngineRuns.CheckRunConservation | internal/queue/runner.go:240-288 | over any number of boots a job's Check Run creations are at most one plus its failed reopens plus its lost ids |
| EngineRuns.RecordedRunIsKept | internal/store/jobs.go:373-389 | a recorded Check Run id never becomes 0 again |
| EngineHistory.TallyIsCount | internal/queue/runner.go:138-288 | each tally of the engine is the number of such events in the run |
| EngineHistory.StartsFollowRequeues | internal/queue/runner.go:138-164 | counted over the events of any run, a job is started at most once more than it was requeued |
| EngineHistory.OneStartBetweenCrashes | internal/queue/runner.go:138-164 | counted over the events between two crashes, at most once |
| EngineHistory.CreationsAreOwed | internal/queue/runner.go:240-288 | counted over the events of any run, Check Runs created are at most one plus failed reopens plus ids that did not get into the row |
| EngineHistory.RowNamesLastRun | internal/queue/runner.go:278-288 | in every run, crashes included, the row holds the id GitHub answered at the last creation that was recorded, and a goroutine that starts, or a claim, has that id |
| EngineHistory.SecondCheckRun | internal/queue/runner.go:240-288 | a run in which a job gets a second Check Run, its first id lost in a crash |
| EngineHistory.EndedJobIsPruned | internal/store/jobs.go:393-423 | a run in which a job ends and retention deletes it |
| EngineRows.StepWritesRow | internal/store/jobs.go:225-371 | each statement of each actor writes its own columns of its own row, written out, and only retention deletes one |
| EngineRows.FinalRowStays | internal/queue/runner.go:180-198 | a row out of flight to which no claim, goroutine or canceller holds a write keeps every column until retention deletes it, in every run, crashes and cancels of the job included |
| EngineRows.OldestStartsFirst | internal/store/jobs.go:225-252 | between two crashes no job is started while one enqueued before it stays queued |
| EngineRows.EnqueuedLast | internal/store/jobs.go:106-133 | a new job is queued behind every other, and no other row changes |
| EngineRows.KeysAreUnique | internal/store/jobs.go:106-133 | in every run no two rows have one place in that order |
| EngineRows.CrashIsAFreshStart | internal/queue/runner.go:64-96 | after a crash the table is as it was and the process as one just started |
| EngineRows.SteppingCanEnd | internal/queue/runner.go:593-608 | steps that nobody stopped may end as passed or failed, any steps as cancelled |
| EngineCancels.CancelIsFinal | internal/queue/runner.go:180-198 | the row a cancel writes stays cancelled in every run if and only if, at the write, the job is not between its claim and its registration, and its goroutine has written the row or can only write it as cancelled; otherwise some run overwrites it, with a success if the job was not told to stop and has decided nothing |
| EngineCancels.QueuedCancelIsFinal | internal/queue/runner.go:180-198 | a job whose row is still queued at the write never runs |
| EngineCancels.CancelByStatus | internal/queue/runner.go:180-198 | in every run from an empty database a cancel of a job in flight is final exactly when its row is queued at the write, or the process has yet to requeue it, or another call already stopped the job in its steps |
| EngineCancels.CancelIsLost | internal/queue/runner.go:180-198 | a run from an empty database in which a cancelled job goes on to a success |
| EngineCancels.FinishedIsOverwritten | internal/queue/runner.go:180-198 | a run from an empty database in which a job that succeeded is marked cancelled for good |
| EngineStops.ToldJobNeverSucceeds | internal/queue/runner.go:138-198 | a running job that is told to stop, by a cancel or by shutdown, succeeds in no run without a crash, if and only if its goroutine has not already decided on a success |
| EngineStops.ToldInStepsEndsCancelled | internal/queue/runner.go:593-627 | told in its steps, its row is cancelled by the time its goroutine is gone |
| EngineInvariants.WakeKept | internal/queue/runner.go:62-158 | every statement of every actor keeps the wake-up invariant |
| EngineInvariants.CheckRunKeptByWork | internal/queue/runner.go:248-288 | each statement of the Check Run reuse keeps the creation budget |
| RunJob.RunJob | internal/queue/runner.go:200-608 | every path writes exactly one terminal row; every path with a Check Run open completes it once, with the stored conclusion; conclusion, status, error, reason, title and note follow from the first stage that stopped the job; a Check Run is created exactly when none was reopened |
| RunJob.RunChecked | internal/queue/runner.go:313-415 | from an open Check Run to the clone: skips, filter, workspace and token each end in one row and its completion |
| RunJob.RunClone | internal/queue/runner.go:417-451 | a clone that fails with the context done is cancelled or timed out, otherwise a failure; row and completion agree however the context is read |
| RunJob.RunPlan | internal/queue/runner.go:453-521 | an empty plan is skipped or failed as the binding says; an unusable plan or image fails |
| RunJob.RunToResult | internal/queue/runner.go:557-608 | timed out or cancelled before failed before passed, stored and completed alike |
| RunJob.Trace.FinishCancelled | internal/queue/runner.go:618-627 | timed out when the deadline or a step says so, else cancelled |
| RunJob.Trace.Complete | internal/queue/runner.go:290-311 | one completion with the title of its conclusion and results |
| RunJob.RunSteps | internal/queue/runner.go:557-589 | the results are the plan's steps: passed, then at most one failed, then skipped; a workspace over its cap fails the step it was found after; the error is that check's, if it stopped the steps |
| RunOutcomes.RanIsRecorded | internal/queue/runner.go:557-589 | every step that ran has the name, command, exit code, error and time-out it ran with, unless the size check failed it; the rest are skipped; a result timed out exactly when a step that ran did |
| RunOutcomes.ContextEndsOnce | internal/queue/runner.go:593-627 | what is assumed of the job's context: it is done from some look on, for one cause, or never |
| RunOutcomes.EndsBeforeCheckRun | internal/queue/runner.go:200-288 | without a log, App, client or Check Run: an error with that message, and no completion |
| RunOutcomes.DecidedSkip | internal/queue/runner.go:314-327 | a job that was decided not to run ends as skipped for its reason, with the explanation of it on the Check Run |
| RunOutcomes.EndsBeforeClone | internal/queue/runner.go:336-415 | row and completion when the path filter, the workspace or the token ends the run |
| RunOutcomes.EndsInClone | internal/queue/runner.go:417-451 | row and completion of a clone that fails, is cancelled or times out, or is too large |
| RunOutcomes.EndsInPlan | internal/queue/runner.go:453-521 | row and completion of an empty, unresolved or unusable plan |
| RunOutcomes.EndsInSteps | internal/queue/runner.go:557-608 | row and completion of a run that reaches its steps, by the first step that does not pass: timed out if and only if the job's deadline has passed or a step that ran hit one; else cancelled if the context is done; else failed with that step in the title, or passed |
| RunOutcomes.StopIsUnique | internal/queue/runner.go:557-589 | that step is determined by what the steps did |
| RunOutcomes.DigitsRead | internal/queue/summary.go:47 | an exit code is spelled in decimal digits, without a leading zero |
| RunJob.EarlierRunEnds | internal/queue/runner.go:200-288 | the Check Run a requeued job has is left open, and nothing is completed, exactly when the log, the App or its client fails or the run can be neither reopened nor created anew; otherwise the one completion is of that run if it could be reopened, else of the new one |
| RunJob.EarlierRunLeftOpen | internal/queue/runner.go:218-223 | an interrupted job whose App is gone: its Check Run is never completed |
| StepDeadline.StepsEndAtTheEarlier | internal/queue/runner.go:534-547 | the steps are stopped when the job's context is done or the plan's own time is up, whichever is first |
| StepDeadline.PlanOnlyTightens | internal/queue/runner.go:534-547 | a plan's timeout changes when the steps are stopped exactly if it is up before the job's context is done |
| StepDeadline.ExtensionIsIgnored | internal/queue/runner.go:534-547 | a plan that asks for more time than the job has is stopped at the job's deadline |
| RunJob.StepsOfOutcome | internal/queue/runner.go:557-608 | success only when all steps passed; a failure of the steps is titled with the one that failed |
| RunJob.FirstFailureIs | internal/queue/summary.go:35-52 | the step a failure is titled with is the one that failed, not one before or after it |
| RunJob.TitleFor | internal/queue/summary.go:32-52 | the loop finds the first step that ran and did not pass |
| Rotation.SecretStore.RotateSecrets | internal/store/rotate.go:11-124 | every row is sealed again under the new key or left alone if it opens already, up to the first that neither key opens; the count is the rows rewritten; every committed state keeps every plaintext |
| Rotation.RerunFinishes | internal/store/rotate.go:11-16 | a rotation started again on any state that lost nothing succeeds, and every column opens under the new key to its first plaintext |
| Rotation.FurtherRunIsIdle | internal/store/rotate.go:126-141 | a further rotation reports 0 and changes no stored string |
| Rotation.SucceedsIfReadable | internal/store/rotate.go:50-57 | a rotation succeeds if and only if every column opens under one of the keys |
| Rotation.ReadableIsUnderEitherKey | internal/store/rotate.go:126-141 | a column is readable exactly when it is empty or sealed under one of the two keys, and reads as what was sealed |
| Rotation.CountIsRowsChanged | internal/store/rotate.go:18-124 | the count is the number of rows whose stored strings changed, whether the rotation succeeds or stops |
| Rotation.RewrittenOpensUnderNew | internal/store/rotate.go:126-141 | a column that changed opened under the old key only, and opens to the same under the new key, and not under the old unless it is empty |
| Rotation.Seal | internal/secret/secret.go:50-62 | a sealed value opens under its key to what was sealed |
| LoginLimiter.LoginLimiter.Allow | internal/api/auth.go:35-46 | records the attempt in the right window; the wait is positive and at most a minute |
| LoginLimiter.LoginLimiter.Clear | internal/api/auth.go:48-53 | gives one address its whole budget back and touches no other |
| LoginLimiter.AnswerMeans | internal/api/auth.go:35-46 | an attempt is let through if and only if fewer than five were counted in its window, and one that waits as long as it is told to opens a new window |
| LoginLimiter.TenInAnyMinute | internal/api/auth.go:18-46 | over any run in which the address does not sign in, at most ten attempts in any half-open minute |
| LoginLimiter.FiveInOneWindow | internal/api/auth.go:18-46 | at most five attempts in one window |
| LoginLimiter.TenIsReached | internal/api/auth.go:41-45 | ten attempts in one minute do get through across a window's end |
| Sessions.SessionStore.CreateSession | internal/store/users.go:142-156 | a new session is in its window, with a day ahead of it |
| Sessions.SessionStore.UserBySession | internal/store/users.go:158-208 | a lookup drops a dead session, slides a live one, and leaves every other row alone |
| Sessions.Durations | internal/store/users.go:19-31 | the idle window is a day, the longest life a week, and the slack half a day |
| Sessions.WindowOverRuns | internal/store/users.go:180-205 | over any run of requests the stored deadline is at most half an idle window early and never late |
| Sessions.NextRequest | internal/store/users.go:185-205 | a request after the deadline is refused, one up to twelve hours before it is accepted |
| Sessions.ActiveSessionLives | internal/store/users.go:19-31 | requests at most twelve hours apart keep a session alive up to twelve hours before a week is over |
| Sessions.DeadSessionStaysDead | internal/store/users.go:25-31 | after an idle day or a week no request is ever accepted again |
| Sessions.FullIdleWindow | internal/store/users.go:193-205 | for any row, the full idle window is kept exactly when the stored deadline was not early or early enough for a rewrite |
| Sessions.CorrectedOverRuns | internal/store/users.go:189-205 | whatever deadline a row was issued with, after any requests it is within half an idle window of the wanted one, either way |
| Sessions.AnyRowExpires | internal/store/users.go:185-205 | so any row in use is refused half an idle window after the wanted deadline, and after its week |
| Sessions.ActiveSessionDroppedEarly | internal/store/users.go:193-205 | a session in regular use can be dropped before its week is over |
| Mounts.UnescapeMount | internal/executor/mountinfo.go:109-125 | the loop replaces each octal escape that fits a byte, and nothing else |
| Mounts.UnescapeInverts | internal/executor/mountinfo.go:109-125 | undoes the kernel's escaping of every byte string, whatever else than the backslash is escaped |
| Mounts.OctalMeans | internal/executor/mountinfo.go:109-125 | an escape is a backslash and three octal digits of a number below 256, and stands for that byte |
| Mounts.FirstEscapeIsReplaced | internal/executor/mountinfo.go:109-125 | the text before the first escape stays, the escape becomes its byte, and the rest is read after it |
| Mounts.NoEscapeNoChange | internal/executor/mountinfo.go:109-125 | text without an escape, lone backslashes included, stays as it is |
| Mounts.SpaceIsWhiteSpace | internal/executor/mountinfo.go:89-107 | fields end exactly at the encodings of Unicode's white-space characters |
| Mounts.ParseMountinfoLine | internal/executor/mountinfo.go:89-107 | the mount of a row of at least ten fields, separated by any white space, with a dash from the seventh on, and no other row's |
| Mounts.KernelRow | internal/executor/mountinfo.go:89-107 | a row as the kernel prints it, with any optional fields, is read back to its mount if and only if neither path holds a white-space character, Unicode's included, other than space, tab and newline |
| Mounts.SpaceIsNotReadBack | internal/executor/mountinfo.go:89-107 | no row of a mount at a path with a carriage return, or with a no-break space, is read back to it |
| Mounts.CoversIsComponentPrefix | internal/executor/mountinfo.go:64-69 | on clean absolute paths covering is having the point's components first |
| Mounts.HostPath | internal/executor/mountinfo.go:26-61 | below the host directory an operator named, if the workspace covers the path; else maps through the first of the longest covering mount points, or returns the path when there is none |
| Mounts.DeepestMountWins | internal/executor/mountinfo.go:45-61 | that mount is the first of the deepest directories above the path, and the components below it go below its root |
| Mounts.MapsBelowRoot | internal/executor/mountinfo.go:57-61 | the remainder goes below the root, and below the mount point it rebuilds the path |

## Left out

- HTTP routing, cookies, signatures, JSON, forms, pages and templates: plumbing around the modelled parts.
- SQL and SQLite: a table is a map and a statement is one step; store errors are left out except the failing DELETEs of `PruneJobs`, what can fail in `EnqueueJob` after its INSERT, and the stream's row read.
- The deliveries table: it is written and pruned but no decision reads it.
- GitHub, Coolify, git, Docker and process execution are arbitrary outcomes given to `RunJob`; that a request to GitHub arrives is not claimed.
- Cryptography: a sealed value is a key, a nonce and a plaintext, and opens under its key only; tokens are compared as if their hashes never collide.
- Random ids: a job id is never issued twice; that is assumed in `Engine`, while `Jobs.Store.EnqueueJob` fails on a taken one.
- Time: `created_at` is an abstract key that grows with each enqueue; the text comparison in the retention cutoffs is replaced by an arbitrary set of old rows.
- LogWriter.Writer.Append: with `Filtered` and `Land` is the second half of the source's `Write`, split off; the notice text is fixed when the writer is made, since it depends on the cap only.
- LogStream.StreamIsComplete: says nothing of a log that was emptied after some of it was sent; a deleted log is not created again.
- LogStream.ReaderSeesTheLog: a client that reconnects starts over with an empty page and a new stream, which is not modelled.
- EngineRuns.NoLostWakeUp: is for a fixed limit, and the loop's own store errors are not steps; the five-second tick, which is one, is the source's answer to them.
- EngineStops.ToldJobNeverSucceeds: says nothing past a crash, which forgets that the job was told to stop.
- EngineCancels.CancelIsFinal: is about the row's status; a call to GitHub that was on its way when the job was told to stop may still succeed.
- Jobs.Store.EnqueueJob: recording the delivery and reading the row back are one outcome, `confirmed`.
- Jobs.Store.PruneJobs: of the deliveries table only that its DELETE may fail.
- OneLiveRun.OneLiveRunPerCommit: takes a delivery, a claim with its registration, and a cancel as one step each, in one process lifetime.
- RunJob.RunJob: is split into one method per stage; messages are abstract strings, the texts that explain a skip are one function `explain`, the log lines and the Markdown summary are not modelled, and all that is known about time is that a context that is done stays done (`StepDeadline` says when the steps' context is).
- Rotation.SecretStore.RotateApps: and `RotateInstances` are the two halves of the source's `RotateSecrets`.
- Mounts.HostPath: takes clean paths, the named directory included; `Rel` and `Join` stand for the library's functions on clean absolute paths only.
- Mounts.KernelRow: is for paths that do not start with such a character, as no absolute path does.
- Plan precedence, project detection, settings clamping, health ranking and redaction: short branch tables with easy lemmas only.
