# IronHarness: verified models of its transports, protocols and verdicts

IronHarness lets an agent drive boards, simulated peers and processes through one session, writes down everything
that happens, and scores the runs. Its parts are small and stateful: byte-stream decoders, threads that share a queue
or a lock, logs that rotate, buffers that forget. This project models these parts in Dafny, in the form the source
gives them (classes with the same fields, loops where the source loops, step systems where threads interleave), and
proves what their comments, documentation and tests promise about every input, run or interleaving.

| file | what it models |
|---|---|
| `Sequences.dfy` | search, joining and slicing of sequences |
| `ReplText.dfy`, `ReplBoard.dfy`, `RawRepl.dfy` | file transfer over the MicroPython raw REPL: command texts, a board at the far end, the driver |
| `StdinPump.dfy` | the asynchronous stdin writer: callers, an event, a queue and a pump thread |
| `LockOrder.dfy` | the locks of session, readers, limiter and journal, with any number of threads |
| `LineRace.dfy` | one serial port and who is on its line: calls that passed a gate, readers that come and go, transfers and monitors |
| `Journal.dfy`, `Replay.dfy` | the rotating journal shared by many writers, its chain read, and replaying a recording |
| `AntiCheat.dfy` | stamped output, its cap and truncation, and the verdict on when an answer was printed |
| `SerialReader.dfy` | the bounded buffer of a background reader as a window onto the received stream |
| `Telnet.dfy` | the telnet filter of the emulator's terminal |
| `MqttFraming.dfy`, `Topics.dfy`, `MqttBroker.dfy`, `RetainedRace.dfy` | MQTT packets in both decoders, topic filters, the retained store, and publishing against subscribing in different threads |
| `RateLimiter.dfy` | the fixed-window rate limiter, measured over any interval |
| `SessionGates.dfy` | the session's registries and gates: who may read which port |
| `Monitor.dfy` | the bounded capture window of a serial monitor |
| `Modbus.dfy` | the simulated Modbus server |
| `Plant.dfy` | the closed-loop plant and its step-response metrics |

Bytes are integers from 0 to 255, time is a real number the environment chooses, and a read from a link returns any
non-empty part of what is pending. Where a lock protects a region, that region is one step, except in `LockOrder.dfy`,
where the lock operations themselves are the steps. The step systems cover every interleaving.

## What the proofs found

Most of these are places where the code does something other than its documentation says, each with its exact
condition. The models follow the code.

- **Rate limiter.** "At most `max_calls` per window" holds per window only. Over any half-open interval of the
  window's length the sharp bound is `2 * max_calls - 1`, over a closed one `2 * max_calls`; both are attained. Every
  such interval keeps to the limit if and only if `max_calls` is at most one (`RateLimiter.KeepsLimitExactly`).
- **Wait loop of the unix runner.** One turn looks at the log twice, for the stamp and for the bare needle, and then
  tests for the end of the output. An honest answer that arrives between the two looks, or behind the last of them,
  is not credited. A run whose final log condemns none of its waits is convicted if and only if the program has
  exited and the first wait was not credited for such a reason, or not answered (`AntiCheat.JudgeRun`;
  `AntiCheat.HonestAnswersConvicted` gives one run of each kind).
- **`tail()["dropped"]`** is not the number of bytes dropped or consumed: consumed whole chunks are missing from it. It
  is complete if and only if no read began in front of the oldest chunk still held (`SerialReader.WhatTailMisses`).
- **Stdin writer.** A write accepted after the pump has exited is never delivered, and one accepted before always is,
  unless the pipe breaks (`StdinPump.AcceptedIsDelivered`).
- **Broker.** A retained message with a payload, published while another client subscribes, never falls between the two,
  but it can arrive twice: exactly if some matching subscription of the client is entered before the live send, the store
  precedes the snapshot, and nothing else is stored for the topic in between (`RetainedRace.ArrivesTwice`). Retained
  messages are delivered with a clear RETAIN flag (`MqttBroker.DeliveredUnretained`), unlike section 3.3.1.3 of MQTT
  Version 3.1.1.
- **The serial line.** "A read and a write never overlap" holds of calls that saw the present owner of the port. A call
  passes its gate under the session lock and goes to the line after leaving it. While a reader, transfer or monitor
  stays registered, and no reset is forced in beside a transfer, its line is used by one at a time if and only if no
  call is still under way that passed its gate before (`LineRace.ExclusiveExactly`). Otherwise an early write, an early
  read, a write under the I/O lock of a replaced reader, or a call admitted before a transfer can meet it there; there is
  one run of each kind.
- **Modbus.** A read of more than 127 existing registers has no answer: its byte count does not fit a byte.
- **Settling time.** `inf` means that the last sample is outside the band, not that the band was never entered.
- **Raw REPL.** The entry sequence leaves what stands behind the first banner and the first prompt behind it. Without a
  Ctrl+D in it the driver is in step (`RawRepl.InStepExactly`), so whole greetings left by retries do no harm. With one
  it is in step behind the import if and only if the import's own cuts take all of it (`RawRepl.MpRepl.FirstExec`);
  otherwise it stays behind for the whole call (`RawRepl.StaysBehind`). A put then still stores exactly the data if the
  board has room. A get answers from older text: behind one unread answer it reports an empty file
  (`RawRepl.MpRepl.GetFile`, run in `RawRepl.StaleFrameEndsGet`). That an output may not contain Ctrl+D is documented;
  the condition is exact (`RawRepl.CutsRecoverExactly`).

## Model

| member | source | states |
|---|---|---|
| ReplText.HexRoundTrip | src/io_core/mprepl.py:206 | hex text built from bytes reads back as those bytes, for every byte string |
| ReplText.FromHexTells | src/io_core/mprepl.py:206 | a text without blanks is hex if and only if it is digit pairs, and then every pair is its byte, high digit first |
| ReplText.FromHexAppend | src/io_core/mprepl.py:206 | hex texts behind each other read as their bytes behind each other; the first that is no hex spoils the rest |
| ReplText.FromHexBlank | src/io_core/mprepl.py:206 | the six blanks that may stand between digit pairs |
| ReplText.DecimalRoundTrip | src/io_core/mprepl.py:201 | the chunk size written into a read command is read back unchanged |
| ReplText.ReprRoundTrip | src/io_core/mprepl.py:170 | a path quoted into a command, whatever quotes, backslashes or control characters it holds, is the path the board opens |
| ReplText.RenderPrintable | src/io_core/mprepl.py:139-147 | no command line contains a control character, so the Ctrl+D that ends it is the first one the board sees |
| ReplText.OpenTexts | src/io_core/mprepl.py:170-198 | the open commands as the board gets them, to overwrite or to read, for every path without quotes, backslashes or control characters |
| ReplText.OtherTexts | src/io_core/mprepl.py:169-207 | the import, write, read and close commands as the board gets them, hex in lower case |
| ReplText.ParseRender | tests/test_mprepl.py:19-23 | the board recovers exactly the command the driver rendered, for every command of the protocol |
| ReplBoard.ReceiveCommand | tests/test_mprepl.py:46-125 | a rendered line and Ctrl+D make a board in raw mode run exactly that command and answer with one frame |
| RawRepl.Stream.Until | src/io_core/mprepl.py:68-90 | the piece and the rest depend only on the bytes buffered and pending together, not on how reads split them; a failure consumes nothing; overflow only above the cap |
| RawRepl.FrameCuts | src/io_core/mprepl.py:139-159 | the three cuts of an exec recover output and error text and leave nothing over |
| RawRepl.CutsRecoverExactly | src/io_core/mprepl.py:139-159 | the three cuts recover a reply if and only if neither its output nor its error text holds a Ctrl+D |
| RawRepl.FrameBehind | src/io_core/mprepl.py:148-153 | a frame is cut off whole, with anything behind it; text without Ctrl+D in front of it only falls into the output |
| RawRepl.InStepExactly | src/io_core/mprepl.py:148-153 | what is unread is in step with every frame to come if and only if it holds no Ctrl+D |
| RawRepl.AnswerExtends | src/io_core/mprepl.py:148-153 | a whole unread answer is cut first, whatever is said behind it |
| RawRepl.StaysBehind | src/io_core/mprepl.py:148-153 | with a whole frame at the end of what is unread the next answer is cut from older text and the next frame stays unread: once behind, always behind |
| RawRepl.GreetingCuts | src/io_core/mprepl.py:104-130 | behind any noise a banner and a prompt are found, and they end the greeting if and only if no prompt character follows a banner inside the noise |
| RawRepl.QuietExactly | src/io_core/mprepl.py:104-130 | a start is quiet if and only if a second attempt behind an uncut first one leaves no Ctrl+D unread |
| RawRepl.UncutStaysQuiet | src/io_core/mprepl.py:104-130 | a timed-out attempt that has cut nothing leaves a start as quiet as it was |
| RawRepl.CutStaysQuiet | src/io_core/mprepl.py:104-130 | so does one that has cut the banner and not the prompt |
| RawRepl.MpRepl.Dance | src/io_core/mprepl.py:120-124 | Ctrl+B, Ctrl+C twice and Ctrl+A put any board into raw mode behind its whole greeting |
| RawRepl.MpRepl.Attempt | src/io_core/mprepl.py:120-126 | one attempt sends Ctrl+B, Ctrl+C twice and Ctrl+A and puts any board into raw mode; a successful one leaves exactly what stands behind the first banner and the first prompt behind that, which is nothing if and only if the noise was clean; a failed one leaves a quiet start quiet |
| RawRepl.MpRepl.Enter | src/io_core/mprepl.py:104-130 | attempts are repeated after timeouts until 20 seconds are used up, four at most, and a timeout is reported only then; what a first attempt leaves is exact; after a quiet start every attempt that succeeds ends in step; on a patient link the first attempt succeeds |
| RawRepl.MpRepl.ExecBehind | src/io_core/mprepl.py:139-159 | whatever is unread, the board runs exactly the command, and the driver gets the first answer in what is unread and the reply together |
| RawRepl.MpRepl.Exec | src/io_core/mprepl.py:139-159 | the board runs exactly the command; in step, success returns its output, failure its error text, and nothing is left unread; behind a whole unread answer that one is returned and the reply stays unread |
| RawRepl.MpRepl.FirstExec | src/io_core/mprepl.py:169 | the import leaves nothing unread if it heals the lag, and otherwise leaves its own frame unread behind the rest |
| RawRepl.WriteStep | src/io_core/mprepl.py:171-176 | one chunk write extends the prefix written so far, or fails for lack of room and changes nothing |
| RawRepl.MpRepl.WriteLoop | src/io_core/mprepl.py:174-176 | the chunked writes leave a prefix of the data in the open file, and all of it on success, for every chunk size, in step or with room for the data |
| RawRepl.MpRepl.WriteChunks | src/io_core/mprepl.py:171-177 | behind the writes the file is closed: success leaves no file open, on any link and after any start |
| RawRepl.MpRepl.StoreFile | src/io_core/mprepl.py:169-182 | success stores exactly the data and failure leaves the old file or a prefix, if the import heals the lag and also if the board has room; success leaves the driver in step if and only if the import heals; behind a successful open every path ends with the file closed |
| RawRepl.MpRepl.PutFile | src/io_core/mprepl.py:161-184 | success means the board file holds exactly the data and failure leaves the old file or a prefix, after any start if the data fits, and otherwise if the import heals; behind a first entry attempt success leaves nothing but the board's greeting if and only if it heals; other files are never touched; on a patient link in step the put succeeds if and only if the board has room; once raw mode is entered every path, failures included, sends Ctrl+B last and leaves the normal prompt, and once the file is open every path closes it |
| RawRepl.AnswerParses | src/io_core/mprepl.py:201-206 | a printed chunk parses back to the chunk, and only the empty chunk reads as end of file |
| RawRepl.AnswerTells | src/io_core/mprepl.py:202-206 | of any answer: the end of the file is exactly the empty one, a quoted text is the bytes its hex says, and one that is not quoted is reported as it came |
| RawRepl.StripTells | src/io_core/mprepl.py:155-201 | an answer and an error text are stripped of the blanks at both ends and of nothing else |
| RawRepl.MpRepl.ReadOne | src/io_core/mprepl.py:201-206 | one turn of the get loop yields the next piece of the file, empty only at its end; out of step, whatever the cuts find |
| RawRepl.TurnProgresses | src/io_core/mprepl.py:199-206 | a turn of the get loop that goes on leaves less of the file to read, or fewer stale bytes in front of equal answers |
| RawRepl.MpRepl.ReadLoop | src/io_core/mprepl.py:199-206 | the get loop ends whatever the answers are, even out of step; in step it returns the file |
| RawRepl.MpRepl.ReadChunks | src/io_core/mprepl.py:199-207 | with the closing exec, the chunked reads concatenate to the file, and a success leaves no file open, on any link and after any start |
| RawRepl.MpRepl.GetFile | src/io_core/mprepl.py:186-214 | from any board state the call ends and changes no file; if the import heals, success returns exactly the file; behind a first entry attempt success leaves nothing but the board's greeting if and only if it heals; on a patient link in step it succeeds if and only if the file exists, and otherwise carries the board's ENOENT; on a patient link one answer behind it returns no data; once raw mode is entered every path, failures included, sends Ctrl+B last and leaves the normal prompt, and once the file is open every path closes it |
| RawRepl.PutThenGet | src/io_core/mprepl.py:225-233 | over any splitting and delay of the link, any retries and any chunk sizes, a put and a get that succeed behind healing imports, as after a quiet start, return the bytes; the put half needs only room; on a patient link both succeed if and only if the data fits |
| RawRepl.StaleFrameEndsGet | src/io_core/mprepl.py:186-214 | on a patient link, behind noise that shows a banner, a prompt and one old frame, a get of any file succeeds with no data |
| StdinPump.Conservation | src/ironbench/runner_common.py:132-186 | in every interleaving delivered, in-flight and queued data are the accepted writes in order while the pipe holds; the backlog count is exact and bounded |
| StdinPump.NoLostWakeup | src/ironbench/runner_common.py:161-186 | a pump parked on a cleared event with work to do still has a caller about to set it |
| StdinPump.ExitDelivers | src/ironbench/runner_common.py:161-186 | a pump that exited without a broken pipe has delivered, in order, everything accepted up to then |
| StdinPump.OverflowTells | src/ironbench/runner_common.py:132-141 | over any run the overflow flag is set if and only if some write on an unbroken pipe found queued bytes and its own together above the cap of 1048576 |
| StdinPump.AcceptsUpToOverflow | src/ironbench/runner_common.py:132-141 | over any run the accepted data is that of exactly the writes on an unbroken pipe in front of the first that overran the cap, in order: nothing is accepted behind a refused write |
| StdinPump.StepInv | src/ironbench/runner_common.py:132-186 | every step of every thread keeps conservation, accounting, wakefulness and the exit condition |
| StdinPump.InternalStepsEnd | src/ironbench/runner_common.py:161-186 | without new calls the steps run out |
| StdinPump.RestMeansDone | src/ironbench/runner_common.py:151-186 | at rest everything accepted is delivered or the pump has exited, and after a close it has exited |
| StdinPump.DrainExists | src/ironbench/runner_common.py:161-186 | from every reachable state a run without new calls comes to rest |
| StdinPump.LateWriteIsNeverDelivered | src/ironbench/runner_common.py:132-141 | a write after a clean exit is accepted and stays undelivered in every continuation |
| StdinPump.AcceptedIsDelivered | src/ironbench/runner_common.py:132-186 | in any run to rest with the pipe intact, an accepted write is delivered, in its place, if and only if the pump had not exited before it |
| StdinPump.ExitIsReached | src/ironbench/runner_common.py:132-186 | a run reaches an exited pump that still accepts a write |
| StdinPump.StdinWriter.Enqueue | src/ironbench/runner_common.py:132-141 | the locked part of write is the write step: refused after a break or an overflow, overflowing past the cap, queued otherwise |
| StdinPump.StdinWriter.StartClosing | src/ironbench/runner_common.py:151-155 | the locked part of close is the close step |
| StdinPump.StdinWriter.SetWake | src/ironbench/runner_common.py:141 | setting the event is a step of its own |
| StdinPump.StdinWriter.PopOldest | src/ironbench/runner_common.py:165-170 | the pump takes the oldest data and its bytes off the count, or learns that there is none |
| StdinPump.StdinWriter.DropBacklog | src/ironbench/runner_common.py:174-181 | a broken pipe drops the backlog and ends the pump |
| StdinPump.StdinWriter.ParkOrExit | src/ironbench/runner_common.py:182-186 | under one lock the pump exits, clears the event and parks, or goes round again |
| LockOrder.ScriptOrdered | src/io_core/session.py:326-372 | every session call takes its locks in one order, the sidecar file lock only inside the journal's, starts readers only under the session lock, and never joins a reader while holding a lock the reader needs |
| LockOrder.TurnOrdered | src/io_core/serial_reader.py:135-178 | every turn of a reader's loop follows the same order |
| LockOrder.ScriptProtected | src/io_core/session.py:326-372 | every call does its part, and under the lock meant for it: a write with a reader goes through limiter and journal under that reader's I/O lock, refusals are journaled and readers started, stopped and joined under the session lock |
| LockOrder.TurnProtected | src/io_core/serial_reader.py:135-178 | a drain looks at the stop event and journals under the I/O lock, and then buffers its bytes or ends the thread |
| LockOrder.StepInv | src/io_core/session.py:326-372 | each lock operation of any thread keeps the order and the exclusivity of the locks |
| LockOrder.WaitGoesUp | src/io_core/session.py:326-329 | a blocked thread waits only for threads whose own wait is higher in the order |
| LockOrder.NoCircularWait | src/io_core/session.py:326-329 | among any set of blocked threads one waits for a thread outside it |
| LockOrder.StepRaised | src/io_core/session.py:919-930 | a joined reader has always been told to stop, by whichever thread joins it; every step keeps that |
| LockOrder.NoDeadlock | src/io_core/session.py:326-372 | in every reachable state with a call or a reader turn under way, some thread can make progress: the next action of a call or turn, or the end of a reader told to stop; joins have no timeout |
| LockOrder.NoSessionWaitUnderIo | src/io_core/session.py:326-329 | no thread waiting for the session lock holds an I/O lock |
| LockOrder.LockIsExclusive | src/io_core/session.py:366-371 | no lock ever has two holders |
| LockOrder.StoppedReaderLeaves | src/io_core/serial_reader.py:96-178 | each own step of a reader told to stop brings it closer to its end, and one that finds out at its check does nothing more than release the I/O lock |
| LockOrder.InvertedOrderDeadlocks | src/io_core/session.py:326-329 | with the order inverted in one write, a run exists that ends in a circle of three waiting threads |
| LineRace.StepInv | src/io_core/session.py:330-424 | every step of calls, readers, transfers and monitors on one port keeps the I/O locks exclusive, the registered owner the one at work, and one background user at most |
| LineRace.OverlapNeedsEarlyCall | src/io_core/session.py:366-372 | whenever two are on one port's line at once, one is a call that passed its gate with no owner, or under an owner replaced since |
| LineRace.ExclusiveExactly | src/io_core/session.py:326-424 | while a reader, transfer or monitor stays registered, and resets are not forced in beside a transfer, its line is used by one at a time in all runs if and only if no call is under way that passed its gate before it |
| LineRace.GateTells | src/io_core/session.py:330-424 | over any run of an open port: a read passes its gate only where no reader lives and no transfer or monitor is on the line, a write exactly where no transfer or monitor is, a reset always |
| LineRace.EarlyCallMeetsDrain | src/io_core/session.py:336-424 | a run in which a write or a read admitted without a reader is on the line beside the drain of a reader attached since |
| LineRace.StaleLockMeetsDrain | src/io_core/session.py:366-371 | a run in which a write under the lock of a replaced reader is on the line beside the drain of the new one |
| LineRace.EarlyCallMeetsExchange | src/io_core/session.py:330-567 | a run in which a call admitted before is on the line beside a transfer or monitor |
| Journal.RotatedParts | src/io_core/journal.py:155-173 | after a rotation the parts are exactly .1 to .k+1 within the limit, each moved up by one, the live file first |
| Journal.RotatedReads | src/io_core/journal.py:153-175 | the parts after a rotation read as the history without the one part that passed the bound |
| Journal.RotationKeeps | src/io_core/journal.py:155-173 | rotation keeps the chain a contiguous suffix of the history, dropping at most the oldest part |
| Journal.AppendKeeps | src/io_core/journal.py:148-151 | an append extends history and chain alike |
| Journal.LossIsOld | src/io_core/journal.py:155-173 | whatever was lost is older than the last max_files * max_bytes bytes |
| Journal.SizeSnoc | src/io_core/journal.py:159-164 | the size that rotation looks at is that of the lines together |
| Journal.RetainedIsWhole | src/io_core/journal.py:126-151 | every conflict record in what is retained directly follows its event |
| Journal.RetainedNumbers | src/io_core/journal.py:119-151 | the numbers of one writer in what is retained are consecutive and end with its last |
| Journal.CallNumbers | src/io_core/journal.py:113-153 | a call gives its writer the next numbers and no other writer any |
| Journal.LinesTell | src/io_core/journal.py:113-141 | what one call writes, from its payload alone: one event of that kind whose fields are exactly the unreserved entries, and behind it a conflict record if and only if some key is reserved, with exactly those keys and the requested kind |
| Journal.LinesConflicts | src/io_core/journal.py:129-151 | a call adds one conflict record to the journal if its payload uses a reserved key, and none otherwise |
| Journal.JsonlJournal.Call | src/io_core/journal.py:113-153 | an accepted call appends its event and conflict record back to back and takes two numbers with a reserved key and one without; a live file below the size bound grows by them, a full one becomes part .1; a closed journal refuses and nothing changes |
| Journal.JsonlJournal.WriteLines | src/io_core/journal.py:145-153 | under the sidecar lock a live file below the size bound grows by the lines, and a full one becomes part .1 and the lines start the next |
| Journal.JsonlJournal.RotateIfFull | src/io_core/journal.py:155-173 | a full live file is rotated, any other left alone, and the history is kept |
| Journal.ShiftParts | src/io_core/journal.py:166-172 | the renaming loop does to the parts what the shift function says |
| Journal.ChainFiles | src/io_core/journal.py:235-250 | the scan that stops at the first missing part finds every part, oldest first |
| Journal.ReadChain | src/io_core/journal.py:253-277 | the chain read is a contiguous newest suffix of the global history, in order |
| Journal.CallOne | src/io_core/journal.py:113-153 | a call of one of many writers with the same limits keeps all of them valid, and writes its lines if and only if its writer is open |
| Journal.UseAll | src/io_core/journal.py:113-179 | over any interleaving of calls and closes exactly the calls of writers not yet closed are accepted, and the conflict records written are as many as the accepted calls with a reserved key |
| Journal.Interleaved | src/io_core/journal.py:113-179 | after any interleaving of calls and closes of any writers the chain is a contiguous newest suffix of everything written, each writer's numbers in the history are 1, 2, 3, and so on, and there is one conflict record for each accepted call with a reserved key |
| Replay.ReplayTransport.Read | src/io_core/replay.py:102-105 | reads hand out the recorded stream in consecutive slices |
| Replay.ReplayTransport.ReadLine | src/io_core/replay.py:107-112 | a line read is the slice up to the first newline or the limit and continues the same stream |
| Replay.ReplayTransport.Write | src/io_core/replay.py:114-123 | a strict write is accepted if and only if it is the next slice of the recorded writes |
| Replay.ReplayWrites | src/io_core/replay.py:80-123 | any slicing of writes followed by close is accepted if and only if it concatenates to the recorded writes |
| Replay.BuildTransport | src/io_core/replay.py:50-64 | the two streams of one connection are built unless one of its events is corrupt |
| Replay.ReadableExactly | src/io_core/replay.py:36-64 | a connection can be replayed if and only if each of its read, line-read and write events holds its bytes as hex; events without a name belong to the unnamed connection |
| Replay.GroupingIsFiltering | src/io_core/replay.py:137-151 | replaying a connection's group and filtering the whole journal give the same streams |
| Replay.OrderIsExact | src/io_core/replay.py:137-151 | the connection order holds exactly the connections with events, each once |
| Replay.GroupEvents | src/io_core/replay.py:137-147 | the grouping loop builds the order and every group |
| Replay.BuildSession | src/io_core/replay.py:137-151 | a session replays every connection of the journal from its own events |
| Replay.MovedTells | src/io_core/serial_transport.py:121-169 | a read of either kind adds its bytes to what came in over its connection, a write to what went out, and no operation touches another connection |
| Replay.PayloadTells | src/io_core/serial_transport.py:136-168 | the hook journals connection, bytes as hex and their number, and nothing else |
| Replay.RecordingIsFaithful | src/io_core/session.py:121-131 | an interleaved recording holds, for each connection and direction, exactly that connection's bytes |
| Replay.RecordThenReplay | src/io_core/serial_transport.py:121-169 | recording any interleaved run, reading the chain and replaying gives every connection its own reads and writes while rotation has dropped nothing, which is certain below max_files * max_bytes |
| Replay.RecordMany | src/io_core/journal.py:113-173 | any interleaving of many writers on one chain holds, per connection and direction, exactly that connection's bytes |
| Replay.ReplayConn | src/io_core/replay.py:50-123 | from any file that holds a run, a connection's writes are accepted if and only if they concatenate to the recorded ones, and its reads start with the recorded ones |
| Replay.RecordManyThenReplay | src/io_core/replay.py:126-151 | recording by many writers, reading the chain and replaying compose: per connection the exact writes are accepted and the exact reads returned while rotation has dropped nothing |
| AntiCheat.FirstOccurrenceStamp | src/ironbench/runner_common.py:253-286 | the loop over the chunks computes the verdict function |
| AntiCheat.VerdictExact | src/ironbench/runner_common.py:253-286 | an answer is credited if and only if a trigger was recorded and the first occurrence starts at or behind the end of everything stamped strictly before it |
| AntiCheat.VerdictIsStamp | src/ironbench/runner_common.py:253-286 | a verdict is the stamp of the chunk in which the first occurrence begins, and not before the trigger |
| AntiCheat.VerdictStable | src/ironbench/runner_unix.py:601-609 | once the needle is shown no later output changes the verdict |
| AntiCheat.Box.Append | src/ironbench/runner_unix.py:396-421 | text and chunks stay consistent with nondecreasing stamps, output is appended until the cap, then the marker once, then nothing |
| AntiCheat.ReplLog.Ingest | src/ironbench/realhw.py:85-113 | the same for the board log, whose cap is checked before the chunk |
| AntiCheat.ReplLog.Truncate | src/ironbench/realhw.py:277-290 | truncation drops the front of text and chunks together |
| AntiCheat.DropFrontKeeps | src/ironbench/realhw.py:277-290 | every surviving position keeps its stamp |
| AntiCheat.DropFrontStamps | src/ironbench/realhw.py:277-290 | the surviving stamps are a suffix of the stamps, in order |
| AntiCheat.CutChunks | src/ironbench/realhw.py:283-290 | the truncation loop computes the dropped front |
| AntiCheat.WaitForAnswer | src/ironbench/runner_unix.py:481-496 | a wait is credited if and only if the final log clears the answer and some stamp look saw it before any bare look did; an uncredited stop is condemned in the end unless the answer came between the two looks |
| AntiCheat.RunWaits | src/ironbench/runner_unix.py:466-498 | the stimulus records each wait it reaches and counts the earned ones up to the first that is not |
| AntiCheat.JudgeExact | src/ironbench/runner_unix.py:601-634 | a run is clean if and only if no waited needle is condemned and it is not a program that exited before a first answer |
| AntiCheat.JudgeNames | src/ironbench/runner_unix.py:601-634 | the verdict on a condemned run names the first condemned wait; one on a program that exited without a credited answer names the first wait step whose needle the log shows, or says that nothing was waited for |
| AntiCheat.JudgeStable | src/ironbench/runner_unix.py:601-609 | once all waited needles are shown, later output changes no verdict |
| AntiCheat.JudgeRun | src/ironbench/runner_unix.py:466-634 | stimulus and verdict together: a run whose final log condemns none of its waits is convicted if and only if the program exited and the first wait was not earned, and as pre-printed if and only if some waited needle is in the log |
| AntiCheat.HonestAnswersConvicted | src/ironbench/runner_unix.py:488-493 | two honest answers that end as pre-printed: between the two looks of a turn, and behind the last look of a program that exits |
| SerialReader.RunAccounted | src/io_core/serial_reader.py:174-283 | over any run of arrivals, evictions and expect reads, each read ends at the first occurrence of its pattern since the window's start and the gaps between reads add up to what was dropped |
| SerialReader.ReadsAreDisjoint | src/io_core/serial_reader.py:235-283 | successful reads are disjoint, in-order slices of the received stream |
| SerialReader.SerialReader.Append | src/io_core/serial_reader.py:174-187 | an append keeps the buffer a suffix of the stream within the bound, evicts the fewest oldest chunks that restore it, and never the newest |
| SerialReader.SerialReader.Evict | src/io_core/serial_reader.py:180-187 | the eviction loop drops whole chunks, counts their unread bytes, and stops as soon as the bound holds |
| SerialReader.SerialReader.Snapshot | src/io_core/serial_reader.py:201-213 | the snapshot is exactly the unread end of the stream |
| SerialReader.SerialReader.Consume | src/io_core/serial_reader.py:272-283 | consuming moves the window by exactly that many bytes and keeps the offset inside the first chunk |
| SerialReader.SerialReader.Attempt | src/io_core/serial_reader.py:235-270 | one locked look succeeds if and only if the pattern is in the window, and then consumes up to the end of its first occurrence |
| SerialReader.SerialReader.ReadUntil | src/io_core/serial_reader.py:235-270 | success is one read that ends behind the first occurrence of the pattern, after any arrivals; giving up, for the deadline, a dead port or a stop, returns the window of the last look, which does not show the pattern |
| SerialReader.TailUnderstates | src/io_core/serial_reader.py:215-233 | a run in which a consumed chunk of two bytes is missing from the dropped count the tail reports |
| SerialReader.WhatTailMisses | src/io_core/serial_reader.py:215-233 | in every run, what the reported count lacks is exactly the returned bytes in front of the oldest chunk still held; the count is complete if and only if no read began in front of that chunk |
| SerialReader.SerialReader.Tail | src/io_core/serial_reader.py:215-233 | the newest bytes of the window, with that count, and the buffer as before |
| Telnet.FilterAppend | src/ironbench/runner_renode.py:138-194 | filtering a concatenation is filtering its parts in turn |
| Telnet.Rfc854Codes | src/ironbench/runner_renode.py:164-186 | the four verbs, IAC, SB and SE by their codes |
| Telnet.Rfc854Steps | src/ironbench/runner_renode.py:155-189 | the automaton by the codes of RFC 854: behind 255 a 255 is data, 250 begins a subnegotiation, 251 to 254 take one option, anything else is a whole command; only 255 240 ends a subnegotiation |
| Telnet.TelnetFilter.Feed | src/ironbench/runner_renode.py:150-194 | a chunk is filtered as by the byte automaton, with at most one byte carried over |
| Telnet.TelnetFilter.FeedAll | src/ironbench/runner_renode.py:150-194 | any chunking gives the output and state of the whole stream |
| Telnet.RoundTrip | src/ironbench/runner_renode.py:138-148 | doubled data with complete commands, negotiations and subnegotiations anywhere between its bytes comes out as the data |
| Telnet.FilterItems | src/ironbench/runner_renode.py:150-194 | the same in any chunking of the wire |
| MqttFraming.VarintShortest | src/io_core/mqtt_sim.py:59-70 | the Remaining Length is in its shortest form |
| MqttFraming.VarintExamples | src/io_core/mqtt_sim.py:58-70 | the lengths 64, 321, 127, 128 and 16383 take the bytes the standard gives |
| MqttFraming.FitsFourGroups | src/io_core/mqtt_sim.py:46-56 | four groups are enough exactly for lengths up to 268435455 |
| MqttFraming.VarintParses | src/io_core/mqtt_sim.py:46-56 | an encoded length reads back with whatever follows untouched, or is too long for the bound |
| MqttFraming.EncodePacket | src/io_core/mqtt_sim.py:59-70 | the encoding loop builds type, shortest length and body |
| MqttFraming.ReadVarint | src/io_core/mqtt_sim.py:46-56 | the blocking length loop reads what the grammar says and consumes only that |
| MqttFraming.ReadExact | src/io_core/mqtt_sim.py:36-43 | exactly n bytes over any splitting, or a disconnect if fewer come |
| MqttFraming.ReceivePacket | src/io_core/mqtt_sim.py:150-152 | one round of the serve loop takes the packet at the front of the stream and nothing behind it |
| MqttFraming.Serve | src/io_core/mqtt_sim.py:145-164 | the serve loop handles the packets of the stream up to a disconnect, an invalid length or the end |
| MqttFraming.ServeRoundTrip | src/io_core/mqtt_sim.py:145-164 | any list of encoded packets of legal length is served back up to its first DISCONNECT |
| MqttFraming.DisconnectEnds | src/io_core/mqtt_sim.py:141-165 | a DISCONNECT behind a PINGREQ ends the session, whatever follows it |
| MqttFraming.OversizeRefused | src/io_core/mqtt_sim.py:46-56 | a packet is refused for its length if and only if its body exceeds 268435455 bytes |
| MqttFraming.TakeExtends | src/ironbench/tasks/mqtt-device/solution.py:34-64 | a complete packet stays the same when more arrives behind it |
| MqttFraming.Device.BufferedLength | src/ironbench/tasks/mqtt-device/solution.py:39-50 | the device's length loop over its buffer agrees with the grammar, with no bound on the groups |
| MqttFraming.Device.ReadPacket | src/ironbench/tasks/mqtt-device/solution.py:34-64 | a packet leaves the stream whole, a timeout changes nothing, and with enough polls a packet that is there is found |
| MqttFraming.DeviceRoundTrip | src/ironbench/tasks/mqtt-device/solution.py:16-64 | the device reads back every packet the encoder builds, of any length |
| MqttFraming.DeviceReadsAll | src/ironbench/tasks/mqtt-device/solution.py:34-64 | as many reads as packets were sent return exactly those packets over any splitting |
| Topics.Utf8Exactly | src/io_core/mqtt_sim.py:106-128 | the text decoder accepts exactly the encodings of Unicode scalar values |
| Topics.JoinSplit | src/io_core/mqtt_sim.py:24-25 | splitting a topic loses nothing and leaves no separator inside a level |
| Topics.SplitJoin | src/io_core/mqtt_sim.py:24-25 | levels joined into a topic are its levels again |
| Topics.TopicMatches | src/io_core/mqtt_sim.py:22-33 | the matching loop equals the level-by-level specification of section 4.7.1 |
| Topics.MatchIsAccept | src/io_core/mqtt_sim.py:22-33 | that reading is the positional one: every level equal or under byte 43, and a closing byte 35 for the rest |
| Topics.HashMatchesBelow | src/io_core/mqtt_sim.py:26-28 | a closing '#' matches exactly the topics whose leading part, the parent level included, matches the rest |
| Topics.LiteralMatchesItself | src/io_core/mqtt_sim.py:31-33 | a filter without wildcards matches exactly the topic of its own name |
| MqttBroker.PublishRoundTrip | src/io_core/mqtt_sim.py:102-113 | a publish body decodes to topic, payload, flags and packet identifier as encoded |
| MqttBroker.FlagBits | src/io_core/mqtt_sim.py:102-113 | RETAIN and QoS are read from the low bits of the type byte, and a packet identifier is cut off at QoS 1 only |
| MqttBroker.ParseFilters | src/io_core/mqtt_sim.py:122-130 | the subscribe loop ends and reads the filters of the body, or fails on one that is not UTF-8 |
| MqttBroker.SubscribeRoundTrip | src/io_core/mqtt_sim.py:122-130 | encoded filters are read back in order |
| MqttBroker.StoreIsLastRetained | src/io_core/mqtt_sim.py:114-119 | after any history the store holds per topic the last retained payload, nothing after an empty one, and no topic twice |
| MqttBroker.EachOnce | src/io_core/mqtt_sim.py:133-138 | a subscription is delivered every matching retained topic exactly once with its payload, and no other |
| MqttBroker.DeliveredUnretained | src/io_core/mqtt_sim.py:133-143 | every packet that delivers a stored message decodes, under its own flags, to a publish with the RETAIN flag clear |
| MqttBroker.RetainedSendable | src/io_core/mqtt_sim.py:140-143 | every stored topic fits the two-byte length, so a delivery never fails to encode |
| MqttBroker.PublishReachesSubscriber | src/io_core/mqtt_sim.py:223-232 | what one device publishes reaches a matching subscriber as one packet from which its reader recovers topic and payload |
| MqttBroker.Broker.Broadcast | src/io_core/mqtt_sim.py:223-232 | a message goes once to every other client with a matching subscription |
| MqttBroker.Broker.HandlePublish | src/io_core/mqtt_sim.py:102-120 | acknowledgement, store and broadcast of a publish; QoS 2 does nothing, a bad topic changes nothing |
| MqttBroker.SentTells | src/io_core/mqtt_sim.py:109-120 | on the wire a publisher at QoS 1 gets a PUBACK with its packet identifier and never its own message; every other client with a matching filter gets one PUBLISH at QoS 0; QoS 2 sends nothing |
| MqttBroker.Broker.HandleSubscribe | src/io_core/mqtt_sim.py:122-138 | SUBACK with one code per filter, then the matching retained messages; a bad filter changes nothing |
| RetainedRace.StepInv | src/io_core/mqtt_sim.py:102-138 | every interleaved half of a publish or subscription keeps the invariant |
| RetainedRace.NothingFallsBetween | src/io_core/mqtt_sim.py:112-138 | in every interleaving, a handled publish of QoS 0 or 1 was sent live to a subscriber that is done and still connected, or entered the store's history before the subscriber's snapshot |
| RetainedRace.SnapshotIsNotOlder | src/io_core/mqtt_sim.py:114-119 | such a snapshot holds for the topic the payload of that publish or of a later one |
| RetainedRace.RetainedIsNotMissed | src/io_core/mqtt_sim.py:114-138 | so a retained publish reached every such subscriber live, or its snapshot shows, for that topic, that message or a later retained one |
| RetainedRace.LiveTells | src/io_core/mqtt_sim.py:223-232 | in every run a publish is sent live to a client if and only if a matching filter of the client was registered before that send |
| RetainedRace.ConnectedTells | src/io_core/mqtt_sim.py:200-221 | in every run the clients there are those that have connected and not left |
| RetainedRace.TargetsTell | src/io_core/mqtt_sim.py:205-232 | in every run a broadcast goes exactly to the other clients that were there when it picked its targets |
| RetainedRace.NeverOwn | src/io_core/mqtt_sim.py:223-232 | in every run nobody is sent their own message |
| RetainedRace.SnapshotHasIt | src/io_core/mqtt_sim.py:112-138 | in every run the recorded places of a store and a snapshot tell which came first |
| RetainedRace.SnapshotTells | src/io_core/mqtt_sim.py:112-138 | in every run a snapshot holds a kept publish for its topic if and only if its store came first and nothing else was stored for the topic in between |
| RetainedRace.SnapshotHolds | src/io_core/mqtt_sim.py:114-138 | then the store the snapshot was taken from holds its payload |
| RetainedRace.ArrivesTwice | src/io_core/mqtt_sim.py:112-138 | in every run a publish arrives live and again from the snapshot of a subscription if and only if some matching subscription of the client was entered before the live send, the store came before the snapshot, the publish is retained with a payload, and nothing else was stored for its topic in between |
| RetainedRace.MayArriveTwice | src/io_core/mqtt_sim.py:112-138 | for every matching retained non-empty message of QoS 0 or 1 a run exists in which it arrives live and the snapshot holds it too |
| RateLimiter.Limiter.Acquire | src/io_core/limits.py:71-81 | the locked step counts the call into its window and lets it through up to the limit |
| RateLimiter.IntervalBound | src/io_core/limits.py:63-81 | over any call times no half-open interval of window length holds more than 2 * max_calls - 1 accepted calls, no closed one more than 2 * max_calls |
| RateLimiter.WindowBound | src/io_core/limits.py:71-81 | since the start of the current window no more than the limit was let through |
| RateLimiter.HalfOpenAttained | src/io_core/limits.py:71-81 | for every limit and window a run attains the half-open bound |
| RateLimiter.KeepsLimitExactly | src/io_core/limits.py:63-81 | over all call times, every half-open interval of window length keeps to the limit if and only if the limit is at most one |
| RateLimiter.ClosedAttained | src/io_core/limits.py:71-81 | for every limit and window a run attains the closed bound |
| RateLimiter.RefusalIsEarned | src/io_core/limits.py:71-81 | a call is refused only if exactly the whole limit was let through less than one window before it |
| SessionGates.StepInv | src/io_core/session.py:520-567 | every locked step keeps registries in step, owners disjoint, gates backed by one running operation, and ports with one reader |
| SessionGates.ReachableInv | src/io_core/session.py:57-77 | so does every run, through any closing and reopening of names |
| SessionGates.UnownedIsIdle | src/io_core/session.py:717-749 | the port of a name that passes the gates has no living reader thread and no operation in flight |
| SessionGates.StepExclusive | src/io_core/session.py:867-906 | no port is ever read by two of readers, transfers and monitors at once |
| SessionGates.GatedUntilEnd | src/io_core/session.py:565-567 | a name stays gated until its operation ends, even if it is closed and reopened meanwhile |
| SessionGates.ReadIsAdmittedAlone | src/io_core/session.py:387-424 | a direct read is admitted exactly to an open serial name without an owner, and its port is idle |
| SessionGates.WriteIsAdmittedOutsideExchanges | src/io_core/session.py:330-364 | a direct write is admitted exactly to an open serial name without transfer or monitor, and none is using its port |
| SessionGates.BeginIsAdmittedAlone | src/io_core/session.py:520-749 | in every reachable state a put, get or monitor is admitted if and only if the name is open and has no owner, and then exactly one new operation on its port is in flight with the name gated; a refusal changes nothing and names a reason that holds |
| SessionGates.ReaderIsAdmittedAlone | src/io_core/session.py:867-906 | in every reachable state a reader is attached if and only if the name is an open serial one without an owner, and then exactly one new thread reads its port |
| SessionGates.OpenIsAdmittedBelowLimit | src/io_core/session.py:304-313 | in every reachable state an open is granted if and only if the name is free and fewer than the limit are open, and then the name has a port never used before and nothing else has changed |
| SessionGates.CloseFreesTheName | src/io_core/session.py:1217-1265 | a close is granted if and only if the name is open and of the kind asked for, and then the name and its reader are gone, every other name is as before and operations go on |
| SessionGates.EndsFreeTheName | src/io_core/session.py:565-930 | the end of an operation leaves its name to nobody; the stop of a reader does, if and only if its thread has ended; no other name changes owner |
| SessionGates.CloseAllFrees | src/io_core/session.py:1281-1287 | closing the session leaves no name open and no reader registered, and touches no operation |
| SessionGates.NeverOverLimit | src/io_core/session.py:97-109 | with limits read anew at every open, none above a bound, no run has more open transports than the bound |
| SessionGates.OpenWithinLimit | src/io_core/session.py:304-313 | an open that is granted leaves at most as many transports as the limit it read |
| SessionGates.Session.OpenTransport | src/io_core/session.py:304-313 | open checks the name, then the limit, then inserts into all registries, in one step |
| SessionGates.Session.BeginTransfer | src/io_core/session.py:520-556 | the gate of a put or get, with its checks in order, and the operation it starts |
| SessionGates.Session.BeginMonitor | src/io_core/session.py:717-749 | the gate of a monitor, with its checks in order, and the operation it starts |
| SessionGates.Session.Finish | src/io_core/session.py:565-567 | the end of an operation frees exactly its own name |
| SessionGates.Session.StartReader | src/io_core/session.py:867-906 | a reader is attached to the current raw port of the name |
| SessionGates.Session.StopReader | src/io_core/session.py:919-930 | a reader that is still draining keeps its registration |
| SessionGates.Session.CloseTyped | src/io_core/session.py:1217-1235 | closing by kind frees name and reader, or refuses |
| SessionGates.Session.CloseTransport | src/io_core/session.py:1254-1265 | closing without a kind frees name and reader |
| SessionGates.Session.CloseEverything | src/io_core/session.py:1281-1287 | closing the session empties the registries and leaves operations in flight to end by themselves |
| Monitor.SearchNewPart | src/io_core/session.py:832-836 | searching a new chunk with the overlap in front of it finds the pattern if and only if the whole capture holds it |
| Monitor.Window | src/io_core/session.py:784-842 | the capture is exactly what was taken from the port, within the bound; the pattern is the stop reason if and only if the capture holds it, and the capture before the last chunk did not; every turn in front of the last was in time and not quiet, and read the port unless nothing was waiting; the turn behind them is out of time, or quiet for that long without data, or at the bound, as the stop reason says; a failed read is the reason if and only if the port died |
| Modbus.RequestRoundTrip | src/io_core/modbus_sim.py:58-78 | requests decode to what a client encodes |
| Modbus.WireExample | src/io_core/modbus_sim.py:58-78 | requests go on the wire with the high byte first |
| Modbus.ReadExample | src/io_core/modbus_sim.py:58-62 | a register that holds 300 is read as 1, 44 |
| Modbus.StoreTells | src/io_core/modbus_sim.py:63-79 | from the request alone: a granted write leaves exactly its words in the registers it names and every other register as it was |
| Modbus.RegisterIsLatest | src/io_core/modbus_sim.py:63-79 | after any requests a register holds the last word a granted write put there |
| Modbus.ReadReturnsLatest | src/io_core/modbus_sim.py:58-62 | a granted read decodes to the last words written, in order |
| Modbus.WriteThenRead | src/io_core/modbus_sim.py:58-79 | for every table and every words: a write and a read of the same registers, as a client sends them, answer the words written |
| Modbus.WhenAnswered | src/io_core/modbus_sim.py:53-80 | every request is answered unless it reads more than 127 existing registers |
| Modbus.RefusalsChangeNothing | src/io_core/modbus_sim.py:53-80 | an answer carries the exception bit if and only if the request is out of range, malformed or of an unknown function, and a refusal changes no register |
| Modbus.AnswerBytes | src/io_core/modbus_sim.py:53-80 | the bytes of every answer that is no read: the first five of a granted write, and function code with exception bit and reason of a refusal |
| Modbus.Server.HandlePdu | src/io_core/modbus_sim.py:53-80 | the handler gives that answer and stores exactly the words of a granted write |
| Plant.StepApproaches | src/ironbench/plant.py:133-136 | a step moves towards its target and never reaches or passes it, however long it is |
| Plant.StepSplits | src/ironbench/plant.py:133-136 | splitting a step multiplies the decays and gives the same output |
| Plant.HoldIsOneLongStep | src/ironbench/plant.py:133-136 | any number of equal steps under one control is one long step |
| Plant.RunClosedLoop | src/ironbench/plant.py:139-177 | sample times, clamped controls and outputs follow the model under the ambient of the last due change; the first reply that is no number ends the run there |
| Plant.LoggedTells | src/ironbench/plant.py:139-177 | what a logged row says: time, setpoint, the reply moved to the nearer limit, and an output that starts at y0 and goes towards ambient plus gain times control |
| Plant.AmbientTells | src/ironbench/plant.py:152-158 | the ambient is the run's own before the first change is due and then that of the last one due, a nanosecond early at most |
| Plant.Equilibrium | src/ironbench/plant.py:133-136 | under one control and ambient the output rests exactly at ambient plus gain times control |
| Plant.StaysInHull | src/ironbench/plant.py:149-177 | whatever the controller replies, controls stay in their limits and the output in the hull of its start and the reachable targets |
| Plant.SettleTime | src/ironbench/plant.py:197-201 | the loop from the end finds the sample from which on the output stays in the band, none if and only if the last sample is outside |
| Plant.BandTells | src/ironbench/plant.py:196-199 | the band is closed: its edges belong to it |
| Plant.SettledOnce | src/ironbench/plant.py:197-201 | no earlier sample would do |
| Plant.EnteredButNeverSettled | src/ironbench/plant.py:139-201 | a run of the closed loop that enters the band and still counts as never settled |
| Plant.Overshoot | src/ironbench/plant.py:189-194 | the overshoot computed from the samples' extreme is the excess function |
| Plant.OvershootWithin | src/ironbench/plant.py:189-194 | overshoot is never negative, and within an allowance if and only if every sample is that close beyond the setpoint |

## Left out

- RawRepl.PutThenGet: which bytes a get returns that stays behind is stated for one unread answer without an error; in general they are what the unread text happens to hold. The same holds of what a put stores that stays behind and does not fit.
- RawRepl.MpRepl.Enter: a board that swallows what it receives while it boots is left out; its late boot text is part of the noise.
- RawRepl.Link: a write to the link never fails, and a deadline either has passed or has not; clocks are otherwise left out.
- RawRepl.StripTells: answers and error texts are ASCII; the blanks beyond it, which the source strips too, are left out.
- ReplText.ReprRoundTrip: characters that the source language would escape as \u or \U in a path are passed through as they are.
- ReplBoard: the board is the fake board of the tests, generalised by its greeting, its answer to an interrupt and its free space. Like real firmware, and unlike the fake board, it marks a failing command with OK too and keeps its file handle when a write or a read fails; other firmware is not part of this model.
- Replay.RecordThenReplay: models successful reads, line reads and writes; failed operations are journaled under other kinds that replay ignores.
- Journal: JSON text, timestamps and file-system errors are left out; the sidecar file lock is taken as a mutex, and a file's size is the sum of a size per record that the environment chooses.
- AntiCheat: text is already decoded; the incremental UTF-8 decoder of the board log is library code.
- AntiCheat.WaitForAnswer: its deadline and exit conditions are the length of the list of looks.
- SerialReader.SerialReader.ReadUntil: whether the deadline, a dead port or the stop ended the loop is not part of the result; what arrives between the last look and that test stays in the buffer for the next read.
- LineRace: takes a port from its open to its close; that the same device may be opened again by another name is left out.
- LockOrder.NoDeadlock: the join of a stopping reader has no timeout here, so the result covers a source without that escape; a reader that is started anew has a new number, as the source makes a new object.
- Topics: topics that start with `$` are not special in the source and not here.
- Topics.TopicMatches: works on the UTF-8 bytes of topic and filter, which have the same levels as the decoded text.
- MqttBroker: CONNECT, PINGREQ, keep-alive and a failing socket are plumbing; a client's packets are recorded as sent.
- RetainedRace: a client that leaves never comes back under the same identity, as in the source.
- SessionGates: the closed flag, which the source reads outside the lock, access policies and argument bounds are left out. Put, get and monitor do not check the kind of the transport in the source, and not here. What a direct call does after its gate is in LineRace.
- Monitor.Window: the clock is what each turn reports, and running out of turns counts as running out of time; the summary and the dump file are left out.
- Modbus: the frame loop around the handler is plumbing, and registers are taken to start as 16-bit values.
- Plant: rounding of floating point, the noise on the measurement, the rounding of duration / dt and the steady-error mean are left out; the controller is any sequence of replies.
- Limits other than the rate limiter, sockets, processes, serial ports, HTML and YAML handling are plumbing or shallow and left out.
