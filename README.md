# Iridium SBD AT-command engine

A model of the engine that drives an Iridium short-burst-data (SBD) modem over a
serial line by means of AT commands. The engine exists in two near-identical copies:

- `index.js`, an `iridium` object holding its state and a `globals` configuration;
- `iridium.js`, the same engine as module functions and variables.

It is modelled once. The places where the copies differ are carried by `Flavour.Flavour`
(`IndexJs` | `IridiumJs`):

- whether a command's timer delivers `"TIMEOUT"`;
- which `maxWait` bounds the network wait;
- whether the `+SBDIX` match is guarded;
- whether `ATS` forwards the reply body;
- whether the MT read updates the mailbox's pending count;
- the default for flow control.

The engine has six parts, one module each:

- **Framer** (`framer.dfy`). The `AT+SBDWB` upload frame is the payload, then a two-byte
  big-endian sum of its bytes. The `AT+SBDRB` download is a two-byte big-endian length,
  then the message.
- **Classifier** (`classifier.dfy`). This is `readSBD`. In line mode it adds each chunk to
  a partial line and emits the complete lines. In binary mode it copies chunks into a
  512-byte buffer at a cursor and flushes the buffer when the capture window elapses.
  `ResponseClassifier` is the class; `Feed` is its pure specification.
- **Dispatcher** (`dispatcher.dfy`). This covers `AT` / `ATS`, the per-line `data` handler
  and the command timer. `HandleInput` and `FireTimer` are the pure specification, and
  `AtEngine` updates the same state in place.
  - The fixed regular expressions are the `Patterns.Pattern` datatype (`patterns.dfy`).
  - The model takes the source as written: `delete(df)` and `delete(er)` delete nothing,
    so a command stays armed after it completes until the next `AT` replaces it.
- **Session** (`session.dfy`). This is the chain of callbacks in `sendMessage`,
  `sendBinaryMessage`, `waitForNetwork`, `initiateSession`, `readBinaryMessage` and
  `finishSession`, written as a state machine:
  - `CommandOf` gives the command each stage issues;
  - `Next` gives the stage that command's outcome leads to;
  - `Drive` runs a session against a list of outcomes.

  The structured replies `+SBDIX` and `CCLK` are parsed in `replies.dfy`, and decimal
  numerals are handled in `numerals.dfy`.
- **Mailbox** (`mailbox.dfy`). This is the index.js controller made of `lock`, `pending`
  and `c_attempt`. The functions are the specification; `Controller` updates the fields
  in place.
- **BringUp** (`bringup.dfy`). This covers the configuration merge, the flow-control
  decision, the `AT&K0` / `ATE0` / `AT+SBDD2` / `AT+SBDAREG=1` / `AT+SBDMTA=1` series
  that stops at its first error, and the `AT+CCLK?` clock query.

The model abstracts the environment as follows:

- The serial port is abstracted away. What is written to it is a log (`AtEngine.written`),
  and what it delivers is chunks, lines and blobs handed to the handlers.
- Timers are explicit "fired" events.
- Callbacks are continuation numbers, or the next stage of a session.
- Events the engine emits (`newmessage`, `ringalert`, `initialized`) are results:
  `Session.Notice`, `Dispatcher.Effect` and `BringUp.Bring.initialized`.

Where the code and its design description disagree, the model follows the code:

- After `maxAttempts` the mailbox reports its error but keeps the lock; the design says
  the lock is released (`Mailbox.RetryBound`).
- A download capture shorter than its declared length is not reported as an error. The
  message is announced anyway (`Session.Download`).
- An unparseable `+SBDIX` reply is not reported either. index.js finishes the session
  with an undefined MOMSN, and iridium.js throws (`Session.UnparsedReply`).
- After `sendCompressedMessage` an always-failing send starts `maxAttempts` sessions in
  total, so it is retried `maxAttempts - 1` times (`Mailbox.CompressedRetryBound`).

## Model

| member | source | states |
|---|---|---|
| Framer.BuildUploadFrame | index.js:180-190 | the checksum loop fills a new buffer two bytes longer than the payload, and the result is exactly `UploadFrame(payload)` |
| Framer.UploadFrameLayout | index.js:182-190 | an N-byte payload gives N+2 bytes: the payload first, then the high byte and the low byte of (sum of the payload bytes) mod 65536 |
| Framer.CheckUpload | index.js:180-190 | the inverse of the frame built here, as the modem checks it (the modem's side is not in the source): it accepts only a frame whose trailer is the checksum of what precedes it, and returns that prefix |
| Framer.UploadRoundTrip | index.js:180-190 | every framed payload passes the checksum check and gives back exactly the payload |
| Framer.AnnounceRoundTrip | index.js:180 | the announce command is `AT+SBDWB=` followed by the decimal length, and that length reads back as N |
| Framer.DecodeDownload | iridium.js:409-412 | the length is the big-endian uint16 of bytes 0-1 and the message is bytes [2, 2+len); it fails exactly when the capture is too short for either |
| Framer.DownloadRoundTrip | iridium.js:409-412 | the modem's image of a message (length, message, checksum), followed by anything, decodes to the message |
| Framer.DownloadExample | iridium.js:409-412 | a concrete 3-byte capture decodes to `abc`; cut short, it is a short-body error |
| Numerals.Decimal | index.js:180 | `String(n)`: a non-empty run of digits with no leading zero unless n is 0 |
| Numerals.DigitRun | iridium.js:457 | the longest prefix of digits, as a greedy `(\d+)` consumes it |
| Numerals.ParseNat | iridium.js:457 | `(\d+)` at the start of a text: it fails exactly when no digit is there, and otherwise leaves a rest that does not start with a digit |
| Numerals.DecimalValue | iridium.js:457 | reading back the numeral of n gives n |
| Numerals.ParseDecimal | iridium.js:457 | the numeral of n followed by a non-digit parses back to n and leaves exactly that rest |
| Patterns.ContainsIff | index.js:350-352 | the unanchored literal patterns (`ERROR`, `READY`, `\+SBDIX`) match exactly when the literal occurs at some index |
| Patterns.AcquiredSignalIff | iridium.js:339-341 | `\+CIEV:0,[^0]` matches exactly when `+CIEV:0,` occurs followed by a character other than `0` |
| Patterns.OkLineIsPlain | index.js:23 | the `OK\r` line ends a command and is neither an error nor unsolicited |
| Replies.ParseRegistration | index.js:67-70 | a registration match requires the `+AREG:` prefix |
| Replies.RegistrationRoundTrip | index.js:67-70 | the modem's `+AREG:<event>,<error>` line, followed by a non-digit, parses back to its two codes |
| Replies.RegistrationNeedsCodes | index.js:67-70 | a `+AREG` line without `:` and a first code has no match |
| Patterns.Route | index.js:75-84 | unsolicited routing in table order: `SBDRING` first, then `+AREG`, otherwise none, in both directions |
| Classifier.BinaryString | index.js:300 | `toString('binary')`: one character per byte, with the same code |
| Classifier.Split | index.js:302 | `split("\n")`: at least one piece, none containing `\n`, and the pieces rejoined with `\n` give back the text |
| Classifier.Feed | index.js:300-306 | the emitted lines, each followed by `\n`, then the retained rest, equal the old rest plus the chunk; neither lines nor rest contain `\n` |
| Classifier.SplitJoined | index.js:302-303 | splitting is unique: complete lines joined and followed by a partial line split back into exactly those |
| Classifier.ChunkBoundary | index.js:300-306 | feeding a then b emits the same lines, in the same order, and keeps the same rest as feeding a + b at once |
| Classifier.ChunkIndependence | index.js:300-306 | however the stream is cut into chunks, the lines emitted and the rest kept are those of the whole stream |
| Classifier.ResponseClassifier.constructor | index.js:31-34 | an empty partial line, line mode, a 512-byte buffer and a cursor at 0 |
| Classifier.ResponseClassifier.EnableBinaryMode | index.js:279-280 | binary mode is switched on and nothing else changes |
| Classifier.ResponseClassifier.Read | index.js:291-307 | in binary mode the chunk is captured at the cursor and the cursor grows by the chunk's length, with no line emitted; in line mode the lines and the new partial line are those of `Feed` |
| Classifier.ResponseClassifier.Flush | index.js:281-287 | the flush emits exactly the bytes before the cursor (all of the capture when it fitted), resets the cursor and leaves binary mode |
| Dispatcher.EffectiveTimeout | index.js:608 | an absent or zero timeout becomes 60000; any other value is kept |
| Dispatcher.ArmTimer | index.js:609-612 | a timer is armed exactly when the effective timeout is positive, for the new command and with that delay |
| Dispatcher.Issue | index.js:598-612 | a new command replaces the armed one, cancels the old timer, keeps the buffer, and arms a timer exactly when the timeout is positive |
| Dispatcher.HandleInput | index.js:334-372 | the line handler's order: no command means it throws; no end pattern means the input goes straight to the continuation; then unsolicited routing leaves the state untouched, and a `+AREG` line `areg` cannot match throws; then `ERROR` completes with the partial buffer and empties it |
| Dispatcher.RegistrationHandled | index.js:66-84 | while a command waits, the modem's registration line goes to `areg` and changes nothing, and a bare `+AREG` line throws |
| Dispatcher.FireTimer | iridium.js:550-553 | the continuation receives `TIMEOUT` exactly when the timer fired is the live one and the flavour delivers timeouts; the armed command and the buffer are unchanged |
| Dispatcher.RunKeepsArmed | index.js:599-607 | no sequence of lines or timer events disarms a command, and every continuation called is the armed one |
| Dispatcher.SupersededNeverCalled | index.js:599-607 | once a new command is issued, no later line or timer calls an earlier continuation |
| Dispatcher.KeptLines | index.js:361-363 | with a keep pattern the buffer receives exactly the lines that match it, so `AT+SBDIXA`'s body holds only `+SBDIX` lines; with none it receives every line |
| Dispatcher.OrdinaryLine | index.js:361-372 | an ordinary line is appended iff kept, and an end match completes with the whole buffer and empties it |
| Dispatcher.ResponseBody | index.js:361-372 | a response completes on its end line with the kept lines, each followed by `\n`, in arrival order; every earlier line waits, and the buffer is empty afterwards |
| Dispatcher.RingAlertIntercepted | index.js:343-348 | a `SBDRING` line in mid-response runs its handler and leaves the state, and so the eventual body, as if it had never arrived |
| Dispatcher.CompletedCommandStaysArmed | index.js:364-369 | as written, a second `OK` calls the same continuation a second time |
| Dispatcher.TimeoutThenLateReply | iridium.js:550-553 | iridium.js delivers `TIMEOUT` and then the late reply to the same continuation; index.js only delivers the reply |
| Dispatcher.AtsReply | iridium.js:528-532 | iridium.js's `ATS` forwards only the error; index.js's forwards the error and the body |
| Dispatcher.AtEngine.constructor | index.js:16-18 | no command armed, no timer, an empty buffer, nothing written |
| Dispatcher.AtEngine.At | index.js:598-621 | the state becomes `Issue(...)` for a fresh continuation; a text command is written with `\r` appended, a buffer verbatim |
| Dispatcher.AtEngine.OnInput | index.js:334-372 | the new state and the effect are exactly `HandleInput` of the old state; nothing is written |
| Dispatcher.AtEngine.OnTimer | iridium.js:550-553 | the new state and the effect are exactly `FireTimer` of the old state |
| Replies.FieldsAt | iridium.js:457 | the anchored field pattern yields exactly one field more than it has separators |
| Replies.Search | iridium.js:457 | `match` yields the fields of the leftmost position where the whole pattern matches |
| Replies.FieldsRoundTrip | iridium.js:457 | rendered fields, followed by a non-digit, are read back exactly |
| Replies.SearchRoundTrip | iridium.js:457 | a reply starting with the tag and rendered fields gives those fields back |
| Replies.SearchNeedsTag | index.js:507-509 | a text that contains the tag nowhere has no match |
| Replies.SessionReplyNeedsTag | index.js:507-509 | a body without `+SBDIX: ` is no session result |
| Replies.SessionReplyRoundTrip | index.js:507-516 | every `+SBDIX: a, b, c, d, e, f` line the modem prints parses back to its six fields, in order |
| Replies.ClockMatch | iridium.js:347-350 | any match gives a year of at least 2000 and a month index of at least -1 |
| Replies.ParseClock | iridium.js:347-350 | a clock reading has year 2000+yy and month index mm-1 |
| Replies.ClockNeedsTag | iridium.js:347-348 | a reply without `CCLK:` gives no clock |
| Replies.SystemTimeOf | iridium.js:344-352 | an error is passed through unchanged; a reply gives `UNKNOWN_TIME` exactly when it does not match |
| Replies.ClockOf | iridium.js:347-350 | the six matched fields become year 2000+f0, month index f1-1, then day, hour, minute and second unchanged |
| Replies.ClockReading | iridium.js:347-350 | the line `+CCLK:yy/mm/dd,hh:mm:ss` yields year 2000+yy, month index mm-1, then the other fields |
| Session.WaitTimeout | iridium.js:339-341 | the network wait has a timer exactly when iridium.js is given a positive `maxWait`; otherwise it waits forever |
| Session.CommandOf | index.js:415-439 | each live stage issues one command, an ended session none; the MO clear is `AT+SBDD0` with 2 s; only the MT read has no end pattern |
| Session.Start | index.js:239-242 | the first stage of `sendMessage` / `sendBinaryMessage`, case by case: an empty text writes `AT+SBDD0`, a text t `AT+SBDWT=t`, an empty buffer `AT+SBDWT=` (sendBinaryMessage hands it to sendMessage), a non-empty buffer is announced; the phase and the wait come from the caller |
| Session.ErrOf | index.js:582-586 | the error passed on is absent exactly when the command completed, and is the command's own failure otherwise |
| Session.StatusError | index.js:518-542 | MO status ≤ 4 is success, 18 is radio failure and 32 is network failure, each in both directions; anything else is an unknown failure |
| Session.Download | index.js:458-468 | the announced message has the declared length and the bytes of it that the capture holds; it is the decoded message exactly when decoding succeeds |
| Session.Next | index.js:195-276 | every continuation keeps the wait bound; a session reports only from the MO clear; only the MT read emits events |
| Session.NextDecreasesRank | index.js:496-586 | every continuation moves the session strictly towards its end |
| Session.ClearMoDrive | index.js:582-586 | after `AT+SBDD0` the callback is called: a recovered error without a MOMSN, or SBDD0's own error with the MOMSN |
| Session.CommandBound | index.js:171-276 | a session issues at most eight commands for a binary message and seven for a text one |
| Session.ClearBeforeReport | index.js:496-586 | whenever a session reports, the last command it issued was `AT+SBDD0` |
| Session.StartConsistent | index.js:239-276 | a new session starts live; the start stages put no constraint on the phase counter, so its consistency clause holds for any starting phase |
| Session.NextConsistent | iridium.js:451-489 | every continuation keeps the phase counter consistent: 1 while waiting for the network, 2 from then until the session result, 0 after a delivered MO, 1 after a failed status, 0 or 1 after a failed command |
| Session.ReportConsistent | iridium.js:155-192 | at the end of any run, a report carrying a MOMSN has phase 0, and one carrying a failed status has phase 1 |
| Session.TextFrontHalf | index.js:239-276 | a text message issues `AT+SBDWT=<text>`, the network wait and `AT+CIER=0,0,0,0`, then reaches `AT+SBDIXA` with phase 2 |
| Session.NetworkDrive | index.js:257-274 | an acquired signal leads to quiescing and then to `AT+SBDIXA` with phase 2 |
| Session.BinaryFrontHalf | index.js:171-237 | a binary message issues `AT+SBDWB=<n>`, the checksummed frame, the network wait and quiescing, then reaches `AT+SBDIXA` |
| Session.EarlyFailureRecovered | index.js:197-225 | a failed write or network wait resets the phase to 0, issues `AT+SBDD0` and reports the failure without a MOMSN |
| Session.InitiateFailureRecovered | index.js:497-505 | a failed `AT+SBDIXA` sets the phase to 1 and goes to the MO clear; the session issues `AT+SBDD0` and reports the failure without a MOMSN |
| Session.InitiateOnReply | index.js:507-552 | the three outcomes of a parsed `+SBDIX`: a failed status clears the MO buffer with phase 1; MT status 1 reads the MT message with phase 0; otherwise it finishes with the MOMSN and phase 0 |
| Session.FailedStatusReported | index.js:518-542 | a failed status issues `AT+SBDD0`, then reports the classified error with no MOMSN and no MT read |
| Session.DeliveredStatusReported | index.js:549-570 | a successful status with no MT message issues `AT+SBDD0`, then reports `(err of SBDD0, momsn)` |
| Session.ClearAfterReply | index.js:582-586 | a session reply that leads to the MO clear ends after exactly `AT+SBDIXA` and `AT+SBDD0` |
| Session.MtMessageFetched | index.js:552-566 | MT status 1 issues `AT+SBDRB`, announces the message with the MT queue length, then issues `AT+SBDD1` and `AT+SBDD0` and reports `(err of SBDD0, momsn)` |
| Session.MtReadDrive | index.js:447-470 | the binary capture of the modem's image yields exactly the message, then both clears run |
| Session.MtReadFailureIgnored | index.js:451-456 | a failed MT read is not reported: both buffers are still cleared and the MOMSN is reported |
| Session.UnparsedReply | index.js:573-576 | an unparseable reply: index.js clears the MO buffer and reports no MOMSN; iridium.js throws |
| Session.DeliveredExample | index.js:518-551 | status 0 with MOMSN 5 reports `(null, 5)` after `AT+SBDD0` |
| Session.RadioFailureExample | index.js:521-527 | status 18 reports `radio failure` after `AT+SBDD0` |
| Session.MtExample | index.js:552-566 | status 2 with MT status 1 reads a 10-byte message, announces it, and reports `(null, 7)` |
| Mailbox.Check | index.js:130-138 | a check while locked only counts itself; otherwise it starts an empty-text session |
| Mailbox.Send | index.js:140-169 | each send counts an attempt; within `maxAttempts` it takes the lock and starts the binary session, and otherwise it tells the max-attempts error and leaves the lock alone |
| Mailbox.SendCompressed | index.js:119-128 | after the counter reset, the first attempt always sends (for a bound of at least 1) |
| Mailbox.Reported | index.js:144-162 | success releases the lock iff no check is pending, arms the follow-up check otherwise, and tells the MOMSN; failure re-arms the same buffer after 20000 ms |
| Mailbox.Fired | index.js:149-161 | the follow-up timer starts a bare empty session, and the retry timer is `mailboxSend` again |
| Mailbox.FollowUpKeepsLock | index.js:147-153 | after a successful send with checks pending, the timer the report arms starts one empty session without a callback and keeps the lock and the count |
| Mailbox.PendingFromQueue | index.js:467 | the pending count becomes the MT queue length; nothing else changes |
| Mailbox.QueueDecidesFollowUp | index.js:147-155 | once an MT read has set the count to the queue length, a successful send keeps the lock and arms one follow-up exactly when messages are queued, and releases the lock otherwise |
| Mailbox.ChecksWhileLocked | index.js:130-133 | n checks while locked start nothing and add n to the count |
| Mailbox.Coalescing | index.js:130-155 | any number of checks during a successful send give exactly one follow-up, and the lock stays held for it |
| Mailbox.Attempts | index.js:140-163 | each attempt of a failing send is followed by the retry timer its report arms, firing into `mailboxSend` |
| Mailbox.RetryBound | index.js:140-169 | an always-failing send starts exactly `maxAttempts - a` sessions, then tells the max-attempts error, and its lock is never released |
| Mailbox.CompressedRetryBound | index.js:119-169 | after `sendCompressedMessage` an always-failing send starts exactly `maxAttempts` sessions and keeps the lock |
| Mailbox.UndefinedAttemptNeverSends | index.js:140-142 | with the counter undefined (NaN) `mailboxSend` never sends |
| Mailbox.Controller.constructor | index.js:38-39 | unlocked, nothing pending, counter undefined |
| Mailbox.Controller.MailboxCheck | index.js:130-138 | the fields and actions are those of `Check` |
| Mailbox.Controller.MailboxSend | index.js:140-169 | the fields and actions are those of `Send` |
| Mailbox.Controller.SendCompressedMessage | index.js:119-128 | the fields and actions are those of `SendCompressed` |
| Mailbox.Controller.OnReport | index.js:144-162 | the fields and actions are those of `Reported` |
| Mailbox.Controller.OnTimer | index.js:149-161 | the fields and actions are those of `Fired` |
| Mailbox.Controller.OnQueueLength | index.js:467 | the fields are those of `PendingFromQueue` |
| BringUp.Lookup | index.js:319-320 | the value a configuration gives a key is one of its entries; there is none exactly when no entry names the key |
| BringUp.MergedValues | index.js:317-322 | the merge adds and removes no key; a known key takes the configuration's value, and every other key keeps its default |
| BringUp.MaxWaitNeverSet | index.js:319-320 | no configuration can set `maxWait`, so index.js's network wait always falls back to `timeoutForever` |
| BringUp.NetworkWaitUnbounded | index.js:391-393 | `timeoutForever` keeps -1, for which no timer is armed, unless the configuration names it; a configured value is taken as given |
| BringUp.Settings.constructor | index.js:40-50 | the globals start as the defaults |
| BringUp.Settings.MergeConfig | index.js:317-322 | the `for…in` loop leaves the globals equal to `Merged(old globals, config)` |
| BringUp.FlowControl | iridium.js:241-246 | flow control is the flavour's default without a configuration, and otherwise the truthiness of the configured `flowControl` (false when absent) |
| BringUp.RunSeries | iridium.js:310-314 | `async.series`: the commands issued are a prefix of the list, each issued only after the previous one succeeded; it stops at the first failure and finishes only when all succeed |
| BringUp.Open | iridium.js:296-302 | with flow control on, the series starts at once; otherwise `AT&K0` comes first |
| BringUp.SeriesCompletes | iridium.js:310-314 | when every command succeeds, all are issued in order and the series finishes |
| BringUp.SeriesStops | iridium.js:310-314 | when the j-th command fails after all earlier ones succeeded, exactly the first j+1 are issued and the series stops with that error |
| BringUp.BringUpOrder | iridium.js:325-334 | with all replies successful: `AT&K0` when flow control is off, then `ATE0`, `AT+SBDD2`, `AT+SBDAREG=1`, `AT+SBDMTA=1`, then `initialized` |
| BringUp.StopsAtFirstError | iridium.js:325-334 | with flow control on, the first failing reply ends bring-up: exactly the commands up to it are sent and `initialized` is never emitted |
| BringUp.StopsAtFirstErrorAfterFlowControl | index.js:378-383 | with flow control off the same holds after `AT&K0`: a failure of the j-th series command issues exactly `AT&K0` and the first j+1 |
| BringUp.FlowControlOutcomeIgnored | index.js:410-413 | the outcome of `AT&K0` does not change bring-up: the series follows it either way |
| BringUp.SystemTime | iridium.js:343-356 | `getSystemTime`: an error is passed through; a text reply gives the clock or `UNKNOWN_TIME` |

## Left out

- Serial-port construction, the port's `open` and `error` events, and baud rate: I/O. Writes
  are a log, and input is handed to the handlers.
- Real timer delays: time. Timers are events. The delays (1000, 2000, 20000, 60000 ms) appear
  as data.
- zlib `deflateRaw` in `sendCompressedMessage`: a foreign library. The compressed bytes are an
  input, and a deflate error (after which the source calls nothing) is not modelled.
- `Date.UTC` and the `Date` object: foreign. The clock stops at the fields passed to it.
- The EventEmitter, `log`/debug output and `cli-color`: output only. Emitted events are
  results.
- sbd.js: demo wiring outside the engine.
- `readMessage`: nothing calls it.
- `areg`'s log message: output only. Its match, and the throw when a `+AREG` line does not match, are modelled.
- Configuration of `port`, `debug` and `baudrate`: these affect only I/O and logging.
- The configured `defaultTimeout`, `simpleTimeout` and `maxAttempts`: the model uses the
  defaults as constants. `maxAttempts` is a parameter of the mailbox.
- Session.WaitTimeout: index.js's network wait uses the configured `timeoutForever`; the model
  uses its default -1 (no timer). A configuration that sets it positive bounds that wait, and
  the model does not follow it.
- Session.NextConsistent: after a failed command the phase invariant allows 0 or 1, because
  the recovery stage does not record which command failed. The exact value is stated per
  command: 0 before `AT+SBDIXA` (`EarlyFailureRecovered`) and 1 after (`InitiateFailureRecovered`).
- `getSignalQuality` (`AT+CSQ`): it passes the raw outcome on, and there is nothing to parse.
- Keys that `for…in` finds on a configuration's prototype chain: the configuration is its
  own entries.
- Classifier.ResponseClassifier.Flush: when the cursor has passed 512, the source emits a
  buffer of `cursor` bytes whose tail is not captured data. The model emits the 512 bytes
  held.
- How a blob is tested against the patterns, which happens only when a command with an end
  pattern is armed: the source converts the Buffer with UTF-8, and the model reads one
  character per byte.
- Session.Download: the source copies the bytes of a short capture into a buffer of the
  declared length, and the rest of that buffer is unspecified. The model gives the length
  and the bytes held.
- Session.Next: the second call of a continuation, after iridium.js's `TIMEOUT` and a late
  reply, is shown at the dispatcher (`Dispatcher.TimeoutThenLateReply`). A session consumes
  one outcome per command.
- Session.Next: a continuation that throws ends the session as `Crashed`. What the host
  process does next is not modelled.
- Mailbox.Send: the source's `c_attempt` is a JavaScript number or NaN. The model uses a
  natural number or `None`.
- Replies.ParseClock: the source's `Number(...)` and `m[2]-1` coercions of the captured
  digit strings are taken as exact integers.
