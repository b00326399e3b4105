/**
 * One SBD session as `sendMessage` / `sendBinaryMessage` run it: a chain of
 * AT commands, each continuation deciding the next command from the outcome
 * of the previous one. The chain of nested callbacks is modelled as a state
 * machine: `CommandOf` says which command a stage issues and `Next` which
 * stage the command's outcome leads to. Every path ends with `AT+SBDD0`
 * (clear the MO buffer) before the caller's callback receives its report.
 */
module Session {
  import opened Wrappers
  import opened Framer
  import opened Patterns
  import opened Flavour
  import opened Dispatcher
  import opened Replies
  import Classifier

  /** What the caller asks to send. */
  datatype Request = TextMessage(text: string) | BinaryMessage(payload: seq<Byte>)

  /** The errors a session reports to its callback. */
  datatype SessionError =
    | CommandFailed(failure: Failure)   // a command's own error or timeout
    | RadioFailure                      // "radio failure": MO status 18
    | NetworkFailure                    // "network failure": MO status 32
    | UnknownFailure                    // "unknown failure": any other MO status above 4

  /** `callback(err, momsn)`; a missing MOMSN is JavaScript's `undefined`. */
  datatype Report = Report(err: Option<SessionError>, momsn: Option<nat>)

  /** What the final `AT+SBDD0` leads to: reporting a failure, or finishing with the MOMSN if there is one. */
  datatype Finale = Recover(error: SessionError) | Finish(momsn: Option<nat>)

  datatype Stage =
    | WriteText(command: string)          // AT+SBDWT=<text> or AT+SBDD0, awaiting OK
    | Announce(payload: seq<Byte>)        // AT+SBDWB=<n>, awaiting READY
    | WritePayload(payload: seq<Byte>)    // payload and checksum, awaiting OK
    | AwaitNetwork                        // AT+CIER=1,1,0,0, awaiting a signal notification
    | Quiesce                             // AT+CIER=0,0,0,0
    | Initiate                            // AT+SBDIXA, keeping the +SBDIX lines
    | ReadMt(momsn: nat, mtQueued: nat)   // AT+SBDRB in binary capture mode
    | ClearMt(momsn: nat)                 // AT+SBDD1
    | ClearMo(finale: Finale)             // AT+SBDD0
    | Done(report: Report)                // the callback has been called
    | Crashed                             // a continuation threw

  /** `messagePending` is the engine-wide phase counter (0, 1 or 2); `wait` bounds the network wait. */
  datatype Session = Session(stage: Stage, messagePending: nat, wait: Timeout)

  /** Events the session emits besides its report. */
  datatype Notice =
    | NewMessage(length: nat, known: seq<Byte>, queued: nat)  // 'newmessage': a buffer of `length` bytes starting with `known`
    | PendingSet(queued: nat)                                 // index.js: the mailbox's pending count := MT queued

  /** An AT command as the session issues it; `capture` is the binary capture window armed just before it. */
  datatype Command = Command(text: CommandText, end: Option<Pattern>, keep: Option<Pattern>, timeout: Timeout, capture: Option<nat>)

  const CaptureWindow: nat := 1000

  function Simple(text: string): Command {
    Command(AtText(text), Some(OkLine), Some(All), Millis(SimpleTimeout), None)
  }

  /** The timeout of the network wait: the caller's maxWait if it is truthy (iridium.js only), else forever. */
  function WaitTimeout(flavour: Flavour, maxWait: Option<int>): (t: Timeout)
    ensures t.Millis?
    ensures EffectiveTimeout(t) > 0 <==> flavour.WaitUsesCallerMaxWait() && maxWait.Some? && maxWait.value > 0
  {
    if flavour.WaitUsesCallerMaxWait() && maxWait.Some? && maxWait.value != 0 then Millis(maxWait.value)
    else Millis(TimeoutForever)
  }

  function Terminal(st: Stage): bool {
    st.Done? || st.Crashed?
  }

  /** The command a stage issues; none once the session has ended. */
  function CommandOf(s: Session): (c: Option<Command>)
    ensures c.None? <==> Terminal(s.stage)
    ensures s.stage.ClearMo? ==> c == Some(Simple("AT+SBDD0"))
    ensures c.Some? && c.value.end.None? <==> s.stage.ReadMt?
  {
    match s.stage
    case WriteText(command) => Some(Command(AtText(command), Some(OkLine), Some(All), Unspecified, None))
    case Announce(p) => Some(Command(AtText(AnnounceCommand(|p|)), Some(Ready), Some(All), Unspecified, None))
    case WritePayload(p) => Some(Command(AtBinary(UploadFrame(p)), Some(OkLine), Some(All), Unspecified, None))
    case AwaitNetwork => Some(Command(AtText("AT+CIER=1,1,0,0"), Some(CievAcquired), Some(All), s.wait, None))
    case Quiesce => Some(Simple("AT+CIER=0,0,0,0"))
    case Initiate => Some(Command(AtText("AT+SBDIXA"), Some(OkLine), Some(SbdixLine), Unspecified, None))
    case ReadMt(_, _) => Some(Command(AtText("AT+SBDRB"), None, None, Millis(SimpleTimeout), Some(CaptureWindow)))
    case ClearMt(_) => Some(Simple("AT+SBDD1"))
    case ClearMo(_) => Some(Simple("AT+SBDD0"))
    case Done(_) => None
    case Crashed => None
  }

  /** `sendMessage` / `sendBinaryMessage`: the first stage. An empty text is a mailbox check (`AT+SBDD0`). */
  function Start(flavour: Flavour, request: Request, messagePending: nat, maxWait: Option<int>): (s: Session)
    ensures s.messagePending == messagePending && s.wait == WaitTimeout(flavour, maxWait)
    ensures request == TextMessage("") ==> s.stage == WriteText("AT+SBDD0")
    ensures request.TextMessage? && request.text != "" ==> s.stage == WriteText("AT+SBDWT=" + request.text)
    ensures request == BinaryMessage([]) ==> s.stage == WriteText("AT+SBDWT=")
    ensures request.BinaryMessage? && request.payload != [] ==> s.stage == Announce(request.payload)
  {
    var stage :=
      match request
      case TextMessage(t) => WriteText(if t == "" then "AT+SBDD0" else "AT+SBDWT=" + t)
      case BinaryMessage(p) =>
        // an empty Buffer is handed to sendMessage, where it is truthy and prints as ""
        if p == [] then WriteText("AT+SBDWT=") else Announce(p);
    Session(stage, messagePending, WaitTimeout(flavour, maxWait))
  }

  /** The error a completed or failed command passes to its continuation. */
  function ErrOf(o: Outcome): (e: Option<SessionError>)
    ensures e.None? <==> o.Completed?
    ensures o.Failed? ==> e == Some(CommandFailed(o.failure))
  {
    if o.Failed? then Some(CommandFailed(o.failure)) else None
  }

  /** The MO status classes of `+SBDIX`. */
  function StatusError(moStatus: nat): (e: Option<SessionError>)
    ensures e.None? <==> moStatus <= 4
    ensures e == Some(RadioFailure) <==> moStatus == 18
    ensures e == Some(NetworkFailure) <==> moStatus == 32
  {
    if moStatus <= 4 then None
    else if moStatus == 18 then Some(RadioFailure)
    else if moStatus == 32 then Some(NetworkFailure)
    else Some(UnknownFailure)
  }

  /** The message a binary capture carries: the declared length and the bytes of it the capture holds. */
  function Download(capture: seq<Byte>, queued: nat): (n: Notice)
    requires |capture| >= 2
    ensures n.NewMessage? && n.queued == queued && n.length == Uint16BE(capture[0], capture[1])
    ensures |n.known| <= n.length
    ensures DecodeDownload(capture).Success? <==> |n.known| == n.length
    ensures DecodeDownload(capture).Success? ==> n.known == DecodeDownload(capture).value
  {
    var length := Uint16BE(capture[0], capture[1]);
    NewMessage(length, capture[2..Classifier.Min(|capture|, 2 + length)], queued)
  }

  datatype Transition = Transition(next: Session, notices: seq<Notice>)

  function Goto(s: Session, stage: Stage, messagePending: nat): Transition {
    Transition(Session(stage, messagePending, s.wait), [])
  }

  /** The continuation of the command `CommandOf(s)`, given its outcome. */
  function Next(flavour: Flavour, s: Session, o: Outcome): (t: Transition)
    ensures t.next.wait == s.wait
    ensures t.next.stage.Done? <==> s.stage.ClearMo? || s.stage.Done?
    ensures t.notices != [] ==> s.stage.ReadMt?
  {
    var mp := s.messagePending;
    match s.stage
    case WriteText(_) =>
      if o.Failed? then Goto(s, ClearMo(Recover(CommandFailed(o.failure))), 0) else Goto(s, AwaitNetwork, 1)
    case Announce(p) =>
      if o.Failed? then Goto(s, ClearMo(Recover(CommandFailed(o.failure))), 0) else Goto(s, WritePayload(p), mp)
    case WritePayload(_) =>
      if o.Failed? then Goto(s, ClearMo(Recover(CommandFailed(o.failure))), 0) else Goto(s, AwaitNetwork, 1)
    case AwaitNetwork =>
      if o.Failed? then Goto(s, ClearMo(Recover(CommandFailed(o.failure))), 0) else Goto(s, Quiesce, 2)
    case Quiesce =>
      // disableSignalMonitoring's callback ignores its error
      Goto(s, Initiate, mp)
    case Initiate =>
      if o.Failed? then Goto(s, ClearMo(Recover(CommandFailed(o.failure))), 1)
      else if o.body.Blob? then Goto(s, Crashed, mp)
      else
        OnSessionReply(flavour, s, ParseSessionReply(o.body.text))
    case ReadMt(momsn, q) =>
      if o.Failed? then Goto(s, ClearMt(momsn), mp)
      else if o.body.Text? || |o.body.bytes| < 2 then
        // readUInt16BE(0) on a string or on fewer than two bytes throws
        Goto(s, Crashed, mp)
      else
        var pending := if flavour.ReadSetsMailboxPending() then [PendingSet(q)] else [];
        Transition(Session(ClearMt(momsn), mp, s.wait), pending + [Download(o.body.bytes, q)])
    case ClearMt(momsn) =>
      Goto(s, ClearMo(Finish(Some(momsn))), mp)
    case ClearMo(Recover(e)) =>
      Goto(s, Done(Report(Some(e), None)), mp)
    case ClearMo(Finish(momsn)) =>
      Goto(s, Done(Report(ErrOf(o), momsn)), mp)
    case Done(_) => Transition(s, [])
    case Crashed => Transition(s, [])
  }

  /** The continuation of `AT+SBDIXA` on a text reply, given what the `+SBDIX` pattern made of it. */
  function OnSessionReply(flavour: Flavour, s: Session, parsed: Option<SessionReply>): Transition {
    var mp := s.messagePending;
    match parsed
    case None =>
      // index.js finishes with an undefined MOMSN; iridium.js reads fields of null
      if flavour.GuardsSessionReply() then Goto(s, ClearMo(Finish(None)), mp) else Goto(s, Crashed, mp)
    case Some(r) =>
      match StatusError(r.moStatus)
      case Some(e) => Goto(s, ClearMo(Recover(e)), 1)
      case None =>
        if r.mtStatus == 1 then Goto(s, ReadMt(r.momsn, r.mtQueued), 0)
        else Goto(s, ClearMo(Finish(Some(r.momsn))), 0)
  }

  /** How many commands a stage can still issue at most. */
  function Rank(st: Stage): nat {
    match st
    case Announce(_) => 8
    case WriteText(_) => 7
    case WritePayload(_) => 7
    case AwaitNetwork => 6
    case Quiesce => 5
    case Initiate => 4
    case ReadMt(_, _) => 3
    case ClearMt(_) => 2
    case ClearMo(_) => 1
    case Done(_) => 0
    case Crashed => 0
  }

  /** Every continuation moves the session strictly towards its end. */
  lemma NextDecreasesRank(flavour: Flavour, s: Session, o: Outcome)
    requires !Terminal(s.stage)
    ensures Rank(Next(flavour, s, o).next.stage) < Rank(s.stage)
  {
    if s.stage.Initiate? && o.Completed? && o.body.Text? {
      var p := ParseSessionReply(o.body.text);
      assert Next(flavour, s, o) == OnSessionReply(flavour, s, p);
      assert Rank(OnSessionReply(flavour, s, p).next.stage) < 4;
    }
  }

  /** What a session does when its commands meet these outcomes, one outcome per command. */
  datatype Trace = Trace(final: Session, commands: seq<Command>, notices: seq<Notice>)

  function Drive(flavour: Flavour, s: Session, outcomes: seq<Outcome>): (tr: Trace)
    decreases |outcomes|
  {
    if Terminal(s.stage) || outcomes == [] then Trace(s, [], [])
    else
      var t := Next(flavour, s, outcomes[0]);
      var rest := Drive(flavour, t.next, outcomes[1..]);
      Trace(rest.final, [CommandOf(s).value] + rest.commands, t.notices + rest.notices)
  }

  /** One step of `Drive`: the stage's command, then the rest of the session from where its outcome leads. */
  lemma DriveStep(flavour: Flavour, s: Session, o: Outcome, rest: seq<Outcome>)
    requires !Terminal(s.stage)
    ensures var t := Next(flavour, s, o);
            var tr := Drive(flavour, t.next, rest);
            Drive(flavour, s, [o] + rest) == Trace(tr.final, [CommandOf(s).value] + tr.commands, t.notices + tr.notices)
  {
    assert ([o] + rest)[0] == o && ([o] + rest)[1..] == rest;
  }

  /** A session that has ended does nothing more. */
  lemma DriveEnded(flavour: Flavour, s: Session, rest: seq<Outcome>)
    requires Terminal(s.stage) || rest == []
    ensures Drive(flavour, s, rest) == Trace(s, [], [])
  {
  }

  /** The report `AT+SBDD0` leads to: the recovered error without a MOMSN, or its own error and the MOMSN. */
  function FinalReport(finale: Finale, o: Outcome): Report {
    match finale
    case Recover(e) => Report(Some(e), None)
    case Finish(momsn) => Report(ErrOf(o), momsn)
  }

  /** After `AT+SBDD0` the callback is called, whatever else follows; a recovered error hides SBDD0's own. */
  lemma ClearMoDrive(flavour: Flavour, s: Session, o: Outcome, rest: seq<Outcome>)
    requires s.stage.ClearMo?
    ensures Drive(flavour, s, [o] + rest) ==
              Trace(Session(Done(FinalReport(s.stage.finale, o)), s.messagePending, s.wait), [Simple("AT+SBDD0")], [])
  {
    var s1 := Session(Done(FinalReport(s.stage.finale, o)), s.messagePending, s.wait);
    assert Next(flavour, s, o) == Transition(s1, []);
    DriveEnded(flavour, s1, rest);
    DriveStep(flavour, s, o, rest);
  }

  /** A session issues at most `Rank` commands: eight for a binary message, seven for a text one. */
  lemma {:induction false} CommandBound(flavour: Flavour, s: Session, outcomes: seq<Outcome>)
    ensures |Drive(flavour, s, outcomes).commands| <= Rank(s.stage)
    ensures |Drive(flavour, s, outcomes).commands| <= |outcomes|
    decreases |outcomes|
  {
    if !(Terminal(s.stage) || outcomes == []) {
      var t := Next(flavour, s, outcomes[0]);
      NextDecreasesRank(flavour, s, outcomes[0]);
      CommandBound(flavour, t.next, outcomes[1..]);
    }
  }

  /**
   * The callback is called only after `AT+SBDD0`: whenever a live session
   * reaches its report, the last command it issued cleared the MO buffer.
   */
  lemma {:induction false} ClearBeforeReport(flavour: Flavour, s: Session, outcomes: seq<Outcome>)
    requires !Terminal(s.stage)
    requires Drive(flavour, s, outcomes).final.stage.Done?
    ensures var cs := Drive(flavour, s, outcomes).commands;
            cs != [] && cs[|cs| - 1] == Simple("AT+SBDD0")
    decreases |outcomes|
  {
    var t := Next(flavour, s, outcomes[0]);
    var rest := Drive(flavour, t.next, outcomes[1..]);
    if Terminal(t.next.stage) {
      assert rest.commands == [];
      assert s.stage.ClearMo?;
    } else {
      ClearBeforeReport(flavour, t.next, outcomes[1..]);
    }
  }

  /**
   * The phase counter agrees with the stage: 1 while waiting for the network,
   * 2 from then until the session result, 0 once the MO message went through,
   * 1 after a failed session status. A failed command resets it to 0 before
   * the session is initiated and to 1 after (`EarlyFailureRecovered`,
   * `InitiateFailureRecovered`), so a recovery from a failed command has 0 or 1.
   */
  predicate Consistent(s: Session) {
    match s.stage
    case AwaitNetwork => s.messagePending == 1
    case Quiesce => s.messagePending == 2
    case Initiate => s.messagePending == 2
    case ReadMt(_, _) => s.messagePending == 0
    case ClearMt(_) => s.messagePending == 0
    case ClearMo(Finish(Some(_))) => s.messagePending == 0
    case ClearMo(Finish(None)) => s.messagePending == 2
    case ClearMo(Recover(e)) => if e.CommandFailed? then s.messagePending <= 1 else s.messagePending == 1
    case Done(Report(e, m)) =>
      (m.Some? ==> s.messagePending == 0) && (e.Some? && !e.value.CommandFailed? ==> s.messagePending == 1)
    case _ => true
  }

  lemma StartConsistent(flavour: Flavour, request: Request, messagePending: nat, maxWait: Option<int>)
    ensures Consistent(Start(flavour, request, messagePending, maxWait))
    ensures !Terminal(Start(flavour, request, messagePending, maxWait).stage)
  {
  }

  lemma NextConsistent(flavour: Flavour, s: Session, o: Outcome)
    requires Consistent(s)
    ensures Consistent(Next(flavour, s, o).next)
  {
  }

  /** A report that carries a MOMSN comes with `messagePending == 0`; a failed status with 1. */
  lemma {:induction false} ReportConsistent(flavour: Flavour, s: Session, outcomes: seq<Outcome>)
    requires Consistent(s)
    ensures Consistent(Drive(flavour, s, outcomes).final)
    decreases |outcomes|
  {
    if !(Terminal(s.stage) || outcomes == []) {
      var t := Next(flavour, s, outcomes[0]);
      NextConsistent(flavour, s, outcomes[0]);
      ReportConsistent(flavour, t.next, outcomes[1..]);
    }
  }

  // ---- the first half of a session ----

  function Ok(): Outcome {
    Completed(Text("OK\r\n"))
  }

  /** Text: `AT+SBDWT=`, then the network wait, then quiescing; the session is then initiated with phase 2. */
  lemma TextFrontHalf(flavour: Flavour, text: string, mp: nat, maxWait: Option<int>, o1: Outcome, o2: Outcome, o3: Outcome)
    requires text != "" && o1.Completed? && o2.Completed?
    ensures var s := Start(flavour, TextMessage(text), mp, maxWait);
            Drive(flavour, s, [o1, o2, o3]) ==
              Trace(Session(Initiate, 2, s.wait),
                    [Command(AtText("AT+SBDWT=" + text), Some(OkLine), Some(All), Unspecified, None),
                     Command(AtText("AT+CIER=1,1,0,0"), Some(CievAcquired), Some(All), WaitTimeout(flavour, maxWait), None),
                     Simple("AT+CIER=0,0,0,0")],
                    [])
  {
    var s := Start(flavour, TextMessage(text), mp, maxWait);
    var s1 := Session(AwaitNetwork, 1, s.wait);
    assert Next(flavour, s, o1) == Transition(s1, []);
    NetworkDrive(flavour, s1, o2, o3);
    DriveStep(flavour, s, o1, [o2, o3]);
    assert [o1] + [o2, o3] == [o1, o2, o3];
  }

  /** The network wait, then quiescing: phase 2 and the session reaches `AT+SBDIXA`. */
  lemma NetworkDrive(flavour: Flavour, s: Session, o2: Outcome, o3: Outcome)
    requires s.stage == AwaitNetwork && s.messagePending == 1 && o2.Completed?
    ensures Drive(flavour, s, [o2, o3]) ==
              Trace(Session(Initiate, 2, s.wait),
                    [Command(AtText("AT+CIER=1,1,0,0"), Some(CievAcquired), Some(All), s.wait, None),
                     Simple("AT+CIER=0,0,0,0")],
                    [])
  {
    var s2 := Session(Quiesce, 2, s.wait);
    var s3 := Session(Initiate, 2, s.wait);
    assert Next(flavour, s, o2) == Transition(s2, []);
    assert Next(flavour, s2, o3) == Transition(s3, []);
    DriveEnded(flavour, s3, []);
    DriveStep(flavour, s2, o3, []);
    DriveStep(flavour, s, o2, [o3]);
    assert [o3] + [] == [o3] && [o2] + [o3] == [o2, o3];
  }

  /** Binary: the announcement, then the payload with its checksum, then as for text. */
  lemma BinaryFrontHalf(flavour: Flavour, payload: seq<Byte>, mp: nat, maxWait: Option<int>,
                        o1: Outcome, o2: Outcome, o3: Outcome, o4: Outcome)
    requires payload != [] && o1.Completed? && o2.Completed? && o3.Completed?
    ensures var s := Start(flavour, BinaryMessage(payload), mp, maxWait);
            Drive(flavour, s, [o1, o2, o3, o4]) ==
              Trace(Session(Initiate, 2, s.wait),
                    [Command(AtText(AnnounceCommand(|payload|)), Some(Ready), Some(All), Unspecified, None),
                     Command(AtBinary(UploadFrame(payload)), Some(OkLine), Some(All), Unspecified, None),
                     Command(AtText("AT+CIER=1,1,0,0"), Some(CievAcquired), Some(All), WaitTimeout(flavour, maxWait), None),
                     Simple("AT+CIER=0,0,0,0")],
                    [])
  {
    var s := Start(flavour, BinaryMessage(payload), mp, maxWait);
    var s1 := Session(WritePayload(payload), mp, s.wait);
    var s2 := Session(AwaitNetwork, 1, s.wait);
    assert Next(flavour, s, o1) == Transition(s1, []);
    assert Next(flavour, s1, o2) == Transition(s2, []);
    NetworkDrive(flavour, s2, o3, o4);
    DriveStep(flavour, s1, o2, [o3, o4]);
    DriveStep(flavour, s, o1, [o2, o3, o4]);
    assert [o2] + [o3, o4] == [o2, o3, o4] && [o1] + [o2, o3, o4] == [o1, o2, o3, o4];
  }

  /** A failed write or network wait resets the phase, clears the MO buffer and reports the failure without a MOMSN. */
  lemma EarlyFailureRecovered(flavour: Flavour, s: Session, f: Failure, o2: Outcome)
    requires s.stage.WriteText? || s.stage.Announce? || s.stage.WritePayload? || s.stage.AwaitNetwork?
    ensures Drive(flavour, s, [Failed(f), o2]) ==
              Trace(Session(Done(Report(Some(CommandFailed(f)), None)), 0, s.wait),
                    [CommandOf(s).value, Simple("AT+SBDD0")], [])
  {
    var s1 := Session(ClearMo(Recover(CommandFailed(f))), 0, s.wait);
    assert Next(flavour, s, Failed(f)) == Transition(s1, []);
    ClearMoDrive(flavour, s1, o2, []);
    DriveStep(flavour, s, Failed(f), [o2]);
    assert [o2] + [] == [o2] && [Failed(f)] + [o2] == [Failed(f), o2];
  }

  /** A failed `AT+SBDIXA`: the phase becomes 1, `AT+SBDD0` is issued and the failure is reported without a MOMSN. */
  lemma InitiateFailureRecovered(flavour: Flavour, s: Session, f: Failure, o2: Outcome)
    requires s.stage.Initiate?
    ensures Next(flavour, s, Failed(f)) == Goto(s, ClearMo(Recover(CommandFailed(f))), 1)
    ensures Drive(flavour, s, [Failed(f), o2]) ==
              Trace(Session(Done(Report(Some(CommandFailed(f)), None)), 1, s.wait),
                    [InitiateCommand, Simple("AT+SBDD0")], [])
  {
    ClearAfterReply(flavour, s, Failed(f), Recover(CommandFailed(f)), 1, o2);
  }

  // ---- the session result ----

  const InitiateCommand: Command := Command(AtText("AT+SBDIXA"), Some(OkLine), Some(SbdixLine), Unspecified, None)

  /** The continuation of `AT+SBDIXA` on a reply that parses as r: the classification of its MO status. */
  lemma InitiateOnReply(flavour: Flavour, s: Session, text: string, r: SessionReply)
    requires s.stage.Initiate? && ParseSessionReply(text) == Some(r)
    ensures StatusError(r.moStatus).Some? ==>
              Next(flavour, s, Completed(Text(text))) == Goto(s, ClearMo(Recover(StatusError(r.moStatus).value)), 1)
    ensures StatusError(r.moStatus).None? && r.mtStatus == 1 ==>
              Next(flavour, s, Completed(Text(text))) == Goto(s, ReadMt(r.momsn, r.mtQueued), 0)
    ensures StatusError(r.moStatus).None? && r.mtStatus != 1 ==>
              Next(flavour, s, Completed(Text(text))) == Goto(s, ClearMo(Finish(Some(r.momsn))), 0)
  {
    NextOnText(flavour, s, text);
  }

  lemma NextOnText(flavour: Flavour, s: Session, text: string)
    requires s.stage.Initiate?
    ensures Next(flavour, s, Completed(Text(text))) == OnSessionReply(flavour, s, ParseSessionReply(text))
  {
  }

  /** A failed MO status: `AT+SBDD0`, then the classified error, no MOMSN, no MT read, phase 1. */
  lemma FailedStatusReported(flavour: Flavour, s: Session, text: string, r: SessionReply, o2: Outcome)
    requires s.stage.Initiate? && ParseSessionReply(text) == Some(r) && r.moStatus > 4
    ensures Drive(flavour, s, [Completed(Text(text)), o2]) ==
              Trace(Session(Done(Report(StatusError(r.moStatus), None)), 1, s.wait),
                    [InitiateCommand, Simple("AT+SBDD0")], [])
  {
    InitiateOnReply(flavour, s, text, r);
    ClearAfterReply(flavour, s, Completed(Text(text)), Recover(StatusError(r.moStatus).value), 1, o2);
  }

  /** A successful MO status with no MT message to read: `AT+SBDD0`, then `(err of SBDD0, momsn)`. */
  lemma DeliveredStatusReported(flavour: Flavour, s: Session, text: string, r: SessionReply, o2: Outcome)
    requires s.stage.Initiate? && ParseSessionReply(text) == Some(r) && r.moStatus <= 4 && r.mtStatus != 1
    ensures Drive(flavour, s, [Completed(Text(text)), o2]) ==
              Trace(Session(Done(Report(ErrOf(o2), Some(r.momsn))), 0, s.wait),
                    [InitiateCommand, Simple("AT+SBDD0")], [])
  {
    InitiateOnReply(flavour, s, text, r);
    ClearAfterReply(flavour, s, Completed(Text(text)), Finish(Some(r.momsn)), 0, o2);
  }

  /** The session reply sends the session to clearing the MO buffer: `AT+SBDIXA`, then `AT+SBDD0` and the report. */
  lemma ClearAfterReply(flavour: Flavour, s: Session, reply: Outcome, finale: Finale, mp: nat, o2: Outcome)
    requires s.stage.Initiate? && Next(flavour, s, reply) == Goto(s, ClearMo(finale), mp)
    ensures Drive(flavour, s, [reply, o2]) ==
              Trace(Session(Done(FinalReport(finale, o2)), mp, s.wait), [InitiateCommand, Simple("AT+SBDD0")], [])
  {
    var s1 := Session(ClearMo(finale), mp, s.wait);
    ClearMoDrive(flavour, s1, o2, []);
    DriveStep(flavour, s, reply, [o2]);
    var tr := Drive(flavour, s1, [o2]);
    assert [o2] + [] == [o2] && [reply] + [o2] == [reply, o2];
    assert [] + tr.notices == tr.notices;
    assert CommandOf(s).value == InitiateCommand;
  }

  /**
   * MT status 1: `AT+SBDRB` in binary capture mode, the message announced
   * with the MT queue length, `AT+SBDD1`, `AT+SBDD0`, then `(err of SBDD0, momsn)`;
   * the outcome of `AT+SBDD1` is not passed on.
   */
  lemma MtMessageFetched(flavour: Flavour, s: Session, text: string, r: SessionReply, m: seq<Byte>, o3: Outcome, o4: Outcome)
    requires s.stage.Initiate? && ParseSessionReply(text) == Some(r) && r.moStatus <= 4 && r.mtStatus == 1 && |m| < 65536
    ensures Drive(flavour, s, [Completed(Text(text)), Completed(Blob(DownloadImage(m))), o3, o4]) ==
              Trace(Session(Done(Report(ErrOf(o4), Some(r.momsn))), 0, s.wait),
                    [InitiateCommand,
                     Command(AtText("AT+SBDRB"), None, None, Millis(SimpleTimeout), Some(CaptureWindow)),
                     Simple("AT+SBDD1"), Simple("AT+SBDD0")],
                    (if flavour.ReadSetsMailboxPending() then [PendingSet(r.mtQueued)] else [])
                    + [NewMessage(|m|, m, r.mtQueued)])
  {
    InitiateOnReply(flavour, s, text, r);
    ReadAfterReply(flavour, s, Completed(Text(text)), r.momsn, r.mtQueued, m, o3, o4);
  }

  /** The session reply sends the session to reading the MT message: `AT+SBDIXA`, then the read and both clears. */
  lemma ReadAfterReply(flavour: Flavour, s: Session, reply: Outcome, momsn: nat, q: nat, m: seq<Byte>, o3: Outcome, o4: Outcome)
    requires s.stage.Initiate? && |m| < 65536 && Next(flavour, s, reply) == Goto(s, ReadMt(momsn, q), 0)
    ensures Drive(flavour, s, [reply, Completed(Blob(DownloadImage(m))), o3, o4]) ==
              Trace(Session(Done(Report(ErrOf(o4), Some(momsn))), 0, s.wait),
                    [InitiateCommand,
                     Command(AtText("AT+SBDRB"), None, None, Millis(SimpleTimeout), Some(CaptureWindow)),
                     Simple("AT+SBDD1"), Simple("AT+SBDD0")],
                    (if flavour.ReadSetsMailboxPending() then [PendingSet(q)] else [])
                    + [NewMessage(|m|, m, q)])
  {
    var blob := Completed(Blob(DownloadImage(m)));
    var s1 := Session(ReadMt(momsn, q), 0, s.wait);
    var rest := [blob, o3, o4];
    DriveStep(flavour, s, reply, rest);
    MtReadDrive(flavour, s1, m, o3, o4);
    var tr := Drive(flavour, s1, rest);
    assert [reply] + rest == [reply, blob, o3, o4];
    assert [] + tr.notices == tr.notices;
    assert CommandOf(s).value == InitiateCommand;
  }

  /** `AT+SBDRB` capturing the modem's image of m: the message is announced, then SBDD1 and SBDD0. */
  lemma MtReadDrive(flavour: Flavour, s: Session, m: seq<Byte>, o3: Outcome, o4: Outcome)
    requires s.stage.ReadMt? && |m| < 65536
    ensures Drive(flavour, s, [Completed(Blob(DownloadImage(m))), o3, o4]) ==
              Trace(Session(Done(Report(ErrOf(o4), Some(s.stage.momsn))), s.messagePending, s.wait),
                    [Command(AtText("AT+SBDRB"), None, None, Millis(SimpleTimeout), Some(CaptureWindow)),
                     Simple("AT+SBDD1"), Simple("AT+SBDD0")],
                    (if flavour.ReadSetsMailboxPending() then [PendingSet(s.stage.mtQueued)] else [])
                    + [NewMessage(|m|, m, s.stage.mtQueued)])
  {
    var q := s.stage.mtQueued;
    var image := DownloadImage(m);
    DownloadRoundTrip(m, []);
    assert image + [] == image;
    var blob := Completed(Blob(image));
    var notices := (if flavour.ReadSetsMailboxPending() then [PendingSet(q)] else []) + [NewMessage(|m|, m, q)];
    var s2 := Session(ClearMt(s.stage.momsn), s.messagePending, s.wait);
    var s3 := Session(ClearMo(Finish(Some(s.stage.momsn))), s.messagePending, s.wait);
    assert Download(image, q) == NewMessage(|m|, m, q);
    assert Next(flavour, s, blob) == Transition(s2, notices);
    assert Next(flavour, s2, o3) == Transition(s3, []);
    ClearMoDrive(flavour, s3, o4, []);
    DriveStep(flavour, s2, o3, [o4]);
    DriveStep(flavour, s, blob, [o3, o4]);
    assert [o4] + [] == [o4] && [o3] + [o4] == [o3, o4] && [blob] + [o3, o4] == [blob, o3, o4];
    assert notices + ([] + []) == notices;
  }

  /** An MT read that fails is not reported: the session still clears both buffers and reports the MOMSN. */
  lemma MtReadFailureIgnored(flavour: Flavour, s: Session, momsn: nat, q: nat, f: Failure, o3: Outcome)
    requires s.stage == ReadMt(momsn, q)
    ensures Drive(flavour, s, [Failed(f), Ok(), o3]) ==
              Trace(Session(Done(Report(ErrOf(o3), Some(momsn))), s.messagePending, s.wait),
                    [CommandOf(s).value, Simple("AT+SBDD1"), Simple("AT+SBDD0")], [])
  {
    var s1 := Session(ClearMt(momsn), s.messagePending, s.wait);
    var s2 := Session(ClearMo(Finish(Some(momsn))), s.messagePending, s.wait);
    assert Next(flavour, s, Failed(f)) == Transition(s1, []);
    assert Next(flavour, s1, Ok()) == Transition(s2, []);
    ClearMoDrive(flavour, s2, o3, []);
    DriveStep(flavour, s1, Ok(), [o3]);
    DriveStep(flavour, s, Failed(f), [Ok(), o3]);
    assert [o3] + [] == [o3] && [Ok()] + [o3] == [Ok(), o3] && [Failed(f)] + [Ok(), o3] == [Failed(f), Ok(), o3];
  }

  /** An unparseable session reply: index.js finishes without a MOMSN, iridium.js throws. */
  lemma UnparsedReply(flavour: Flavour, s: Session, text: string, o2: Outcome)
    requires s.stage.Initiate? && ParseSessionReply(text).None?
    ensures flavour.GuardsSessionReply() ==>
              Drive(flavour, s, [Completed(Text(text)), o2]) ==
                Trace(Session(Done(Report(ErrOf(o2), None)), s.messagePending, s.wait),
                      [InitiateCommand, Simple("AT+SBDD0")], [])
    ensures !flavour.GuardsSessionReply() ==>
              Drive(flavour, s, [Completed(Text(text)), o2]) == Trace(Session(Crashed, s.messagePending, s.wait), [InitiateCommand], [])
  {
    var body := Completed(Text(text));
    if flavour.GuardsSessionReply() {
      var s1 := Session(ClearMo(Finish(None)), s.messagePending, s.wait);
      assert Next(flavour, s, body) == Transition(s1, []);
      ClearMoDrive(flavour, s1, o2, []);
      DriveStep(flavour, s, body, [o2]);
    } else {
      var s1 := Session(Crashed, s.messagePending, s.wait);
      assert Next(flavour, s, body) == Transition(s1, []);
      DriveEnded(flavour, s1, [o2]);
      DriveStep(flavour, s, body, [o2]);
    }
    assert [o2] + [] == [o2] && [body] + [o2] == [body, o2];
  }

  /** The reply line `+SBDIX: ...` as `AT+SBDIXA` delivers it. */
  function SbdixText(r: SessionReply): string {
    SessionReplyText(r) + "\r\n"
  }

  /** Status 0, MOMSN 5, MT status 0: `(null, 5)` after `AT+SBDD0`, without an MT read. */
  lemma DeliveredExample(flavour: Flavour, s: Session)
    requires s.stage.Initiate?
    ensures var tr := Drive(flavour, s, [Completed(Text(SbdixText(SessionReply(0, 5, 0, 0, 0, 0)))), Ok()]);
            tr.final.stage == Done(Report(None, Some(5))) && tr.commands == [InitiateCommand, Simple("AT+SBDD0")]
  {
    var r := SessionReply(0, 5, 0, 0, 0, 0);
    SessionReplyRoundTrip(r);
    DeliveredStatusReported(flavour, s, SbdixText(r), r, Ok());
  }

  /** Status 18: "radio failure" after `AT+SBDD0`. */
  lemma RadioFailureExample(flavour: Flavour, s: Session)
    requires s.stage.Initiate?
    ensures var tr := Drive(flavour, s, [Completed(Text(SbdixText(SessionReply(18, 5, 0, 0, 0, 0)))), Ok()]);
            tr.final.stage == Done(Report(Some(RadioFailure), None)) && tr.commands == [InitiateCommand, Simple("AT+SBDD0")]
  {
    var r := SessionReply(18, 5, 0, 0, 0, 0);
    SessionReplyRoundTrip(r);
    FailedStatusReported(flavour, s, SbdixText(r), r, Ok());
  }

  /** Status 2, MOMSN 7, MT status 1 with a 10-byte message: read, announced with queue 0, then `(null, 7)`. */
  lemma MtExample(flavour: Flavour, s: Session, m: seq<Byte>)
    requires s.stage.Initiate? && |m| == 10
    ensures var tr := Drive(flavour, s, [Completed(Text(SbdixText(SessionReply(2, 7, 1, 3, 10, 0)))),
                                         Completed(Blob(DownloadImage(m))), Ok(), Ok()]);
            tr.final.stage == Done(Report(None, Some(7))) && NewMessage(10, m, 0) in tr.notices
            && |tr.commands| == 4 && tr.commands[1].text == AtText("AT+SBDRB")
  {
    var r := SessionReply(2, 7, 1, 3, 10, 0);
    SessionReplyRoundTrip(r);
    MtMessageFetched(flavour, s, SbdixText(r), r, m, Ok(), Ok());
  }
}
