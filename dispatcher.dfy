/**
 * The AT command dispatcher: one command in flight, its end pattern, keep
 * pattern, continuation and timer, and the handler every classified line
 * passes through.
 *
 * Reading of the source taken here: `delete(df)` and `delete(er)` delete
 * nothing (both are `var` bindings), so a command stays armed after it
 * completes or times out, until the next `AT` replaces it. A line that
 * arrives before any command was issued finds no continuation and the
 * handler throws.
 */
module Dispatcher {
  import opened Wrappers
  import opened Patterns
  import opened Framer
  import opened Flavour
  import Classifier
  import Replies
  import Numerals

  const DefaultTimeout: int := 60000
  const SimpleTimeout: int := 2000
  const TimeoutForever: int := -1

  /** A command is a string (written with `\r` appended) or a Buffer (written verbatim). */
  datatype CommandText = AtText(text: string) | AtBinary(bytes: seq<Byte>)

  datatype Write = TextWrite(chars: string) | BinaryWrite(bytes: seq<Byte>)

  function WireForm(c: CommandText): Write {
    match c
    case AtText(t) => TextWrite(t + "\r")
    case AtBinary(b) => BinaryWrite(b)
  }

  /** The timeout argument of `AT`: absent, or a number of milliseconds. */
  datatype Timeout = Unspecified | Millis(ms: int)

  /** `if (!timeout) timeout = 60000`: absent and zero both mean the default. */
  function EffectiveTimeout(t: Timeout): (ms: int)
    ensures ms == DefaultTimeout <==> t.Unspecified? || t.ms == 0 || t.ms == DefaultTimeout
    ensures t.Millis? && t.ms != 0 ==> ms == t.ms
  {
    if t.Unspecified? || t.ms == 0 then DefaultTimeout else t.ms
  }

  /** A timer armed for the continuation k, to fire after `delay` milliseconds. */
  datatype TimerArm = TimerArm(k: nat, delay: nat)

  /** `if (timeout > 0) tf = setTimeout(...)`: a negative timeout waits forever. */
  function ArmTimer(k: nat, t: Timeout): (r: Option<TimerArm>)
    ensures r.Some? <==> EffectiveTimeout(t) > 0
    ensures r.Some? ==> r.value.k == k && r.value.delay == EffectiveTimeout(t)
    ensures t.Unspecified? ==> r == Some(TimerArm(k, 60000))
  {
    var ms := EffectiveTimeout(t);
    if ms > 0 then Some(TimerArm(k, ms)) else None
  }

  /** The command currently armed: end pattern (`er`), keep pattern (`kr`), and its continuation `k`. */
  datatype Armed = Armed(end: Option<Pattern>, keep: Option<Pattern>, k: nat)

  /** What the classifier hands the handler: a line, or the blob of a capture window. */
  datatype Input = LineIn(line: string) | BlobIn(blob: seq<Byte>)

  /** The text the patterns are tested against. */
  function InputText(i: Input): string {
    match i
    case LineIn(l) => l
    case BlobIn(b) => Classifier.BinaryString(b)
  }

  datatype Body = Text(text: string) | Blob(bytes: seq<Byte>)

  /** The body a command without end pattern receives: the input itself. */
  function BodyOf(i: Input): Body {
    match i
    case LineIn(l) => Text(l)
    case BlobIn(b) => Blob(b)
  }

  datatype Failure = ModemError(partial: string) | TimedOut

  /** What a continuation is called with: `(null, body)` or an error. */
  datatype Outcome = Completed(body: Body) | Failed(failure: Failure)

  datatype Effect =
    | Delivered(k: nat, outcome: Outcome)   // the continuation k is called
    | Routed(code: Unsolicited)             // an unsolicited handler ran
    | Waiting                               // nothing called
    | Throws                                // the handler threw a TypeError: no command, or an unparsable `+AREG`

  /** The dispatcher's state: response buffer, armed command, armed timer. */
  datatype DispatchState = DispatchState(buffer: string, armed: Option<Armed>, timer: Option<TimerArm>)

  /** A timer only ever belongs to the armed command. */
  ghost predicate Coherent(st: DispatchState) {
    st.timer.Some? ==> st.armed.Some? && st.timer.value.k == st.armed.value.k
  }

  /** `AT(command, er, kr, df, timeout)` as seen by the dispatcher state: the previous timer is cancelled, the buffer is kept. */
  function Issue(st: DispatchState, end: Option<Pattern>, keep: Option<Pattern>, timeout: Timeout, k: nat): (r: DispatchState)
    ensures Coherent(r) && r.buffer == st.buffer && r.armed == Some(Armed(end, keep, k))
    ensures r.timer.Some? <==> EffectiveTimeout(timeout) > 0
  {
    DispatchState(st.buffer, Some(Armed(end, keep, k)), ArmTimer(k, timeout))
  }

  /** A line routed to `areg` that its own match rejects: `m` is null and reading `m[1]` throws. */
  predicate MalformedRegistration(line: string) {
    Route(line) == Some(RegistrationResult) && Replies.ParseRegistration(line).None?
  }

  /** The handler every line (or blob) goes through. */
  function HandleInput(st: DispatchState, input: Input): (r: (DispatchState, Effect))
    ensures r.0.armed == st.armed
    ensures Coherent(st) ==> Coherent(r.0)
    ensures r.1.Throws? <==> st.armed.None? || (st.armed.value.end.Some? && MalformedRegistration(InputText(input)))
    ensures r.1.Delivered? ==> st.armed.Some? && r.1.k == st.armed.value.k && r.0.timer.None?
    // no end pattern: everything goes straight to the continuation, unsolicited codes included
    ensures st.armed.Some? && st.armed.value.end.None? ==> r.1 == Delivered(st.armed.value.k, Completed(BodyOf(input)))
    // otherwise an unsolicited code is handled and the line goes no further
    ensures st.armed.Some? && st.armed.value.end.Some? && Route(InputText(input)).Some? ==>
              r.0 == st && (r.1.Routed? || r.1.Throws?)
    ensures st.armed.Some? && st.armed.value.end.Some? && Route(InputText(input)).Some? && !MalformedRegistration(InputText(input)) ==>
              r.1 == Routed(Route(InputText(input)).value)
    // a line carrying ERROR completes with what was buffered before it, whatever the keep and end patterns
    ensures st.armed.Some? && st.armed.value.end.Some? && Route(InputText(input)).None? && Matches(ErrorText, InputText(input)) ==>
              r.1 == Delivered(st.armed.value.k, Failed(ModemError(st.buffer))) && r.0.buffer == ""
  {
    match st.armed
    case None => (st, Throws)
    case Some(a) =>
      var line := InputText(input);
      if a.end.None? then
        (st.(timer := None), Delivered(a.k, Completed(BodyOf(input))))
      else
        match Route(line)
        case Some(code) => if MalformedRegistration(line) then (st, Throws) else (st, Routed(code))
        case None =>
          if Matches(ErrorText, line) then
            (st.(buffer := "", timer := None), Delivered(a.k, Failed(ModemError(st.buffer))))
          else
            var kept := if a.keep.None? || Matches(a.keep.value, line) then st.buffer + (line + "\n") else st.buffer;
            if Matches(a.end.value, line) then
              (st.(buffer := "", timer := None), Delivered(a.k, Completed(Text(kept))))
            else
              (st.(buffer := kept), Waiting)
  }

  /** The timer armed for continuation k fires. A cancelled timer never fires, so its event changes nothing. */
  function FireTimer(flavour: Flavour, st: DispatchState, k: nat): (r: (DispatchState, Effect))
    ensures r.0.armed == st.armed && r.0.buffer == st.buffer
    ensures Coherent(st) ==> Coherent(r.0)
    ensures r.1.Delivered? <==> flavour.TimeoutDelivers() && st.timer.Some? && st.timer.value.k == k
    ensures r.1.Delivered? ==> r.1 == Delivered(k, Failed(TimedOut))
  {
    if st.timer.Some? && st.timer.value.k == k then
      (st.(timer := None), if flavour.TimeoutDelivers() then Delivered(k, Failed(TimedOut)) else Waiting)
    else
      (st, Waiting)
  }

  datatype Event = Arrived(input: Input) | TimerFired(k: nat)

  function Step(flavour: Flavour, st: DispatchState, ev: Event): (DispatchState, Effect) {
    match ev
    case Arrived(i) => HandleInput(st, i)
    case TimerFired(k) => FireTimer(flavour, st, k)
  }

  /** Events processed in arrival order, with the effects they had. */
  function Run(flavour: Flavour, st: DispatchState, evs: seq<Event>): (DispatchState, seq<Effect>)
    decreases |evs|
  {
    if evs == [] then (st, [])
    else
      var first := Step(flavour, st, evs[0]);
      var rest := Run(flavour, first.0, evs[1..]);
      (rest.0, [first.1] + rest.1)
  }

  lemma {:induction false} RunAppend(flavour: Flavour, st: DispatchState, a: seq<Event>, b: seq<Event>)
    ensures Run(flavour, st, a + b)
      == (Run(flavour, Run(flavour, st, a).0, b).0, Run(flavour, st, a).1 + Run(flavour, Run(flavour, st, a).0, b).1)
    decreases |a|
  {
    if a == [] {
      assert a + b == b;
      assert Run(flavour, st, a) == (st, []);
      assert [] + Run(flavour, st, b).1 == Run(flavour, st, b).1;
    } else {
      assert (a + b)[0] == a[0];
      assert (a + b)[1..] == a[1..] + b;
      var first := Step(flavour, st, a[0]);
      RunAppend(flavour, first.0, a[1..], b);
      var mid := Run(flavour, first.0, a[1..]);
      var last := Run(flavour, mid.0, b);
      assert [first.1] + (mid.1 + last.1) == ([first.1] + mid.1) + last.1;
    }
  }

  lemma {:induction false} RunLength(flavour: Flavour, st: DispatchState, evs: seq<Event>)
    ensures |Run(flavour, st, evs).1| == |evs|
    decreases |evs|
  {
    if evs != [] {
      RunLength(flavour, Step(flavour, st, evs[0]).0, evs[1..]);
    }
  }

  lemma {:induction false} RunKeepsArmed(flavour: Flavour, st: DispatchState, evs: seq<Event>)
    requires Coherent(st)
    ensures Run(flavour, st, evs).0.armed == st.armed && Coherent(Run(flavour, st, evs).0)
    ensures forall j :: 0 <= j < |Run(flavour, st, evs).1| && Run(flavour, st, evs).1[j].Delivered? ==>
              st.armed.Some? && Run(flavour, st, evs).1[j].k == st.armed.value.k
    decreases |evs|
  {
    if evs != [] {
      RunKeepsArmed(flavour, Step(flavour, st, evs[0]).0, evs[1..]);
    }
  }

  /**
   * Supersession: once command k replaces an earlier one, no line and no
   * timer ever calls the earlier continuation again.
   */
  lemma SupersededNeverCalled(flavour: Flavour, st: DispatchState, end: Option<Pattern>, keep: Option<Pattern>,
                              timeout: Timeout, k: nat, earlier: nat, evs: seq<Event>)
    requires earlier != k
    ensures var effects := Run(flavour, Issue(st, end, keep, timeout, k), evs).1;
            forall j :: 0 <= j < |effects| && effects[j].Delivered? ==> effects[j].k != earlier
  {
    RunKeepsArmed(flavour, Issue(st, end, keep, timeout, k), evs);
  }

  /** Lines that are neither unsolicited codes nor errors. */
  ghost predicate Ordinary(ls: seq<string>) {
    forall i :: 0 <= i < |ls| ==> Route(ls[i]).None? && !Matches(ErrorText, ls[i])
  }

  /** The lines a keep pattern lets into the buffer, in order. */
  function Kept(keep: Option<Pattern>, ls: seq<string>): (r: seq<string>)
    ensures |r| <= |ls|
  {
    if ls == [] then []
    else (if keep.None? || Matches(keep.value, ls[0]) then [ls[0]] else []) + Kept(keep, ls[1..])
  }

  /**
   * With a keep pattern the buffer holds exactly the lines that match it, in
   * arrival order (so `AT+SBDIXA`'s body holds only `+SBDIX` lines); with none
   * it holds every line.
   */
  lemma {:induction false} KeptLines(keep: Option<Pattern>, ls: seq<string>)
    ensures keep.None? ==> Kept(keep, ls) == ls
    ensures keep.Some? ==> forall l :: l in Kept(keep, ls) <==> l in ls && Matches(keep.value, l)
  {
    if ls != [] {
      KeptLines(keep, ls[1..]);
      assert ls == [ls[0]] + ls[1..];
    }
  }

  function Lines(ls: seq<string>): seq<Event> {
    seq(|ls|, i requires 0 <= i < |ls| => Arrived(LineIn(ls[i])))
  }

  lemma OrdinaryLine(st: DispatchState, a: Armed, line: string)
    requires st.armed == Some(a) && a.end.Some? && Route(line).None? && !Matches(ErrorText, line)
    ensures var r := HandleInput(st, LineIn(line));
            var body := st.buffer + Classifier.Joined(Kept(a.keep, [line]));
            && r.0.armed == st.armed
            && r.0.buffer == (if Matches(a.end.value, line) then "" else body)
            && r.1 == (if Matches(a.end.value, line) then Delivered(a.k, Completed(Text(body))) else Waiting)
  {
    assert [line][1..] == [];
    var kept := Kept(a.keep, [line]);
    assert kept == (if a.keep.None? || Matches(a.keep.value, line) then [line] else []) + [];
    assert kept != [] ==> kept[1..] == [];
    assert Classifier.Joined([line]) == line + "\n" by {
      assert Classifier.Joined([line]) == line + "\n" + Classifier.Joined([]);
    }
    assert Classifier.Joined([]) == "";
    assert InputText(LineIn(line)) == line;
    var keptText := if a.keep.None? || Matches(a.keep.value, line) then st.buffer + (line + "\n") else st.buffer;
    assert keptText == st.buffer + Classifier.Joined(kept);
    var r := HandleInput(st, LineIn(line));
    if Matches(a.end.value, line) {
      assert r == (st.(buffer := "", timer := None), Delivered(a.k, Completed(Text(keptText))));
    } else {
      assert r == (st.(buffer := keptText), Waiting);
    }
  }

  /**
   * Accumulation: a response whose only end-matching line is its last
   * completes with the kept lines, each followed by `\n`, in arrival order;
   * the buffer is empty afterwards.
   */
  lemma {:induction false} ResponseBody(flavour: Flavour, st: DispatchState, a: Armed, ls: seq<string>)
    requires st.armed == Some(a) && a.end.Some? && |ls| > 0 && Ordinary(ls)
    requires forall i :: 0 <= i < |ls| - 1 ==> !Matches(a.end.value, ls[i])
    requires Matches(a.end.value, ls[|ls| - 1])
    ensures |Run(flavour, st, Lines(ls)).1| == |ls|
    ensures Run(flavour, st, Lines(ls)).1[|ls| - 1] == Delivered(a.k, Completed(Text(st.buffer + Classifier.Joined(Kept(a.keep, ls)))))
    ensures forall j :: 0 <= j < |ls| - 1 ==> Run(flavour, st, Lines(ls)).1[j] == Waiting
    ensures Run(flavour, st, Lines(ls)).0.buffer == ""
    decreases |ls|
  {
    RunLength(flavour, st, Lines(ls));
    var line := ls[0];
    var kept0 := Kept(a.keep, [line]);
    KeptCons(a.keep, ls);
    Classifier.JoinedAppend(kept0, Kept(a.keep, ls[1..]));
    OrdinaryLine(st, a, line);
    var first := HandleInput(st, LineIn(line));
    RunLines(flavour, st, ls);
    var rest := Run(flavour, first.0, Lines(ls[1..]));
    if |ls| == 1 {
      assert ls[1..] == [] && Lines(ls[1..]) == [];
      assert Kept(a.keep, ls[1..]) == [];
    } else {
      assert first.0.buffer == st.buffer + Classifier.Joined(kept0) && first.0.armed == Some(a);
      ResponseTail(a, ls);
      ResponseBody(flavour, first.0, a, ls[1..]);
      var j0, j1 := Classifier.Joined(kept0), Classifier.Joined(Kept(a.keep, ls[1..]));
      Classifier.AppendAssoc(st.buffer, j0, j1);
      ConsEffects(first.1, rest.1);
    }
  }

  /** What `ResponseBody` demands of its lines holds of all but the first. */
  lemma ResponseTail(a: Armed, ls: seq<string>)
    requires a.end.Some? && |ls| > 1 && Ordinary(ls)
    requires forall i :: 0 <= i < |ls| - 1 ==> !Matches(a.end.value, ls[i])
    requires Matches(a.end.value, ls[|ls| - 1])
    ensures Ordinary(ls[1..]) && Matches(a.end.value, ls[1..][|ls[1..]| - 1])
    ensures forall i :: 0 <= i < |ls[1..]| - 1 ==> !Matches(a.end.value, ls[1..][i])
  {
    forall i | 0 <= i < |ls[1..]| - 1 ensures !Matches(a.end.value, ls[1..][i]) {
      assert ls[1..][i] == ls[i + 1];
    }
  }

  /** The first line of a response is handled first, the rest after it. */
  lemma RunLines(flavour: Flavour, st: DispatchState, ls: seq<string>)
    requires |ls| > 0
    ensures var first := HandleInput(st, LineIn(ls[0]));
            var rest := Run(flavour, first.0, Lines(ls[1..]));
            Run(flavour, st, Lines(ls)) == (rest.0, [first.1] + rest.1)
  {
    assert Lines(ls)[0] == Arrived(LineIn(ls[0]));
    assert Lines(ls)[1..] == Lines(ls[1..]);
  }

  lemma KeptCons(keep: Option<Pattern>, ls: seq<string>)
    requires |ls| > 0
    ensures Kept(keep, ls) == Kept(keep, [ls[0]]) + Kept(keep, ls[1..])
  {
    assert [ls[0]][1..] == [];
  }

  /** Putting a `Waiting` in front of effects that wait until their last. */
  lemma ConsEffects(e: Effect, rest: seq<Effect>)
    requires e == Waiting && |rest| > 0
    requires forall j :: 0 <= j < |rest| - 1 ==> rest[j] == Waiting
    ensures ([e] + rest)[|rest|] == rest[|rest| - 1]
    ensures forall j :: 0 <= j < |rest| ==> ([e] + rest)[j] == Waiting
  {
    forall j | 0 <= j < |rest| ensures ([e] + rest)[j] == Waiting {
      if j > 0 {
        assert ([e] + rest)[j] == rest[j - 1];
      }
    }
  }

  /**
   * A registration result while a command waits for its end line: the
   * modem's own `+AREG:<event>,<error>` line goes to `areg` and leaves the
   * state alone; a bare `+AREG` line reaches `areg` too, which throws.
   */
  lemma RegistrationHandled(st: DispatchState, event: nat, error: nat, rest: string)
    requires st.armed.Some? && st.armed.value.end.Some?
    requires rest == [] || !Numerals.IsDigit(rest[0])
    ensures HandleInput(st, LineIn(Replies.RegistrationText(event, error) + rest)) == (st, Routed(RegistrationResult))
    ensures HandleInput(st, LineIn("+AREG")) == (st, Throws)
  {
    var line := Replies.RegistrationText(event, error) + rest;
    Replies.RegistrationRoundTrip(event, error, rest);
    assert line[..5] == "+AREG";
    assert Route(line) == Some(RegistrationResult);
    Replies.RegistrationNeedsCodes("");
    assert "+AREG" + "" == "+AREG";
    assert Route("+AREG") == Some(RegistrationResult);
  }

  /**
   * Interception: an unsolicited ring alert in the middle of a response
   * runs its handler and leaves the command's buffer, and so its eventual
   * body, exactly as if the line had never arrived.
   */
  lemma RingAlertIntercepted(flavour: Flavour, st: DispatchState, a: Armed, before: seq<Event>, after: seq<Event>, ring: string)
    requires Coherent(st) && st.armed == Some(a) && a.end.Some? && "SBDRING" <= ring
    ensures Run(flavour, st, before + [Arrived(LineIn(ring))] + after)
      == (Run(flavour, st, before + after).0,
          Run(flavour, st, before).1 + [Routed(RingAlert)] + Run(flavour, Run(flavour, st, before).0, after).1)
  {
    var x := [Arrived(LineIn(ring))];
    var pre := Run(flavour, st, before);
    var mid := pre.0;
    RunKeepsArmed(flavour, st, before);
    assert HandleInput(mid, LineIn(ring)) == (mid, Routed(RingAlert));
    assert x[0] == Arrived(LineIn(ring)) && x[1..] == [];
    assert Step(flavour, mid, x[0]) == (mid, Routed(RingAlert));
    assert Run(flavour, mid, []) == (mid, []);
    var routed := Run(flavour, mid, x);
    assert [Routed(RingAlert)] + [] == [Routed(RingAlert)];
    assert routed == (mid, [Routed(RingAlert)]);
    RunAppend(flavour, st, before, x);
    var withRing := Run(flavour, st, before + x);
    assert withRing == (mid, pre.1 + [Routed(RingAlert)]);
    RunAppend(flavour, st, before + x, after);
    RunAppend(flavour, st, before, after);
    var post := Run(flavour, mid, after);
    assert Run(flavour, st, before + x + after) == (post.0, withRing.1 + post.1);
  }

  /**
   * As written, completion does not disarm: a second end-matching line
   * calls the same continuation again, with a buffer holding only that line.
   */
  lemma CompletedCommandStaysArmed(flavour: Flavour, k: nat)
    ensures var st := Issue(DispatchState("", None, None), Some(OkLine), Some(All), Unspecified, k);
            Run(flavour, st, Lines(["OK\r", "OK\r"])).1
              == [Delivered(k, Completed(Text("OK\r\n"))), Delivered(k, Completed(Text("OK\r\n")))]
  {
    var st := Issue(DispatchState("", None, None), Some(OkLine), Some(All), Unspecified, k);
    var ok := Arrived(LineIn("OK\r"));
    OkLineIsPlain();
    assert InputText(LineIn("OK\r")) == "OK\r" && Route("OK\r").None?;
    assert "" + ("OK\r" + "\n") == "OK\r\n";
    assert Lines(["OK\r", "OK\r"]) == [ok, ok];
    var first := Step(flavour, st, ok);
    assert first == (st.(buffer := "", timer := None), Delivered(k, Completed(Text("OK\r\n"))));
    var second := Step(flavour, first.0, ok);
    assert second == (first.0, Delivered(k, Completed(Text("OK\r\n"))));
    assert [ok, ok][1..] == [ok] && [ok][1..] == [];
    assert Run(flavour, second.0, []) == (second.0, []);
    assert Run(flavour, first.0, [ok]) == (second.0, [second.1] + []);
  }

  /**
   * Timeouts: in iridium.js the continuation receives "TIMEOUT" and, the
   * command still being armed, a late reply calls it a second time; in
   * index.js the timer changes nothing and the command goes on waiting.
   */
  lemma TimeoutThenLateReply(flavour: Flavour, k: nat)
    ensures var st := Issue(DispatchState("", None, None), Some(OkLine), Some(All), Millis(SimpleTimeout), k);
            Run(flavour, st, [TimerFired(k), Arrived(LineIn("OK\r"))]).1
              == (if flavour.TimeoutDelivers() then [Delivered(k, Failed(TimedOut))] else [Waiting])
                 + [Delivered(k, Completed(Text("OK\r\n")))]
  {
    var st := Issue(DispatchState("", None, None), Some(OkLine), Some(All), Millis(SimpleTimeout), k);
    var ok := Arrived(LineIn("OK\r"));
    OkLineIsPlain();
    assert InputText(LineIn("OK\r")) == "OK\r" && Route("OK\r").None?;
    assert "" + ("OK\r" + "\n") == "OK\r\n";
    var first := Step(flavour, st, TimerFired(k));
    assert first.0 == st.(timer := None);
    var second := Step(flavour, first.0, ok);
    assert second.1 == Delivered(k, Completed(Text("OK\r\n")));
    assert [TimerFired(k), ok][1..] == [ok] && [ok][1..] == [];
    assert Run(flavour, second.0, []) == (second.0, []);
    assert Run(flavour, first.0, [ok]) == (second.0, [second.1] + []);
  }

  /** `ATS`: index.js passes `(err, body)` on; iridium.js only the error. */
  datatype Reply = Reply(err: Option<Failure>, body: Option<Body>)

  function AtsReply(flavour: Flavour, o: Outcome): (r: Reply)
    ensures r.err.Some? <==> o.Failed?
    ensures o.Failed? ==> r.err == Some(o.failure)
    ensures !flavour.AtsForwardsBody() ==> r.body.None?
    ensures flavour.AtsForwardsBody() && o.Completed? ==> r.body == Some(o.body)
  {
    if !flavour.AtsForwardsBody() then
      Reply(if o.Failed? then Some(o.failure) else None, None)
    else
      match o
      case Completed(b) => Reply(None, Some(b))
      case Failed(f) => Reply(Some(f), if f.ModemError? then Some(Text(f.partial)) else None)
  }

  /** The engine: the dispatcher state as fields, plus the log of what was written to the port. */
  class AtEngine {
    const flavour: Flavour
    var buffer: string
    var armed: Option<Armed>
    var timer: Option<TimerArm>
    var issued: nat           // continuations handed out so far
    var written: seq<Write>   // everything written to the serial port

    function State(): DispatchState
      reads this
    {
      DispatchState(buffer, armed, timer)
    }

    ghost predicate Valid()
      reads this
    {
      Coherent(State()) && (armed.Some? ==> armed.value.k < issued)
    }

    constructor (flavour: Flavour)
      ensures Valid() && this.flavour == flavour
      ensures State() == DispatchState("", None, None) && issued == 0 && written == []
    {
      this.flavour := flavour;
      buffer := "";
      armed := None;
      timer := None;
      issued := 0;
      written := [];
    }

    /**
     * `AT`: arms the new command in place of the old one (cancelling its
     * timer), arms a timer unless the timeout is negative, and writes the
     * command. Returns the new command's continuation.
     */
    method At(command: CommandText, end: Option<Pattern>, keep: Option<Pattern>, timeout: Timeout) returns (k: nat)
      requires Valid()
      modifies this
      ensures Valid()
      ensures k == old(issued) && issued == k + 1
      ensures State() == Issue(old(State()), end, keep, timeout, k)
      ensures written == old(written) + [WireForm(command)]
    {
      k := issued;
      armed := Some(Armed(end, keep, k));
      timer := None;
      var ms := if timeout.Unspecified? || timeout.ms == 0 then DefaultTimeout else timeout.ms;
      if ms > 0 {
        timer := Some(TimerArm(k, ms));
      }
      match command {
        case AtText(t) => written := written + [TextWrite(t + "\r")];
        case AtBinary(b) => written := written + [BinaryWrite(b)];
      }
      issued := issued + 1;
    }

    /** The port's `data` handler. */
    method OnInput(input: Input) returns (e: Effect)
      requires Valid()
      modifies this
      ensures Valid() && issued == old(issued) && written == old(written)
      ensures (State(), e) == HandleInput(old(State()), input)
    {
      if armed.None? {
        return Throws;
      }
      var a := armed.value;
      var line := InputText(input);
      if a.end.None? {
        timer := None;
        return Delivered(a.k, Completed(BodyOf(input)));
      }
      var code := Route(line);
      if code.Some? {
        if MalformedRegistration(line) {
          return Throws;
        }
        return Routed(code.value);
      }
      if Matches(ErrorText, line) {
        e := Delivered(a.k, Failed(ModemError(buffer)));
        buffer := "";
        timer := None;
        return;
      }
      if a.keep.None? || Matches(a.keep.value, line) {
        buffer := buffer + (line + "\n");
      }
      if Matches(a.end.value, line) {
        e := Delivered(a.k, Completed(Text(buffer)));
        buffer := "";
        timer := None;
      } else {
        e := Waiting;
      }
    }

    /** A timer event for continuation k. */
    method OnTimer(k: nat) returns (e: Effect)
      requires Valid()
      modifies this
      ensures Valid() && issued == old(issued) && written == old(written)
      ensures (State(), e) == FireTimer(flavour, old(State()), k)
    {
      e := Waiting;
      if timer.Some? && timer.value.k == k {
        timer := None;
        if flavour.TimeoutDelivers() {
          e := Delivered(k, Failed(TimedOut));
        }
      }
    }
  }
}
