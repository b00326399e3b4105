/**
 * The structured replies the engine picks apart with a regular expression
 * of the form `TAG(\d+)S1(\d+)S2...(\d+)`: the session result
 * `+SBDIX: a, b, c, d, e, f` and the modem clock `CCLK:yy/mm/dd,hh:mm:ss`.
 * `match` finds the leftmost position where the whole pattern matches;
 * each `(\d+)` is followed by a separator that begins with a non-digit, so
 * the digit runs are the longest ones.
 */
module Replies {
  import opened Wrappers
  import opened Numerals
  import Patterns

  /** Separators between fields: non-empty, starting with a non-digit. */
  predicate GoodSeparator(sep: string) {
    |sep| > 0 && !IsDigit(sep[0])
  }

  predicate GoodSeparators(seps: seq<string>) {
    forall sep :: sep in seps ==> GoodSeparator(sep)
  }

  /** `(\d+)S1(\d+)...` anchored at the start of s: the fields, or None. */
  function FieldsAt(s: string, seps: seq<string>): (r: Option<seq<nat>>)
    ensures r.Some? ==> |r.value| == |seps| + 1
    decreases |s|
  {
    match ParseNat(s)
    case None => None
    case Some((n, rest)) =>
      if seps == [] then Some([n])
      else if seps[0] <= rest then
        match FieldsAt(rest[|seps[0]|..], seps[1..])
        case None => None
        case Some(more) => Some([n] + more)
      else None
  }

  /** `text.match(/TAG(\d+)S1.../)`: the fields of the leftmost match. */
  function Search(text: string, tag: string, seps: seq<string>): (r: Option<seq<nat>>)
    ensures r.Some? ==> |r.value| == |seps| + 1
    decreases |text|
  {
    if tag <= text && FieldsAt(text[|tag|..], seps).Some? then FieldsAt(text[|tag|..], seps)
    else if text == [] then None
    else Search(text[1..], tag, seps)
  }

  /** The text a modem would print for these fields. */
  function Render(fields: seq<nat>, seps: seq<string>): string
    requires |fields| == |seps| + 1
    decreases |seps|
  {
    if seps == [] then Decimal(fields[0])
    else Decimal(fields[0]) + seps[0] + Render(fields[1..], seps[1..])
  }

  lemma {:induction false} FieldsRoundTrip(fields: seq<nat>, seps: seq<string>, rest: string)
    requires |fields| == |seps| + 1 && GoodSeparators(seps)
    requires rest == [] || !IsDigit(rest[0])
    ensures FieldsAt(Render(fields, seps) + rest, seps) == Some(fields)
    decreases |seps|
  {
    if seps == [] {
      ParseDecimal(fields[0], rest);
      assert [fields[0]] == fields;
    } else {
      assert GoodSeparators(seps[1..]) by {
        forall sep | sep in seps[1..] ensures GoodSeparator(sep) {
          assert sep in seps;
        }
      }
      FieldsRoundTrip(fields[1..], seps[1..], rest);
      FieldsCons(fields, seps, rest);
    }
  }

  /** The inductive step of `FieldsRoundTrip`: one more field in front. */
  lemma FieldsCons(fields: seq<nat>, seps: seq<string>, rest: string)
    requires |fields| == |seps| + 1 && seps != [] && GoodSeparator(seps[0])
    requires FieldsAt(Render(fields[1..], seps[1..]) + rest, seps[1..]) == Some(fields[1..])
    ensures FieldsAt(Render(fields, seps) + rest, seps) == Some(fields)
  {
    var r := Render(fields[1..], seps[1..]) + rest;
    var head := Decimal(fields[0]) + seps[0];
    assert Render(fields, seps) == head + Render(fields[1..], seps[1..]);
    assert Render(fields, seps) + rest == head + r;
    HeadRest(seps);
    FieldsAtStep(fields[0], seps[0], r, seps[1..]);
    HeadRest(fields);
  }

  lemma HeadRest<T>(xs: seq<T>)
    requires xs != []
    ensures [xs[0]] + xs[1..] == xs
  {
  }

  lemma FieldsAtStep(n: nat, sep: string, r: string, seps: seq<string>)
    requires GoodSeparator(sep)
    ensures FieldsAt(Decimal(n) + sep + r, [sep] + seps)
              == (match FieldsAt(r, seps) case None => None case Some(more) => Some([n] + more))
  {
    var s := Decimal(n) + sep + r;
    assert s == Decimal(n) + (sep + r);
    ParseDecimal(n, sep + r);
    assert ([sep] + seps)[0] == sep && ([sep] + seps)[1..] == seps;
    assert (sep + r)[|sep|..] == r;
  }

  /** Round trip: a reply that starts with the tag and the rendered fields gives those fields back. */
  lemma SearchRoundTrip(tag: string, fields: seq<nat>, seps: seq<string>, rest: string)
    requires |fields| == |seps| + 1 && GoodSeparators(seps)
    requires rest == [] || !IsDigit(rest[0])
    ensures Search(tag + Render(fields, seps) + rest, tag, seps) == Some(fields)
  {
    var text := tag + (Render(fields, seps) + rest);
    assert text == tag + Render(fields, seps) + rest;
    assert text[..|tag|] == tag && text[|tag|..] == Render(fields, seps) + rest;
    FieldsRoundTrip(fields, seps, rest);
    assert tag <= text && FieldsAt(text[|tag|..], seps) == Some(fields);
  }

  /** A reply that nowhere contains the tag has no match. */
  lemma {:induction false} SearchNeedsTag(text: string, tag: string, seps: seq<string>)
    ensures !Patterns.Contains(text, tag) ==> Search(text, tag, seps) == None
    decreases |text|
  {
    if text != [] {
      SearchNeedsTag(text[1..], tag, seps);
    }
  }

  // ---- +SBDIX: the result of a session ----

  const SbdixTag: string := "+SBDIX: "
  const SbdixSeps: seq<string> := [", ", ", ", ", ", ", ", ", "]

  /** MO status, MOMSN, MT status, MTMSN, MT length, MT queued. */
  datatype SessionReply = SessionReply(moStatus: nat, momsn: nat, mtStatus: nat, mtmsn: nat, mtLength: nat, mtQueued: nat)

/** The six-field pattern read as a session result, for any tag and separators. */
  function SessionMatch(text: string, tag: string, seps: seq<string>): (r: Option<SessionReply>)
    requires |seps| == 5
  {
    match Search(text, tag, seps)
      case None => None
      case Some(f) => Some(SessionReply(f[0], f[1], f[2], f[3], f[4], f[5]))
  }

  /** `text.match(/\+SBDIX: (\d+), (\d+), (\d+), (\d+), (\d+), (\d+)/)` */
  function ParseSessionReply(text: string): (r: Option<SessionReply>)
  {
    SessionMatch(text, SbdixTag, SbdixSeps)
  }

  /** A text without `+SBDIX: ` anywhere is no session result. */
  lemma SessionReplyNeedsTag(text: string)
    ensures !Patterns.Contains(text, SbdixTag) ==> ParseSessionReply(text).None?
  {
    SearchNeedsTag(text, SbdixTag, SbdixSeps);
  }

  function SessionReplyText(r: SessionReply): string {
    SbdixTag + Render([r.moStatus, r.momsn, r.mtStatus, r.mtmsn, r.mtLength, r.mtQueued], SbdixSeps)
  }

  /** Every session result the modem prints, followed by a line end, parses back to itself. */
  lemma SessionReplyRoundTrip(r: SessionReply)
    ensures ParseSessionReply(SessionReplyText(r) + "\r\n") == Some(r)
  {
    var f := [r.moStatus, r.momsn, r.mtStatus, r.mtmsn, r.mtLength, r.mtQueued];
    SearchRoundTrip(SbdixTag, f, SbdixSeps, "\r\n");
    SessionMatchOf(SessionReplyText(r) + "\r\n", SbdixTag, SbdixSeps, f);
  }

  lemma SessionMatchOf(text: string, tag: string, seps: seq<string>, f: seq<nat>)
    requires |seps| == 5 && Search(text, tag, seps) == Some(f)
    ensures |f| == 6
    ensures SessionMatch(text, tag, seps) == Some(SessionReply(f[0], f[1], f[2], f[3], f[4], f[5]))
  {
  }

  // ---- +CCLK: the modem clock ----

  const ClockTag: string := "CCLK:"
  const ClockSeps: seq<string> := ["/", "/", ",", ":", ":"]

  /** The fields handed to `Date.UTC`: full year, zero-based month, day, hours, minutes, seconds. */
  datatype ClockFields = ClockFields(year: int, monthIndex: int, day: nat, hour: nat, minute: nat, second: nat)

  /** The outcome of `getSystemTime`: the clock fields, `"UNKNOWN_TIME"`, or the command's error. */
  datatype SystemTime<E> = Time(fields: ClockFields) | UnknownTime | TimeError(error: E)

/** The six-field pattern read as a clock, for any tag and separators. */
  function ClockMatch(text: string, tag: string, seps: seq<string>): (r: Option<ClockFields>)
    requires |seps| == 5
    ensures r.Some? ==> r.value.year >= 2000 && r.value.monthIndex >= -1
  {
    match Search(text, tag, seps)
      case None => None
      case Some(f) => Some(ClockFields(2000 + f[0], f[1] as int - 1, f[2], f[3], f[4], f[5]))
  }

  /** `result.match(/CCLK:(\d+)\/(\d+)\/(\d+),(\d+):(\d+):(\d+)/)` and the arguments given to `Date.UTC`. */
  function ParseClock(text: string): (r: Option<ClockFields>)
    ensures r.Some? ==> r.value.year >= 2000 && r.value.monthIndex >= -1
  {
    ClockMatch(text, ClockTag, ClockSeps)
  }

  /** A text without `CCLK:` anywhere is no clock reading. */
  lemma ClockNeedsTag(text: string)
    ensures !Patterns.Contains(text, ClockTag) ==> ParseClock(text).None?
  {
    SearchNeedsTag(text, ClockTag, ClockSeps);
  }

  /** `getSystemTime`: an error is passed through, a reply without a clock gives `UNKNOWN_TIME`. */
  function SystemTimeOf<E>(reply: Result<string, E>): (r: SystemTime<E>)
    ensures reply.Failure? <==> r.TimeError?
    ensures reply.Failure? ==> r.error == reply.error
    ensures reply.Success? ==> (r.UnknownTime? <==> ParseClock(reply.value).None?)
  {
    match reply
    case Failure(e) => TimeError(e)
    case Success(text) =>
      match ParseClock(text)
      case None => UnknownTime
      case Some(c) => Time(c)
  }

  lemma ClockSeparators()
    ensures GoodSeparators(ClockSeps)
  {
    forall sep | sep in ClockSeps ensures GoodSeparator(sep) {
      assert sep == "/" || sep == "," || sep == ":";
    }
  }

  /** A leading character that cannot start the tag is skipped. */
  lemma SearchSkip(c: char, line: string, tag: string, seps: seq<string>)
    requires tag != [] && tag[0] != c
    ensures Search([c] + line, tag, seps) == Search(line, tag, seps)
  {
    assert ([c] + line)[1..] == line;
  }

  lemma ClockMatchOf(text: string, tag: string, seps: seq<string>, f: seq<nat>)
    requires |seps| == 5 && Search(text, tag, seps) == Some(f)
    ensures |f| == 6
    ensures ClockMatch(text, tag, seps) == Some(ClockFields(2000 + f[0], f[1] as int - 1, f[2], f[3], f[4], f[5]))
  {
  }

  lemma ClockOf(text: string, f: seq<nat>)
    requires Search(text, ClockTag, ClockSeps) == Some(f)
    ensures |f| == 6
    ensures ParseClock(text) == Some(ClockFields(2000 + f[0], f[1] as int - 1, f[2], f[3], f[4], f[5]))
  {
    ClockMatchOf(text, ClockTag, ClockSeps, f);
  }

  /** The clock line the modem prints: `CCLK:yy/mm/dd,hh:mm:ss` and a line end. */
  function ClockLine(yy: nat, mm: nat, dd: nat, h: nat, m: nat, s: nat): string {
    ClockTag + Render([yy, mm, dd, h, m, s], ClockSeps) + "\r\n"
  }

  /** `+CCLK:yy/mm/dd,hh:mm:ss` yields year 2000+yy, month index mm-1, then the other fields unchanged. */
  lemma ClockReading(f: seq<nat>)
    requires |f| == 6
    ensures ParseClock("+" + ClockTag + Render(f, ClockSeps) + "\r\n")
              == Some(ClockFields(2000 + f[0], f[1] as int - 1, f[2], f[3], f[4], f[5]))
  {
    var line := ClockTag + Render(f, ClockSeps) + "\r\n";
    var text := "+" + ClockTag + Render(f, ClockSeps) + "\r\n";
    assert text == "+" + line;
    ClockSeparators();
    SearchRoundTrip(ClockTag, f, ClockSeps, "\r\n");
    SearchSkip('+', line, ClockTag, ClockSeps);
    ClockOf(text, f);
  }

  // ---- the registration result ----

  const AregTag: string := "+AREG:"
  const AregSeps: seq<string> := [","]

  /** `line.match(/^\+AREG:(\d+),(\d+)/)` in `areg`: the event and the error code, or None. */
  function ParseRegistration(line: string): (r: Option<(nat, nat)>)
    ensures r.Some? ==> AregTag <= line
  {
    if AregTag <= line then
      match FieldsAt(line[|AregTag|..], AregSeps)
      case None => None
      case Some(f) => Some((f[0], f[1]))
    else None
  }

  /** The registration result as the modem prints it. */
  function RegistrationText(event: nat, error: nat): string {
    AregTag + Render([event, error], AregSeps)
  }

  /** A printed registration result, followed by anything but a digit, parses back to its two codes. */
  lemma RegistrationRoundTrip(event: nat, error: nat, rest: string)
    requires rest == [] || !IsDigit(rest[0])
    ensures ParseRegistration(RegistrationText(event, error) + rest) == Some((event, error))
  {
    var body := Render([event, error], AregSeps) + rest;
    FieldsRoundTrip([event, error], AregSeps, rest);
    assert RegistrationText(event, error) + rest == AregTag + body;
    assert (AregTag + body)[|AregTag|..] == body;
  }

  /** A `+AREG` line without the colon and the first code has no match. */
  lemma RegistrationNeedsCodes(rest: string)
    requires rest == [] || rest[0] != ':' || |rest| == 1 || !IsDigit(rest[1])
    ensures ParseRegistration("+AREG" + rest) == None
  {
    var line := "+AREG" + rest;
    if AregTag <= line {
      assert line[5] == ':' && line[5] == rest[0];
      assert line[|AregTag|..] == rest[1..];
    }
  }
}
