/**
 * The mailbox controller of index.js: a lock that marks a send in flight, a
 * count of mailbox checks that arrived meanwhile, and an attempt counter
 * that bounds the retries of a failing send. It decides which session to
 * start and which timer to arm; the sessions themselves are `Session`'s.
 */
module Mailbox {
  import opened Wrappers
  import opened Framer
  import opened Session

  const FollowUpDelay: nat := 1000
  const RetryDelay: nat := 20000
  const DefaultMaxAttempts: int := 10

  /** What a session's callback does when the session reports. */
  datatype Continuation =
    | LogOnly              // a mailbox check: the report is only logged
    | SendDone(buffer: seq<Byte>)  // a mailbox send: `SendResult` below
    | NoCallback           // the follow-up check: calling the callback throws

  datatype Timer = FollowUp | Retry(buffer: seq<Byte>)

  /** What the caller of `mailboxSend` is told: `(false, momsn)` or the max-attempts error. */
  datatype SendResult = Sent(momsn: Option<nat>) | MaxAttemptsExceeded

  datatype Action =
    | StartSession(request: Request, reportTo: Continuation)
    | Arm(delay: nat, timer: Timer)
    | Tell(result: SendResult)

  /**
   * `lock`, `pending` and `c_attempt`. The attempt counter starts out
   * undefined and only `sendCompressedMessage` sets it to 0; incrementing
   * undefined gives NaN, which stays NaN and is never `<=` anything: `None`.
   */
  datatype MailboxState = MailboxState(lock: bool, pending: nat, attempt: Option<nat>)

  const Initial: MailboxState := MailboxState(false, 0, None)

  /** `mailboxCheck`: while locked, count the check; otherwise start an empty session. */
  function Check(st: MailboxState): (r: (MailboxState, seq<Action>))
    ensures st.lock ==> r == (st.(pending := st.pending + 1), [])
    ensures !st.lock ==> r.0 == st && r.1 == [StartSession(TextMessage(""), LogOnly)]
  {
    if st.lock then (st.(pending := st.pending + 1), [])
    else (st, [StartSession(TextMessage(""), LogOnly)])
  }

  /** `c_attempt++` on a number or on undefined/NaN. */
  function Bump(a: Option<nat>): Option<nat> {
    match a
    case None => None
    case Some(n) => Some(n + 1)
  }

  /** `c_attempt <= maxAttempts`; false for NaN. */
  function Within(a: Option<nat>, maxAttempts: int): bool {
    a.Some? && a.value <= maxAttempts
  }

  /** `mailboxSend`: count the attempt; within the bound take the lock and start the binary session. */
  function Send(st: MailboxState, maxAttempts: int, buffer: seq<Byte>): (r: (MailboxState, seq<Action>))
    ensures r.0.attempt == Bump(st.attempt) && r.0.pending == st.pending
    ensures Within(Bump(st.attempt), maxAttempts) ==>
              r.0.lock && r.1 == [StartSession(BinaryMessage(buffer), SendDone(buffer))]
    ensures !Within(Bump(st.attempt), maxAttempts) ==>
              r.0.lock == st.lock && r.1 == [Tell(MaxAttemptsExceeded)]
  {
    var a := Bump(st.attempt);
    if Within(a, maxAttempts) then
      (MailboxState(true, st.pending, a), [StartSession(BinaryMessage(buffer), SendDone(buffer))])
    else
      // the lock is left as it was
      (st.(attempt := a), [Tell(MaxAttemptsExceeded)])
  }

  /** `sendCompressedMessage` once deflating succeeded: reset the attempt counter, then send. */
  function SendCompressed(st: MailboxState, maxAttempts: int, compressed: seq<Byte>): (r: (MailboxState, seq<Action>))
    ensures maxAttempts >= 1 ==> r.0.lock && r.0.attempt == Some(1)
                                 && r.1 == [StartSession(BinaryMessage(compressed), SendDone(compressed))]
  {
    Send(st.(attempt := Some(0)), maxAttempts, compressed)
  }

  /**
   * The callback of a mailbox send. Success: if checks arrived meanwhile,
   * arm the follow-up check and keep the lock, else release it; then tell
   * the caller. Failure: retry the same buffer after 20 s.
   */
  function Reported(st: MailboxState, buffer: seq<Byte>, report: Report): (r: (MailboxState, seq<Action>))
    ensures report.err.Some? ==> r == (st, [Arm(RetryDelay, Retry(buffer))])
    ensures report.err.None? ==> r.0.pending == st.pending && r.0.attempt == st.attempt
    ensures report.err.None? ==> (r.0.lock <==> st.lock && st.pending > 0)
    ensures report.err.None? && st.pending > 0 ==> r.1 == [Arm(FollowUpDelay, FollowUp), Tell(Sent(report.momsn))]
    ensures report.err.None? && st.pending == 0 ==> r.1 == [Tell(Sent(report.momsn))]
  {
    if report.err.None? then
      if st.pending > 0 then (st, [Arm(FollowUpDelay, FollowUp), Tell(Sent(report.momsn))])
      else (st.(lock := false), [Tell(Sent(report.momsn))])
    else (st, [Arm(RetryDelay, Retry(buffer))])
  }

  /** A mailbox timer fires: the follow-up is a bare `sendMessage("")`, the retry a new `mailboxSend`. */
  function Fired(st: MailboxState, maxAttempts: int, t: Timer): (r: (MailboxState, seq<Action>))
    ensures t.FollowUp? ==> r == (st, [StartSession(TextMessage(""), NoCallback)])
    ensures t.Retry? ==> r == Send(st, maxAttempts, t.buffer)
  {
    match t
    case FollowUp => (st, [StartSession(TextMessage(""), NoCallback)])
    case Retry(buffer) => Send(st, maxAttempts, buffer)
  }

  /** `readBinaryMessage` in index.js: the pending count becomes the MT queue length. */
  function PendingFromQueue(st: MailboxState, queued: nat): (r: MailboxState)
    ensures r.pending == queued && r.lock == st.lock && r.attempt == st.attempt
  {
    st.(pending := queued)
  }

  /**
   * The follow-up after a successful send with checks pending: the lock and
   * the count are kept, and the timer the report arms starts one empty
   * session whose callback is missing.
   */
  lemma FollowUpKeepsLock(st: MailboxState, maxAttempts: int, buffer: seq<Byte>, momsn: Option<nat>)
    requires st.lock && st.pending > 0
    ensures var done := Reported(st, buffer, Report(None, momsn));
            done.1[0].Arm? && done.1[0].delay == FollowUpDelay
            && Fired(done.0, maxAttempts, done.1[0].timer) == (st, [StartSession(TextMessage(""), NoCallback)])
  {
  }

  /**
   * An MT read during a send replaces the count of pending checks by the
   * MT queue length: a successful send then keeps the lock and arms one
   * follow-up exactly when messages are queued, and releases it otherwise.
   */
  lemma QueueDecidesFollowUp(st: MailboxState, queued: nat, buffer: seq<Byte>, momsn: Option<nat>)
    requires st.lock
    ensures var done := Reported(PendingFromQueue(st, queued), buffer, Report(None, momsn));
            done.0.pending == queued && done.0.attempt == st.attempt
            && (done.0.lock <==> queued > 0)
            && (queued > 0 ==> done.1 == [Arm(FollowUpDelay, FollowUp), Tell(Sent(momsn))])
            && (queued == 0 ==> done.1 == [Tell(Sent(momsn))])
  {
  }

  /** A check while a send is in flight starts nothing; only the count grows. */
  lemma {:induction false} ChecksWhileLocked(st: MailboxState, n: nat)
    requires st.lock
    ensures ChecksN(st, n) == (st.(pending := st.pending + n), 0)
  {
    if n > 0 {
      ChecksWhileLocked(st, n - 1);
    }
  }

  /** n mailbox checks in a row: the state and the number of sessions they start. */
  function ChecksN(st: MailboxState, n: nat): (MailboxState, nat) {
    if n == 0 then (st, 0)
    else
      var prev := ChecksN(st, n - 1);
      var r := Check(prev.0);
      (r.0, prev.1 + |r.1|)
  }

  /**
   * Coalescing: any number (at least one) of checks during a successful send
   * produce exactly one follow-up check, and the lock stays held for it.
   */
  lemma Coalescing(st: MailboxState, n: nat, buffer: seq<Byte>, momsn: Option<nat>)
    requires st.lock && st.pending == 0 && n >= 1
    ensures var after := ChecksN(st, n);
            var done := Reported(after.0, buffer, Report(None, momsn));
            after.1 == 0 && done.0.lock && done.0.pending == n
            && done.1 == [Arm(FollowUpDelay, FollowUp), Tell(Sent(momsn))]
  {
    ChecksWhileLocked(st, n);
  }

  /**
   * What follows one `mailboxSend` of a send that never succeeds: while the
   * attempt was within the bound, its session fails, the report arms the
   * retry timer and that timer fires. The sessions started and the final state.
   */
  function Attempts(sent: (MailboxState, seq<Action>), maxAttempts: int, buffer: seq<Byte>): (r: (nat, MailboxState, seq<Action>))
    decreases if Within(sent.0.attempt, maxAttempts) then maxAttempts - sent.0.attempt.value + 1 else 0
  {
    if !Within(sent.0.attempt, maxAttempts) then (0, sent.0, sent.1)
    else
      var retried := Reported(sent.0, buffer, Report(Some(UnknownFailure), None));
      var rest := Attempts(Fired(retried.0, maxAttempts, retried.1[0].timer), maxAttempts, buffer);
      (rest.0 + 1, rest.1, rest.2)
  }

  /** A send that never succeeds, from the first `mailboxSend` on. */
  function Failing(st: MailboxState, maxAttempts: int, buffer: seq<Byte>): (nat, MailboxState, seq<Action>) {
    Attempts(Send(st, maxAttempts, buffer), maxAttempts, buffer)
  }

  /**
   * Retry bound: a send that always fails starts exactly `maxAttempts - a`
   * sessions after `c_attempt` was a, then reports the max-attempts error;
   * the lock it took is never released.
   */
  lemma {:induction false} RetryBound(st: MailboxState, maxAttempts: int, buffer: seq<Byte>)
    requires st.attempt.Some? && st.attempt.value <= maxAttempts
    ensures var r := Failing(st, maxAttempts, buffer);
            r.0 == maxAttempts - st.attempt.value && r.1.attempt == Some(maxAttempts + 1)
            && r.2 == [Tell(MaxAttemptsExceeded)]
            && (r.1.lock <==> st.lock || r.0 > 0)
    decreases maxAttempts - st.attempt.value
  {
    var sent := Send(st, maxAttempts, buffer);
    if Within(sent.0.attempt, maxAttempts) {
      var retried := Reported(sent.0, buffer, Report(Some(UnknownFailure), None));
      assert Fired(retried.0, maxAttempts, retried.1[0].timer) == Send(retried.0, maxAttempts, buffer);
      RetryBound(retried.0, maxAttempts, buffer);
    }
  }

  /** After `sendCompressedMessage` resets the counter, an always-failing send starts exactly `maxAttempts` sessions. */
  lemma CompressedRetryBound(st: MailboxState, maxAttempts: int, buffer: seq<Byte>)
    requires maxAttempts >= 1
    ensures Failing(st.(attempt := Some(0)), maxAttempts, buffer).0 == maxAttempts
    ensures Failing(st.(attempt := Some(0)), maxAttempts, buffer).1.lock
  {
    RetryBound(st.(attempt := Some(0)), maxAttempts, buffer);
  }

  /** Without `sendCompressedMessage` first, the counter is NaN and `mailboxSend` never sends. */
  lemma UndefinedAttemptNeverSends(st: MailboxState, maxAttempts: int, buffer: seq<Byte>)
    requires st.attempt.None?
    ensures Send(st, maxAttempts, buffer) == (st, [Tell(MaxAttemptsExceeded)])
  {
  }

  /** The mailbox state of index.js, updated in place. */
  class Controller {
    var lock: bool
    var pending: nat
    var attempt: Option<nat>
    const maxAttempts: int

    function State(): MailboxState
      reads this
    {
      MailboxState(lock, pending, attempt)
    }

    constructor (maxAttempts: int)
      ensures State() == Initial && this.maxAttempts == maxAttempts
    {
      lock := false;
      pending := 0;
      attempt := None;
      this.maxAttempts := maxAttempts;
    }

    method MailboxCheck() returns (actions: seq<Action>)
      modifies this
      ensures (State(), actions) == Check(old(State()))
    {
      if lock {
        pending := pending + 1;
        actions := [];
      } else {
        actions := [StartSession(TextMessage(""), LogOnly)];
      }
    }

    method MailboxSend(buffer: seq<Byte>) returns (actions: seq<Action>)
      modifies this
      ensures (State(), actions) == Send(old(State()), maxAttempts, buffer)
    {
      attempt := Bump(attempt);
      if Within(attempt, maxAttempts) {
        lock := true;
        actions := [StartSession(BinaryMessage(buffer), SendDone(buffer))];
      } else {
        actions := [Tell(MaxAttemptsExceeded)];
      }
    }

    method SendCompressedMessage(compressed: seq<Byte>) returns (actions: seq<Action>)
      modifies this
      ensures (State(), actions) == SendCompressed(old(State()), maxAttempts, compressed)
    {
      attempt := Some(0);
      actions := MailboxSend(compressed);
    }

    method OnReport(buffer: seq<Byte>, report: Report) returns (actions: seq<Action>)
      modifies this
      ensures (State(), actions) == Reported(old(State()), buffer, report)
    {
      if report.err.None? {
        if pending > 0 {
          actions := [Arm(FollowUpDelay, FollowUp), Tell(Sent(report.momsn))];
        } else {
          lock := false;
          actions := [Tell(Sent(report.momsn))];
        }
      } else {
        actions := [Arm(RetryDelay, Retry(buffer))];
      }
    }

    method OnTimer(t: Timer) returns (actions: seq<Action>)
      modifies this
      ensures (State(), actions) == Fired(old(State()), maxAttempts, t)
    {
      match t
      case FollowUp =>
        actions := [StartSession(TextMessage(""), NoCallback)];
      case Retry(buffer) =>
        actions := MailboxSend(buffer);
    }

    method OnQueueLength(queued: nat)
      modifies this
      ensures State() == PendingFromQueue(old(State()), queued)
    {
      pending := queued;
    }
  }
}
