/**
 * The engine exists as two near-identical copies: index.js (an object
 * holding its state and a `globals` configuration) and iridium.js (module
 * variables). The model is written once; the few places where the copies
 * behave differently consult the flavour.
 */
module Flavour {

  datatype Flavour = IndexJs | IridiumJs {

    /** iridium.js calls the continuation with "TIMEOUT" when a command's timer fires; index.js only logs it. */
    predicate TimeoutDelivers() {
      IridiumJs?
    }

    /** iridium.js waits for the network for the caller's maxWait; index.js reads `globals.maxWait`. */
    predicate WaitUsesCallerMaxWait() {
      IridiumJs?
    }

    /** index.js checks that the `+SBDIX` reply matched before reading its fields; iridium.js does not. */
    predicate GuardsSessionReply() {
      IndexJs?
    }

    /** index.js's `ATS` is `AT` itself; iridium.js's `ATS` passes only the error on. */
    predicate AtsForwardsBody() {
      IndexJs?
    }

    /** index.js's `readBinaryMessage` also sets the mailbox's pending count to the MT queue length. */
    predicate ReadSetsMailboxPending() {
      IndexJs?
    }

    /** Flow control assumed before any configuration: off in index.js, on in iridium.js. */
    predicate DefaultFlowControl() {
      IridiumJs?
    }
  }
}
