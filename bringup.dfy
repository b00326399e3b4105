/**
 * Opening the modem: merging the caller's configuration into the defaults
 * (index.js), deciding whether hardware flow control is off, and the fixed
 * series of initialisation commands. Also the modem clock query.
 */
module BringUp {
  import opened Wrappers
  import opened Patterns
  import opened Flavour
  import opened Dispatcher
  import opened Replies

  /** A configuration value, as far as the engine looks at it. */
  datatype Value = Num(n: int) | Str(s: string) | Bool(b: bool) | Nullish | Obj

  /** JavaScript truthiness. */
  predicate Truthy(v: Value) {
    match v
    case Num(n) => n != 0
    case Str(s) => s != ""
    case Bool(b) => b
    case Nullish => false
    case Obj => true
  }

  /** `iridium.globals` before any configuration (index.js). */
  const Defaults: map<string, Value> := map[
    "bars" := Num(0),
    "baudrate" := Num(19200),
    "debug" := Num(0),
    "defaultTimeout" := Num(60000),
    "simpleTimeout" := Num(2000),
    "timeoutForever" := Num(-1),
    "maxAttempts" := Num(10),
    "port" := Str("/dev/ttyUSB0"),
    "flowControl" := Bool(false)
  ]

  // A configuration object is given as its own keys, in insertion order, with their values.

  /** One round of the `for (key in config)` loop: only keys the globals already have are overwritten. */
  function Overwrite(globals: map<string, Value>, entry: (string, Value)): map<string, Value> {
    if entry.0 in globals then globals[entry.0 := entry.1] else globals
  }

  /** The globals after the loop has seen the given entries. */
  function Merged(globals: map<string, Value>, config: seq<(string, Value)>): map<string, Value>
    decreases |config|
  {
    if config == [] then globals
    else Overwrite(Merged(globals, config[..|config| - 1]), config[|config| - 1])
  }

  /** The value the configuration gives a key, if it names it. */
  function Lookup(config: seq<(string, Value)>, key: string): (v: Option<Value>)
    ensures v.Some? ==> (key, v.value) in config
    ensures v.None? ==> forall e :: e in config ==> e.0 != key
    decreases |config|
  {
    if config == [] then None
    else if config[|config| - 1].0 == key then Some(config[|config| - 1].1)
    else Lookup(config[..|config| - 1], key)
  }

  /**
   * The merge adds no key and removes none; a known key takes the
   * configuration's value (the last one, were a key repeated), every other
   * known key keeps its value.
   */
  lemma {:induction false} MergedValues(globals: map<string, Value>, config: seq<(string, Value)>)
    ensures Merged(globals, config).Keys == globals.Keys
    ensures forall k :: k in globals ==>
              Merged(globals, config)[k] == (if Lookup(config, k).Some? then Lookup(config, k).value else globals[k])
    decreases |config|
  {
    if config != [] {
      MergedValues(globals, config[..|config| - 1]);
    }
  }

  /** `maxWait` is not among the defaults, so no configuration can set it: index.js's network wait falls back to `timeoutForever`. */
  lemma MaxWaitNeverSet(config: seq<(string, Value)>)
    ensures "maxWait" !in Merged(Defaults, config)
  {
    MergedValues(Defaults, config);
  }

  /**
   * Unless the configuration names `timeoutForever`, it keeps its default
   * of -1 and index.js arms no timer for the network wait; a configured
   * value is taken as it is.
   */
  lemma NetworkWaitUnbounded(config: seq<(string, Value)>)
    ensures "timeoutForever" in Merged(Defaults, config)
    ensures Lookup(config, "timeoutForever").None? ==>
              Merged(Defaults, config)["timeoutForever"] == Num(TimeoutForever)
              && ArmTimer(0, Millis(TimeoutForever)).None?
    ensures Lookup(config, "timeoutForever").Some? ==>
              Merged(Defaults, config)["timeoutForever"] == Lookup(config, "timeoutForever").value
  {
    MergedValues(Defaults, config);
  }

  /** `open` in index.js: the globals, updated in place. */
  class Settings {
    var globals: map<string, Value>

    constructor ()
      ensures globals == Defaults
    {
      globals := Defaults;
    }

    method MergeConfig(config: seq<(string, Value)>)
      modifies this
      ensures globals == Merged(old(globals), config)
    {
      var i := 0;
      while i < |config|
        invariant 0 <= i <= |config|
        invariant globals == Merged(old(globals), config[..i])
      {
        var entry := config[i];
        if entry.0 in globals {
          globals := globals[entry.0 := entry.1];
        }
        assert config[..i + 1][..i] == config[..i];
        i := i + 1;
      }
      assert config[..|config|] == config;
    }
  }

  /** Whether flow control is on when the port opens; `config` is None when `open` is called without one. */
  function FlowControl(flavour: Flavour, config: Option<seq<(string, Value)>>): (on: bool)
    ensures config.None? ==> (on <==> flavour.DefaultFlowControl())
    ensures config.Some? && Lookup(config.value, "flowControl").None? ==> (on <==> false)
    ensures config.Some? && Lookup(config.value, "flowControl").Some? ==>
              (on <==> Truthy(Lookup(config.value, "flowControl").value))
  {
    match config
    case None => flavour.DefaultFlowControl()
    case Some(c) =>
      if flavour.IndexJs? then
        MergedValues(Defaults, c);
        Truthy(Merged(Defaults, c)["flowControl"])
      else
        // `flowControl = !!config.flowControl`
        Lookup(c, "flowControl").Some? && Truthy(Lookup(c, "flowControl").value)
  }

  const InitCommands: seq<string> := ["ATE0", "AT+SBDD2", "AT+SBDAREG=1", "AT+SBDMTA=1"]

  /** How far `async.series` got: the commands issued, and the error that stopped it, if any. */
  datatype Series = Series(issued: seq<string>, stopped: Option<Failure>, finished: bool)

  /** `async.series`: each command after the previous one succeeded; the first error ends the series. */
  function RunSeries(commands: seq<string>, outcomes: seq<Outcome>): (r: Series)
    ensures |r.issued| <= |commands| && r.issued == commands[..|r.issued|]
    ensures r.finished <==> r.issued == commands && r.stopped.None? && |outcomes| >= |commands|
    ensures r.stopped.Some? ==> 0 < |r.issued| <= |outcomes| && outcomes[|r.issued| - 1] == Failed(r.stopped.value)
    ensures forall i :: 0 <= i < |r.issued| && i < |outcomes| && (r.stopped.Some? ==> i < |r.issued| - 1) ==>
              outcomes[i].Completed?
    decreases |commands|
  {
    if commands == [] then Series([], None, true)
    else if outcomes == [] then Series([commands[0]], None, false)
    else if outcomes[0].Failed? then Series([commands[0]], Some(outcomes[0].failure), false)
    else
      var rest := RunSeries(commands[1..], outcomes[1..]);
      assert commands == [commands[0]] + commands[1..];
      Series([commands[0]] + rest.issued, rest.stopped, rest.finished)
  }

  /** Bring-up: `AT&K0` first unless flow control is on (its outcome is ignored), then the series; `initialized` at its end. */
  datatype Bring = Bring(issued: seq<string>, initialized: bool)

  function Open(flowControl: bool, outcomes: seq<Outcome>): (r: Bring)
    ensures flowControl ==> r.issued == RunSeries(InitCommands, outcomes).issued
    ensures !flowControl ==> |r.issued| >= 1 && r.issued[0] == "AT&K0"
  {
    if flowControl then
      var s := RunSeries(InitCommands, outcomes);
      Bring(s.issued, s.finished)
    else if outcomes == [] then Bring(["AT&K0"], false)
    else
      var s := RunSeries(InitCommands, outcomes[1..]);
      Bring(["AT&K0"] + s.issued, s.finished)
  }

  /** Every command answered without error: all are issued, in order, and the series finishes. */
  lemma {:induction false} SeriesCompletes(commands: seq<string>, outcomes: seq<Outcome>)
    requires |outcomes| >= |commands| && forall i :: 0 <= i < |commands| ==> outcomes[i].Completed?
    ensures RunSeries(commands, outcomes) == Series(commands, None, true)
    decreases |commands|
  {
    if commands != [] {
      SeriesCompletes(commands[1..], outcomes[1..]);
    }
  }

  /** The j-th command fails after all before it succeeded: exactly the first j + 1 are issued and the series stops with that error. */
  lemma {:induction false} SeriesStops(commands: seq<string>, outcomes: seq<Outcome>, j: nat)
    requires j < |commands| && j < |outcomes| && outcomes[j].Failed?
    requires forall i :: 0 <= i < j ==> outcomes[i].Completed?
    ensures RunSeries(commands, outcomes) == Series(commands[..j + 1], Some(outcomes[j].failure), false)
    decreases j
  {
    if j > 0 {
      SeriesStops(commands[1..], outcomes[1..], j - 1);
      assert [commands[0]] + commands[1..][..j] == commands[..j + 1];
    }
  }

  /** All replies successful: the five or four commands in order, then `initialized`. */
  lemma BringUpOrder(flowControl: bool, outcomes: seq<Outcome>)
    requires |outcomes| == 5 && forall i :: 0 <= i < 5 ==> outcomes[i].Completed?
    ensures Open(flowControl, outcomes).initialized
    ensures Open(flowControl, outcomes).issued == (if flowControl then [] else ["AT&K0"]) + InitCommands
  {
    if flowControl {
      SeriesCompletes(InitCommands, outcomes);
    } else {
      SeriesCompletes(InitCommands, outcomes[1..]);
    }
  }

  /** The first failing reply ends bring-up: nothing after that command is sent and `initialized` is never emitted. */
  lemma StopsAtFirstError(flowControl: bool, outcomes: seq<Outcome>, j: nat)
    requires flowControl && j < 4 && j < |outcomes| && outcomes[j].Failed?
    requires forall i :: 0 <= i < j ==> outcomes[i].Completed?
    ensures Open(flowControl, outcomes).issued == InitCommands[..j + 1]
    ensures !Open(flowControl, outcomes).initialized
  {
    SeriesStops(InitCommands, outcomes, j);
  }

  /** With flow control off the same holds after `AT&K0`, whatever its outcome was. */
  lemma StopsAtFirstErrorAfterFlowControl(outcomes: seq<Outcome>, j: nat)
    requires j < 4 && j + 1 < |outcomes| && outcomes[j + 1].Failed?
    requires forall i :: 1 <= i <= j ==> outcomes[i].Completed?
    ensures Open(false, outcomes).issued == ["AT&K0"] + InitCommands[..j + 1]
    ensures !Open(false, outcomes).initialized
  {
    SeriesStops(InitCommands, outcomes[1..], j);
  }

  /** `disableFlowControl` passes no error on: the series after `AT&K0` is the same whether it failed or not. */
  lemma FlowControlOutcomeIgnored(o: Outcome, o': Outcome, rest: seq<Outcome>)
    ensures Open(false, [o] + rest) == Open(false, [o'] + rest)
    ensures Open(false, [o] + rest).issued == ["AT&K0"] + RunSeries(InitCommands, rest).issued
  {
    assert ([o] + rest)[1..] == rest && ([o'] + rest)[1..] == rest;
  }

  // ---- one-shot queries ----

  /** The clock reading from the outcome of `AT+CCLK?`, issued with the default timeout and every line kept; None where the continuation would throw (a binary body has no `match`). */
  function SystemTime(o: Outcome): (r: Option<SystemTime<Failure>>)
    ensures o.Failed? ==> r == Some(TimeError(o.failure))
    ensures o.Completed? && o.body.Text? ==> r == Some(SystemTimeOf(Success(o.body.text)))
  {
    match o
    case Failed(f) => Some(TimeError(f))
    case Completed(Text(t)) => Some(SystemTimeOf(Success(t)))
    case Completed(Blob(_)) => None
  }
}
