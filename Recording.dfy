/**
 * movella/recording2.py: a Movella DOT recording session without serial devices. A
 * keyboard thread latches two flags, `recording` and `stop`; the session keeps the first
 * five Movella DOT devices that connect, report their information, identify and
 * configure, starts them all once `recording` is set, stops them once `stop` is set,
 * and disconnects them all in its `finally` block.
 */
module Recording {
  import opened Strings
  import opened Console
  import opened Sensors
  import SerialCore

  // ------------------------------------------------------------------
  // keyboard_listener
  // ------------------------------------------------------------------

  /** The shared `recording_flag` dictionary. */
  datatype Flags = Flags(recording: bool, stop: bool)

  /** What the listener keeps true: `stop` is only ever set while recording. */
  predicate Valid(f: Flags) {
    f.stop ==> f.recording
  }

  /**
   * One key: `a` sets `recording` when it is not set yet; `s` sets `stop` when
   * recording; every other key changes nothing.
   */
  function React(f: Flags, c: Command): Flags {
    if c == Start && !f.recording then f.(recording := true)
    else if c == Stop && f.recording then f.(stop := true)
    else f
  }

  /** The listener ends on the `s` that sets `stop`, and on no other key. */
  predicate Ends(f: Flags, c: Command) {
    c == Stop && f.recording
  }

  /** The flags after the listener has read `cmds` (it reads nothing after the key that ends it). */
  function Listen(f: Flags, cmds: seq<Command>): Flags
    decreases |cmds|
  {
    if cmds == [] then f
    else if Ends(f, cmds[0]) then React(f, cmds[0])
    else Listen(React(f, cmds[0]), cmds[1..])
  }

  /** `a` while recording changes nothing. */
  lemma StartIdempotent(f: Flags)
    requires f.recording
    ensures React(f, Start) == f
  {
  }

  /** `s` while not recording changes nothing and does not end the listener. */
  lemma StopIgnoredWhenIdle(f: Flags)
    requires !f.recording
    ensures React(f, Stop) == f && !Ends(f, Stop)
  {
  }

  /** Keys other than `a` and `s` (`q` and `status` included) change nothing. */
  lemma OtherKeysIgnored(f: Flags, c: Command)
    requires c != Start && c != Stop
    ensures React(f, c) == f && !Ends(f, c)
  {
  }

  /** The listener keeps `stop` ⇒ `recording`. */
  lemma {:induction false} ListenValid(f: Flags, cmds: seq<Command>)
    requires Valid(f)
    ensures Valid(Listen(f, cmds))
    decreases |cmds|
  {
    if cmds != [] && !Ends(f, cmds[0]) {
      ListenValid(React(f, cmds[0]), cmds[1..]);
    }
  }

  /** `recording` ends up set exactly when it was set already or some `a` was read. */
  lemma {:induction false} ListenRecording(f: Flags, cmds: seq<Command>)
    ensures Listen(f, cmds).recording <==> f.recording || Start in cmds
    decreases |cmds|
  {
    if cmds != [] && !Ends(f, cmds[0]) {
      ListenRecording(React(f, cmds[0]), cmds[1..]);
      assert cmds == [cmds[0]] + cmds[1..];
    }
  }

  /** The listener's `key.strip().lower()` classifies every key as `Commands` does. */
  lemma KeysAsWritten(inputs: seq<string>)
    ensures forall k :: 0 <= k < |inputs| ==> Commands(inputs)[k] == Classify(Lower(Strip(inputs[k])))
  {
    forall k | 0 <= k < |inputs| {
      StripLowerCommute(inputs[k]);
    }
  }

  /** Some `a` is followed, later, by an `s`. */
  predicate StartThenStop(cmds: seq<Command>) {
    exists i, j :: 0 <= i < j < |cmds| && cmds[i] == Start && cmds[j] == Stop
  }

  /** An `a` then `s` either lies in the tail, or the head is that `a`. */
  lemma StartThenStopCons(cmds: seq<Command>)
    requires cmds != []
    ensures StartThenStop(cmds) <==> StartThenStop(cmds[1..]) || (cmds[0] == Start && Stop in cmds[1..])
  {
    var rest := cmds[1..];
    if StartThenStop(rest) {
      var i, j :| 0 <= i < j < |rest| && rest[i] == Start && rest[j] == Stop;
      assert cmds[i + 1] == Start && cmds[j + 1] == Stop;
    }
    if cmds[0] == Start && Stop in rest {
      var j :| 0 <= j < |rest| && rest[j] == Stop;
      assert cmds[j + 1] == Stop;
    }
    if StartThenStop(cmds) {
      var i, j :| 0 <= i < j < |cmds| && cmds[i] == Start && cmds[j] == Stop;
      if i == 0 {
        assert rest[j - 1] == Stop;
      } else {
        assert rest[i - 1] == Start && rest[j - 1] == Stop;
      }
    }
  }

  /**
   * `stop` ends up set exactly when it was set already, or an `s` is read while
   * recording: after an `a`, or at any point when recording already.
   */
  lemma {:induction false} ListenStop(f: Flags, cmds: seq<Command>)
    ensures Listen(f, cmds).stop <==> f.stop || (f.recording && Stop in cmds) || StartThenStop(cmds)
    decreases |cmds|
  {
    if cmds != [] {
      StartThenStopCons(cmds);
      assert Stop in cmds <==> cmds[0] == Stop || Stop in cmds[1..] by {
        assert cmds == [cmds[0]] + cmds[1..];
      }
      if !Ends(f, cmds[0]) {
        ListenStop(React(f, cmds[0]), cmds[1..]);
      }
    }
  }

  /** An `s` before any `a` is forgotten: it neither stops nor ends the listener. */
  lemma StopBeforeStartForgotten(cmds: seq<Command>)
    ensures Listen(Flags(false, false), [Stop] + cmds) == Listen(Flags(false, false), cmds)
  {
    assert ([Stop] + cmds)[1..] == cmds;
  }

  /** The `recording_flag` dictionary, written by the keyboard thread. */
  class RecordingFlag {
    var recording: bool
    var stop: bool

    constructor ()
      ensures !recording && !stop
    {
      recording, stop := false, false;
    }

    function State(): Flags
      reads this
    {
      Flags(recording, stop)
    }

    /**
     * `keyboard_listener`: every answer is stripped and lower-cased, then handled.
     * `Commands` lowers before it strips; `KeysAsWritten` shows the two orders agree.
     */
    method KeyboardListener(inputs: seq<string>)
      modifies this
      ensures State() == Listen(old(State()), Commands(inputs))
      ensures forall k :: 0 <= k < |inputs| ==> Commands(inputs)[k] == Classify(Lower(Strip(inputs[k])))
    {
      KeysAsWritten(inputs);
      Handle(Commands(inputs));
    }

    /** The `while True` loop over the keys, ending on the `s` that sets `stop`. */
    method Handle(cmds: seq<Command>)
      modifies this
      ensures State() == Listen(old(State()), cmds)
    {
      var i := 0;
      while i < |cmds|
        invariant i <= |cmds|
        invariant Listen(old(State()), cmds) == Listen(State(), cmds[i..])
      {
        assert cmds[i..][1..] == cmds[i + 1..];
        var key := cmds[i];
        if key == Start {
          if !recording {
            recording := true;
          }
        } else if key == Stop {
          if recording {
            stop := true;
            break;
          }
        }
        i := i + 1;
      }
    }
  }

  // ------------------------------------------------------------------
  // Sensor setup
  // ------------------------------------------------------------------

  /** One device's outcomes: the BLE connect, `get_device_info`, `identify_sensor` and `configure_sensor`. */
  datatype Probe = Probe(connect: bool, info: bool, identify: bool, configure: bool)

  /** A device is kept only when all four steps succeed. */
  predicate Accepted(p: Probe) {
    p.connect && p.info && p.identify && p.configure
  }

  /** A device that connected but failed a later step: its link is left open, no disconnect is made. */
  predicate Stranded(p: Probe) {
    p.connect && !Accepted(p)
  }

  function AcceptedFlags(probes: seq<Probe>): (flags: seq<bool>)
    ensures |flags| == |probes|
    ensures forall i :: 0 <= i < |probes| ==> flags[i] == Accepted(probes[i])
  {
    seq(|probes|, i requires 0 <= i < |probes| => Accepted(probes[i]))
  }

  function StrandedFlags(probes: seq<Probe>): (flags: seq<bool>)
    ensures |flags| == |probes|
    ensures forall i :: 0 <= i < |probes| ==> flags[i] == Stranded(probes[i])
  {
    seq(|probes|, i requires 0 <= i < |probes| => Stranded(probes[i]))
  }

  /**
   * The connection loop of `main`: each candidate in turn; a failing step ends that
   * device's `try` and the loop goes on with the next.
   */
  method ConnectSensors(candidates: seq<Device>, probes: seq<Probe>) returns (sensors: seq<Device>, stranded: seq<Device>)
    requires |probes| == |candidates|
    ensures sensors == SerialCore.Select(candidates, AcceptedFlags(probes), true)
    ensures stranded == SerialCore.Select(candidates, StrandedFlags(probes), true)
  {
    sensors, stranded := [], [];
    ghost var accepted, left := AcceptedFlags(probes), StrandedFlags(probes);
    var i := 0;
    while i < |candidates|
      invariant i <= |candidates|
      invariant sensors == SerialCore.Select(candidates[..i], accepted[..i], true)
      invariant stranded == SerialCore.Select(candidates[..i], left[..i], true)
    {
      SerialCore.SelectStep(candidates, accepted, true, i);
      SerialCore.SelectStep(candidates, left, true, i);
      var p := probes[i];
      if p.connect {
        if p.info && p.identify && p.configure {
          sensors := sensors + [candidates[i]];
        } else {
          stranded := stranded + [candidates[i]];
        }
      }
      i := i + 1;
    }
    SerialCore.SelectWhole(candidates, accepted, true);
    SerialCore.SelectWhole(candidates, left, true);
  }

  // ------------------------------------------------------------------
  // The session
  // ------------------------------------------------------------------

  /**
   * The session once sensors are connected, given the flags the listener ends with
   * and whether the gathered `start_recording` calls all succeed: it waits for
   * `recording`, starts every sensor, waits for `stop` and stops every sensor; the
   * `finally` block disconnects every sensor, also when starting raised.
   */
  function Session(sensors: seq<Device>, f: Flags, startOk: bool): Run {
    if !f.recording then Run([], false)
    else if !startOk then Run(Each(sensors, Begin) + Each(sensors, Release), true)
    else if !f.stop then Run(Each(sensors, Begin), false)
    else Run(Each(sensors, Begin) + Each(sensors, End) + Each(sensors, Release), true)
  }

  /** Starts before stops, stops before disconnects. */
  lemma SessionOrdered(sensors: seq<Device>, f: Flags, startOk: bool)
    ensures Ordered(Session(sensors, f, startOk).trace)
  {
    var b := Each(sensors, Begin);
    var e := Each(sensors, End);
    var d := Each(sensors, Release);
    OrderedConcat(b, d);
    OrderedConcat(b, e);
    OrderedConcat(b + e, d);
  }

  /**
   * Which calls a session makes: every sensor is started exactly when `recording` is
   * set, stopped exactly when starting succeeded and `stop` is set, and disconnected
   * exactly when the session returns; it returns once `recording` is set and either
   * starting raised or `stop` is set.
   */
  lemma SessionCalls(sensors: seq<Device>, f: Flags, startOk: bool, dev: Device)
    ensures var t := Session(sensors, f, startOk).trace;
      && (OnSensor(Begin, dev) in t <==> f.recording && dev in sensors)
      && (OnSensor(End, dev) in t <==> f.recording && startOk && f.stop && dev in sensors)
      && (OnSensor(Release, dev) in t <==> Session(sensors, f, startOk).returned && dev in sensors)
    ensures Session(sensors, f, startOk).returned <==> f.recording && (!startOk || f.stop)
  {
    EachApplies(sensors, Begin, dev);
    EachApplies(sensors, End, dev);
    EachApplies(sensors, Release, dev);
  }

  /**
   * `main`: returns at once when no Movella DOT device is found or none could be
   * connected; otherwise runs the session on the sensors kept. Devices stranded by a
   * failing step are reported beside the run.
   */
  method Record(devices: seq<Device>, probes: seq<Probe>, f: Flags, startOk: bool) returns (run: Run, stranded: seq<Device>)
    requires |probes| == |Candidates(devices)|
    ensures var sensors := SerialCore.Select(Candidates(devices), AcceptedFlags(probes), true);
      && run == (if sensors == [] then Run([], true) else Session(sensors, f, startOk))
      && stranded == SerialCore.Select(Candidates(devices), StrandedFlags(probes), true)
  {
    var dots := DotDevices(devices);
    if dots == [] {
      return Run([], true), [];
    }
    var candidates := FirstFive(dots);
    var sensors;
    sensors, stranded := ConnectSensors(candidates, probes);
    if sensors == [] {
      return Run([], true), stranded;
    }
    if !f.recording {
      return Run([], false), stranded;
    }
    var trace := Each(sensors, Begin);
    if startOk {
      if !f.stop {
        return Run(trace, false), stranded;
      }
      trace := trace + Each(sensors, End);
    }
    trace := trace + Each(sensors, Release);
    run := Run(trace, true);
  }

  /**
   * From the initial flags, the keys decide the session: when starting succeeds, it
   * returns (having stopped and disconnected every sensor) exactly when an `s` came
   * after an `a`.
   */
  lemma KeysDecideSession(sensors: seq<Device>, cmds: seq<Command>)
    ensures var f := Listen(Flags(false, false), cmds);
      Session(sensors, f, true).returned <==> StartThenStop(cmds)
  {
    var f := Listen(Flags(false, false), cmds);
    ListenValid(Flags(false, false), cmds);
    ListenStop(Flags(false, false), cmds);
  }
}
