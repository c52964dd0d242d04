/**
 * uniti.py: serial devices and Movella DOT sensors driven from one console. The serial
 * reader only echoes what arrives; a `MovellaManager` object owns the sensor list, which
 * its connection step fills; every `a` sends START to the serial devices and then starts
 * the sensors, every `s` sends STOP and then stops them.
 */
module Combined {
  import opened Strings
  import opened Console
  import opened Sensors
  import SerialCore

  // ------------------------------------------------------------------
  // read_arduino: an echo-only reader
  // ------------------------------------------------------------------

  /** The lines the reader echoes: every read line, stripped, that is not empty; failed readings show nothing. */
  function Echoed(readings: seq<SerialCore.ReadResult>): seq<string> {
    if readings == [] then []
    else
      var n := |readings| - 1;
      Echoed(readings[..n]) + (if SerialCore.Inert(readings[n]) then [] else [Strip(readings[n].raw)])
  }

  /** Echoes of consecutive runs of readings are concatenated. */
  lemma {:induction false} EchoedConcat(a: seq<SerialCore.ReadResult>, b: seq<SerialCore.ReadResult>)
    ensures Echoed(a + b) == Echoed(a) + Echoed(b)
    decreases |b|
  {
    if b == [] {
      assert a + b == a;
    } else {
      var n := |b| - 1;
      assert (a + b)[..|a + b| - 1] == a + b[..n];
      assert (a + b)[|a + b| - 1] == b[n];
      assert Echoed(a + b) == Echoed(a + b[..n]) + (if SerialCore.Inert(b[n]) then [] else [Strip(b[n].raw)]);
      assert Echoed(b) == Echoed(b[..n]) + (if SerialCore.Inert(b[n]) then [] else [Strip(b[n].raw)]);
      EchoedConcat(a, b[..n]);
    }
  }

  /** A failed read or a blank line neither shows anything nor ends the reader: reading goes on after it. */
  lemma ReaderSurvives(a: seq<SerialCore.ReadResult>, r: SerialCore.ReadResult, b: seq<SerialCore.ReadResult>)
    requires SerialCore.Inert(r)
    ensures Echoed(a + [r] + b) == Echoed(a) + Echoed(b)
  {
    var x := a + [r];
    assert x[..|x| - 1] == a && x[|x| - 1] == r;
    assert Echoed(x) == Echoed(a);
    EchoedConcat(x, b);
  }

  /** Every echoed line is non-empty and already stripped. */
  lemma {:induction false} EchoedStripped(readings: seq<SerialCore.ReadResult>)
    ensures forall l :: l in Echoed(readings) ==> l != [] && Stripped(l)
  {
    if readings != [] {
      var n := |readings| - 1;
      EchoedStripped(readings[..n]);
      if !SerialCore.Inert(readings[n]) {
        StripStripped(readings[n].raw);
      }
    }
  }

  /** The reader thread over a finite run of readings: blank lines are skipped, errors are reported and reading goes on. */
  method ReadArduino(readings: seq<SerialCore.ReadResult>) returns (shown: seq<string>)
    ensures shown == Echoed(readings)
  {
    shown := [];
    var i := 0;
    while i < |readings|
      invariant i <= |readings|
      invariant shown == Echoed(readings[..i])
    {
      assert readings[..i + 1][..i] == readings[..i];
      var r := readings[i];
      if r.Got? {
        var line := Strip(r.raw);
        if line != [] {
          shown := shown + [line];
        }
      }
      i := i + 1;
    }
    assert readings[..i] == readings;
  }

  // ------------------------------------------------------------------
  // MovellaManager
  // ------------------------------------------------------------------

  /** One device's outcomes: the BLE connect and `configure_sensor`. */
  datatype Link = Link(connect: bool, configure: bool)

  /** A device is appended only when it connects and configures. */
  predicate Linked(l: Link) {
    l.connect && l.configure
  }

  function LinkFlags(links: seq<Link>): (flags: seq<bool>)
    ensures |flags| == |links|
    ensures forall i :: 0 <= i < |links| ==> flags[i] == Linked(links[i])
  {
    seq(|links|, i requires 0 <= i < |links| => Linked(links[i]))
  }

  class MovellaManager {
    var sensors: seq<Device>

    constructor ()
      ensures sensors == []
    {
      sensors := [];
    }

    /**
     * `_connect_sensors`: the first five Movella DOT devices in scan order, each appended
     * once it connects and configures; a failing device does not stop the others.
     */
    method ConnectSensors(devices: seq<Device>, links: seq<Link>)
      requires |links| == |Candidates(devices)|
      modifies this
      ensures sensors == old(sensors) + SerialCore.Select(Candidates(devices), LinkFlags(links), true)
    {
      var dots := FirstFive(DotDevices(devices));
      if dots == [] {
        assert sensors == old(sensors) + [];
        return;
      }
      ghost var linked := LinkFlags(links);
      var i := 0;
      while i < |dots|
        invariant i <= |dots|
        invariant sensors == old(sensors) + SerialCore.Select(dots[..i], linked[..i], true)
      {
        SerialCore.SelectStep(dots, linked, true, i);
        if links[i].connect && links[i].configure {
          Associative(old(sensors), SerialCore.Select(dots[..i], linked[..i], true), [dots[i]]);
          sensors := sensors + [dots[i]];
        }
        i := i + 1;
      }
      SerialCore.SelectWhole(dots, linked, true);
    }

    /** `_start_recording`: one `start_recording` per sensor, none when the list is empty. */
    method StartRecording() returns (calls: seq<Call>)
      ensures calls == Each(sensors, Begin)
      ensures |calls| == |sensors| && (sensors == [] ==> calls == [])
      ensures forall d :: OnSensor(Begin, d) in calls <==> d in sensors
      ensures forall c :: c in calls ==> c.OnSensor? && c.op == Begin
    {
      if sensors == [] {
        return [];
      }
      calls := Each(sensors, Begin);
    }

    /** `_stop_recording`: one `stop_recording` per sensor, none when the list is empty. */
    method StopRecording() returns (calls: seq<Call>)
      ensures calls == Each(sensors, End)
      ensures |calls| == |sensors| && (sensors == [] ==> calls == [])
      ensures forall d :: OnSensor(End, d) in calls <==> d in sensors
      ensures forall c :: c in calls ==> c.OnSensor? && c.op == End
    {
      if sensors == [] {
        return [];
      }
      calls := Each(sensors, End);
    }
  }

  /** Every connected sensor is started by `_start_recording`, and only those; an empty list issues nothing. */
  lemma StartReachesEverySensor(sensors: seq<Device>, dev: Device)
    ensures OnSensor(Begin, dev) in Each(sensors, Begin) <==> dev in sensors
    ensures OnSensor(End, dev) !in Each(sensors, Begin) && OnSensor(Release, dev) !in Each(sensors, Begin)
    ensures sensors == [] ==> Each(sensors, Begin) == [] && Each(sensors, End) == []
  {
    EachApplies(sensors, Begin, dev);
  }

  /** The sensors kept are Movella DOT devices, at most five, that connected and configured. */
  lemma {:induction false} KeptSensors(devices: seq<Device>, links: seq<Link>)
    requires |links| == |Candidates(devices)|
    ensures var kept := SerialCore.Select(Candidates(devices), LinkFlags(links), true);
      |kept| <= MAX_SENSORS && forall d :: d in kept ==> IsDot(d)
  {
    var c := Candidates(devices);
    SerialCore.SelectMembers(c, LinkFlags(links), true);
    forall i | 0 <= i < |c| ensures IsDot(c[i]) {
      assert c[i] == DotDevices(devices)[i];
    }
  }

  // ------------------------------------------------------------------
  // The console
  // ------------------------------------------------------------------

  /** How many times `x` occurs in `s`. */
  function Count<T(==)>(s: seq<T>, x: T): nat {
    if s == [] then 0
    else Count(s[..|s| - 1], x) + (if s[|s| - 1] == x then 1 else 0)
  }

  lemma {:induction false} CountConcat<T>(a: seq<T>, b: seq<T>, x: T)
    ensures Count(a + b, x) == Count(a, x) + Count(b, x)
    decreases |b|
  {
    if b == [] {
      assert a + b == a;
    } else {
      var n := |b| - 1;
      assert (a + b)[..|a + b| - 1] == a + b[..n];
      assert (a + b)[|a + b| - 1] == b[n];
      assert Count(a + b, x) == Count(a + b[..n], x) + (if b[n] == x then 1 else 0);
      assert Count(b, x) == Count(b[..n], x) + (if b[n] == x then 1 else 0);
      CountConcat(a, b[..n], x);
    }
  }

  /**
   * No latch: every `a` sends one serial START and one sensor start, every `s` one
   * serial STOP and one sensor stop, however many came before.
   */
  lemma {:induction false} EveryAnswerCounts(cmds: seq<Command>)
    ensures var e := Effects(CombinedConsole, cmds);
      && Count(e, Send(StartOrder)) == Count(cmds, Start) && Count(e, StartSensors) == Count(cmds, Start)
      && Count(e, Send(StopOrder)) == Count(cmds, Stop) && Count(e, StopSensors) == Count(cmds, Stop)
  {
    if cmds != [] {
      var n := |cmds| - 1;
      var e, r := Effects(CombinedConsole, cmds[..n]), Reaction(CombinedConsole, cmds[n]);
      EveryAnswerCounts(cmds[..n]);
      CountConcat(e, r, Send(StartOrder));
      CountConcat(e, r, StartSensors);
      CountConcat(e, r, Send(StopOrder));
      CountConcat(e, r, StopSensors);
      ReactionCounts(cmds[n]);
    }
  }

  /** What one answer adds to the counts of `EveryAnswerCounts`. */
  lemma ReactionCounts(c: Command)
    ensures var r := Reaction(CombinedConsole, c);
      && Count(r, Send(StartOrder)) == Count(r, StartSensors) == (if c == Start then 1 else 0)
      && Count(r, Send(StopOrder)) == Count(r, StopSensors) == (if c == Stop then 1 else 0)
  {
    var r := Reaction(CombinedConsole, c);
    if |r| == 2 {
      assert r[..1][..0] == [] && r[..1][0] == r[0];
      assert forall x :: Count(r, x) == Count(r[..1], x) + (if r[1] == x then 1 else 0);
      assert forall x :: Count(r[..1], x) == (if r[0] == x then 1 else 0);
    }
  }

  /**
   * The whole program: open the ports and exit when none opened; otherwise connect the
   * sensors and run the console until `q`, after which every open port is closed.
   */
  method Uniti(targets: seq<SerialCore.Port>, openOk: seq<bool>, devices: seq<Device>, links: seq<Link>, inputs: seq<string>)
    returns (arduinos: seq<SerialCore.Port>, exited: bool, kept: seq<Device>, effects: seq<Effect>, closed: seq<SerialCore.Port>)
    requires |openOk| == |targets| && |links| == |Candidates(devices)|
    ensures arduinos == SerialCore.Select(targets, openOk, true)
    ensures exited <==> arduinos == []
    ensures exited ==> kept == [] && effects == [] && closed == []
    ensures !exited ==> kept == SerialCore.Select(Candidates(devices), LinkFlags(links), true)
    ensures !exited ==> var s := Dispatch(CombinedConsole, Commands(inputs));
      effects == s.effects && closed == (if s.quit then arduinos else [])
  {
    arduinos := SerialCore.OpenPorts(targets, openOk);
    if arduinos == [] {
      return arduinos, true, [], [], [];
    }
    exited := false;
    var movella := new MovellaManager();
    movella.ConnectSensors(devices, links);
    kept := movella.sensors;
    effects, closed := ConsoleLoop(CombinedConsole, arduinos, inputs);
  }
}
