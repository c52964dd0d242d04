/**
 * The Bluetooth side shared by movella/uniti.py, movella/recording2.py and uniti.py: which
 * scanned devices are taken for Movella DOT sensors, and the session trace of start,
 * stop and disconnect calls made on the sensors kept.
 *
 * The scan, the connections and the sensor library are oracles: each outcome is an input.
 */
module Sensors {
  import opened Options
  import opened Strings

  /** One advertisement from `BleakScanner.discover`: `d.name` may be missing or empty. */
  datatype Device = Device(name: Option<string>, address: string)

  const DOT_NAME := "Movella DOT"

  /** At most this many sensors are used by movella/recording2.py and uniti.py. */
  const MAX_SENSORS := 5

  /** `d.name and "Movella DOT" in d.name`. */
  predicate IsDot(d: Device) {
    d.name.Some? && d.name.value != [] && Contains(d.name.value, DOT_NAME)
  }

  /** `[d for d in devices if d.name and "Movella DOT" in d.name]`. */
  function DotDevices(devices: seq<Device>): (r: seq<Device>)
    ensures |r| <= |devices|
    ensures forall d :: d in r ==> IsDot(d)
  {
    if devices == [] then []
    else
      var n := |devices| - 1;
      DotDevices(devices[..n]) + (if IsDot(devices[n]) then [devices[n]] else [])
  }

  /** The filter keeps exactly the Movella DOT devices. */
  lemma {:induction false} DotDevicesMembers(devices: seq<Device>)
    ensures forall d :: d in DotDevices(devices) <==> d in devices && IsDot(d)
  {
    if devices != [] {
      var n := |devices| - 1;
      DotDevicesMembers(devices[..n]);
      assert devices == devices[..n] + [devices[n]];
    }
  }

  /** The filter keeps scan order: filtering a longer scan extends the filtered shorter one. */
  lemma {:induction false} DotDevicesConcat(a: seq<Device>, b: seq<Device>)
    ensures DotDevices(a + b) == DotDevices(a) + DotDevices(b)
    decreases |b|
  {
    if b == [] {
      assert a + b == a;
    } else {
      var n := |b| - 1;
      assert (a + b)[..|a + b| - 1] == a + b[..n];
      assert (a + b)[|a + b| - 1] == b[n];
      assert DotDevices(a + b) == DotDevices(a + b[..n]) + (if IsDot(b[n]) then [b[n]] else []);
      assert DotDevices(b) == DotDevices(b[..n]) + (if IsDot(b[n]) then [b[n]] else []);
      DotDevicesConcat(a, b[..n]);
    }
  }

  /** A device without a name, or with an empty one, is never taken. */
  lemma UnnamedNeverTaken(devices: seq<Device>, d: Device)
    requires d.name == None || d.name == Some("")
    ensures d !in DotDevices(devices)
  {
  }

  /** `dot_devices[:max_sensors]`: the first five in scan order. */
  function FirstFive(dots: seq<Device>): (r: seq<Device>)
    ensures |r| == if |dots| < MAX_SENSORS then |dots| else MAX_SENSORS
    ensures forall i :: 0 <= i < |r| ==> r[i] == dots[i]
  {
    if |dots| <= MAX_SENSORS then dots else dots[..MAX_SENSORS]
  }

  /** The devices movella/recording2.py and uniti.py try, in scan order. */
  function Candidates(devices: seq<Device>): seq<Device> {
    FirstFive(DotDevices(devices))
  }

  /** Past the first five Movella DOT devices, further scan results change nothing. */
  lemma CandidatesStable(a: seq<Device>, b: seq<Device>)
    requires |DotDevices(a)| >= MAX_SENSORS
    ensures Candidates(a + b) == Candidates(a)
  {
    var x, y := DotDevices(a), DotDevices(b);
    DotDevicesConcat(a, b);
    assert |x + y| > MAX_SENSORS || y == [];
    assert (x + y)[..MAX_SENSORS] == x[..MAX_SENSORS];
  }

  // ------------------------------------------------------------------
  // The session trace
  // ------------------------------------------------------------------

  /** What a session asks of every sensor: `start_recording`, `stop_recording` or a disconnect. */
  datatype SensorOp = Begin | End | Release

  /** A command that a session issues: a serial `send_command`, or one call on one sensor. */
  datatype Call = SerialStart | SerialStop | OnSensor(op: SensorOp, sensor: Device)

  /** One call per sensor, in list order: `asyncio.gather(*(f(s) for s in sensors))` issues them all. */
  function Each(sensors: seq<Device>, op: SensorOp): (r: seq<Call>)
    ensures |r| == |sensors|
    ensures forall i :: 0 <= i < |r| ==> r[i] == OnSensor(op, sensors[i])
    ensures forall c :: c in r ==> c.OnSensor? && c.op == op && c.sensor in sensors
  {
    seq(|sensors|, i requires 0 <= i < |sensors| => OnSensor(op, sensors[i]))
  }

  /** The calls a session makes, and whether its coroutine returns (rather than waiting forever on an event). */
  datatype Run = Run(trace: seq<Call>, returned: bool)

  /** Where a call stands in a session: the order every session must respect. */
  function Phase(c: Call): nat {
    match c
    case SerialStart => 0
    case OnSensor(Begin, _) => 1
    case SerialStop => 2
    case OnSensor(End, _) => 3
    case OnSensor(Release, _) => 4
  }

  /** The calls of a trace never go back to an earlier phase. */
  predicate Ordered(trace: seq<Call>) {
    forall i, j :: 0 <= i < j < |trace| ==> Phase(trace[i]) <= Phase(trace[j])
  }

  /** Two ordered traces, the second wholly in later phases, make an ordered trace. */
  lemma OrderedConcat(a: seq<Call>, b: seq<Call>)
    requires Ordered(a) && Ordered(b)
    requires forall i, j :: 0 <= i < |a| && 0 <= j < |b| ==> Phase(a[i]) <= Phase(b[j])
    ensures Ordered(a + b)
  {
    forall i, j | 0 <= i < j < |a + b| ensures Phase((a + b)[i]) <= Phase((a + b)[j]) {
      if j < |a| {
        assert (a + b)[i] == a[i] && (a + b)[j] == a[j];
      } else if i < |a| {
        assert (a + b)[i] == a[i] && (a + b)[j] == b[j - |a|];
      } else {
        assert (a + b)[i] == b[i - |a|] && (a + b)[j] == b[j - |a|];
      }
    }
  }

  /** `Each` applies `op`, and only `op`, to exactly the sensors of its list. */
  lemma EachApplies(sensors: seq<Device>, op: SensorOp, d: Device)
    ensures OnSensor(op, d) in Each(sensors, op) <==> d in sensors
    ensures forall op' :: op' != op ==> OnSensor(op', d) !in Each(sensors, op)
  {
    if d in sensors {
      var i :| 0 <= i < |sensors| && sensors[i] == d;
      assert Each(sensors, op)[i] == OnSensor(op, d);
    }
  }
}
