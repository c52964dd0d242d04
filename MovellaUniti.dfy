/**
 * movella/uniti.py beyond the serial core it shares with gopro/goproManager.py: the console
 * thread that sets the start and stop events (`command_interface`) and the Movella
 * session (`movella_manager`): sensor selection, the three-try configuration, and the
 * START-then-STOP sequence with serial devices commanded before sensors.
 *
 * The two threads meet only through the two events, which are never cleared, so the
 * session depends only on whether each event is eventually set.
 */
module MovellaUniti {
  import opened Console
  import opened Sensors
  import SerialCore

  // ------------------------------------------------------------------
  // command_interface
  // ------------------------------------------------------------------

  /** The answers that end the console thread: `s` and `q` both `break`. */
  predicate Ends(c: Command) {
    c == Stop || c == Quit
  }

  /** How many answers the console thread handles before the one that ends it (all, if none does). */
  function BeforeEnd(cmds: seq<Command>): (n: nat)
    ensures n <= |cmds|
    ensures n < |cmds| ==> Ends(cmds[n])
    ensures forall i :: 0 <= i < n ==> !Ends(cmds[i])
  {
    if cmds == [] then 0
    else if Ends(cmds[0]) then 0
    else
      var n := BeforeEnd(cmds[1..]);
      assert forall i :: 1 <= i < n + 1 ==> cmds[i] == cmds[1..][i - 1];
      1 + n
  }

  /** Whether the start and the stop event are set. */
  datatype Signals = Signals(start: bool, stop: bool)

  /**
   * The events the console thread sets: start when an `a` comes before the thread
   * ends, stop exactly when the thread ends on `s` (not on `q`).
   */
  function Listen(cmds: seq<Command>): (r: Signals)
    ensures r.start <==> Start in cmds[..BeforeEnd(cmds)]
    ensures r.stop <==> BeforeEnd(cmds) < |cmds| && cmds[BeforeEnd(cmds)] == Stop
  {
    if cmds == [] then Signals(false, false)
    else
      var n := BeforeEnd(cmds);
      if cmds[0] == Stop then Signals(false, true)
      else if cmds[0] == Quit then Signals(false, false)
      else
        var r := Listen(cmds[1..]);
        assert cmds[..n] == [cmds[0]] + cmds[1..][..n - 1];
        assert n < |cmds| ==> cmds[n] == cmds[1..][n - 1];
        if cmds[0] == Start then Signals(true, r.stop) else r
  }

  /** Answers after the one that ends the console thread are never read. */
  lemma ListenStopsAtEnd(a: seq<Command>, x: Command, b: seq<Command>)
    requires forall i :: 0 <= i < |a| ==> !Ends(a[i])
    requires Ends(x)
    ensures Listen(a + [x] + b) == Signals(Start in a, x == Stop)
  {
    var cmds := a + [x] + b;
    EndAt(cmds, |a|);
    assert cmds[..|a|] == a;
  }

  /** A thread that has met no ending answer in its first `i` and ends at `i` ends where `BeforeEnd` says. */
  lemma EndAt(cmds: seq<Command>, i: nat)
    requires i <= |cmds|
    requires forall j :: 0 <= j < i ==> !Ends(cmds[j])
    requires i < |cmds| ==> Ends(cmds[i])
    ensures BeforeEnd(cmds) == i
  {
  }

  /** `q` ends the console thread without setting the stop event. */
  lemma QuitNeverStops(a: seq<Command>, b: seq<Command>)
    requires forall i :: 0 <= i < |a| ==> !Ends(a[i])
    ensures !Listen(a + [Quit] + b).stop
  {
    ListenStopsAtEnd(a, Quit, b);
  }

  /** Both events are set by the console thread; the session reads them. */
  class Events {
    var start: bool
    var stop: bool

    constructor ()
      ensures !start && !stop
    {
      start, stop := false, false;
    }

    /** `command_interface`: each answer is classified, then handled in turn. */
    method CommandInterface(inputs: seq<string>)
      modifies this
      ensures var sig := Listen(Commands(inputs));
        start == (old(start) || sig.start) && stop == (old(stop) || sig.stop)
    {
      Handle(Commands(inputs));
    }

    /** `a` sets the start event and reads on; `s` sets the stop event and ends; `q` just ends. */
    method Handle(cmds: seq<Command>)
      modifies this
      ensures var sig := Listen(cmds);
        start == (old(start) || sig.start) && stop == (old(stop) || sig.stop)
    {
      var i := 0;
      while i < |cmds|
        invariant i <= |cmds|
        invariant forall j :: 0 <= j < i ==> !Ends(cmds[j])
        invariant start == (old(start) || Start in cmds[..i])
        invariant stop == old(stop)
      {
        assert cmds[..i + 1] == cmds[..i] + [cmds[i]];
        if cmds[i] == Start {
          start := true;
        } else if cmds[i] == Stop {
          stop := true;
          break;
        } else if cmds[i] == Quit {
          break;
        }
        i := i + 1;
      }
      EndAt(cmds, i);
    }
  }

  // ------------------------------------------------------------------
  // Sensor setup
  // ------------------------------------------------------------------

  /** `for attempt in range(3)`. */
  const CONFIGURE_TRIES := 3

  /** One device's outcomes: whether the BLE link came up and stayed up, and each configure attempt's outcome. */
  datatype Trial = Trial(linked: bool, configureOk: seq<bool>)

  /** Whether configure attempt `k` succeeds (attempts beyond the list fail). */
  predicate ConfigureOk(t: Trial, k: nat) {
    k < |t.configureOk| && t.configureOk[k]
  }

  predicate Configured(t: Trial) {
    exists k :: 0 <= k < CONFIGURE_TRIES && ConfigureOk(t, k)
  }

  /** A device whose link came up and one of whose three configure attempts succeeded. */
  predicate Kept(t: Trial) {
    t.linked && Configured(t)
  }

  /** A device whose link came up but which never configured: it is disconnected again. */
  predicate Dropped(t: Trial) {
    t.linked && !Configured(t)
  }

  function KeptFlags(trials: seq<Trial>): (flags: seq<bool>)
    ensures |flags| == |trials|
    ensures forall i :: 0 <= i < |trials| ==> flags[i] == Kept(trials[i])
  {
    seq(|trials|, i requires 0 <= i < |trials| => Kept(trials[i]))
  }

  function DroppedFlags(trials: seq<Trial>): (flags: seq<bool>)
    ensures |flags| == |trials|
    ensures forall i :: 0 <= i < |trials| ==> flags[i] == Dropped(trials[i])
  {
    seq(|trials|, i requires 0 <= i < |trials| => Dropped(trials[i]))
  }

  /**
   * The retry loop: stops at the first successful attempt, gives up after three;
   * no attempt is made past the first success.
   */
  method Configure(t: Trial) returns (tries: nat, ok: bool)
    ensures ok <==> Configured(t)
    ensures 1 <= tries <= CONFIGURE_TRIES
    ensures ok ==> ConfigureOk(t, tries - 1)
    ensures forall k :: 0 <= k < tries - 1 ==> !ConfigureOk(t, k)
    ensures !ok ==> tries == CONFIGURE_TRIES
  {
    tries, ok := 0, false;
    while tries < CONFIGURE_TRIES
      invariant tries <= CONFIGURE_TRIES
      invariant forall k :: 0 <= k < tries ==> !ConfigureOk(t, k)
    {
      tries := tries + 1;
      if ConfigureOk(t, tries - 1) {
        ok := true;
        return;
      }
    }
  }

  /**
   * The connection loop of `movella_manager`: each Movella DOT device in turn; one
   * device's failure does not stop the others. A sensor is kept when its link is up and
   * one configure attempt succeeds; one whose link came up but never configured is
   * disconnected.
   */
  method SetupSensors(dots: seq<Device>, trials: seq<Trial>) returns (sensors: seq<Device>, released: seq<Device>)
    requires |trials| == |dots|
    ensures sensors == SerialCore.Select(dots, KeptFlags(trials), true)
    ensures released == SerialCore.Select(dots, DroppedFlags(trials), true)
  {
    sensors, released := [], [];
    ghost var kept, dropped := KeptFlags(trials), DroppedFlags(trials);
    var i := 0;
    while i < |dots|
      invariant i <= |dots|
      invariant sensors == SerialCore.Select(dots[..i], kept[..i], true)
      invariant released == SerialCore.Select(dots[..i], dropped[..i], true)
    {
      SerialCore.SelectStep(dots, kept, true, i);
      SerialCore.SelectStep(dots, dropped, true, i);
      if trials[i].linked {
        var tries, ok := Configure(trials[i]);
        if ok {
          sensors := sensors + [dots[i]];
        } else {
          released := released + [dots[i]];
        }
      }
      i := i + 1;
    }
    SerialCore.SelectWhole(dots, kept, true);
    SerialCore.SelectWhole(dots, dropped, true);
  }

  // ------------------------------------------------------------------
  // The session
  // ------------------------------------------------------------------

  /**
   * The session once sensors are configured: it waits for the start event, sends START
   * to the serial devices and starts every sensor, waits for the stop event, sends STOP
   * and stops every sensor, then disconnects every sensor. An event that is never set
   * leaves it waiting.
   */
  function Session(sensors: seq<Device>, sig: Signals): Run {
    if !sig.start then Run([], false)
    else if !sig.stop then Run([SerialStart] + Each(sensors, Begin), false)
    else Run([SerialStart] + Each(sensors, Begin) + [SerialStop] + Each(sensors, End) + Each(sensors, Release), true)
  }

  /** Serial before sensors, START before STOP, every stop before any disconnect. */
  lemma SessionOrdered(sensors: seq<Device>, sig: Signals)
    ensures Ordered(Session(sensors, sig).trace)
  {
    var b := Each(sensors, Begin);
    var e := Each(sensors, End);
    var d := Each(sensors, Release);
    OrderedConcat([SerialStart], b);
    OrderedConcat([SerialStart] + b, [SerialStop]);
    OrderedConcat([SerialStart] + b + [SerialStop], e);
    OrderedConcat([SerialStart] + b + [SerialStop] + e, d);
  }

  /**
   * Which sensor calls a session makes: every sensor is started exactly when the start
   * event is set, and stopped and disconnected exactly when both events are set; the
   * serial STOP needs both events as well, and only then does the session return.
   */
  lemma SessionCalls(sensors: seq<Device>, sig: Signals, dev: Device)
    ensures var t := Session(sensors, sig).trace;
      && (SerialStart in t <==> sig.start)
      && (SerialStop in t <==> sig.start && sig.stop)
      && (OnSensor(Begin, dev) in t <==> sig.start && dev in sensors)
      && (OnSensor(End, dev) in t <==> sig.start && sig.stop && dev in sensors)
      && (OnSensor(Release, dev) in t <==> sig.start && sig.stop && dev in sensors)
    ensures Session(sensors, sig).returned <==> sig.start && sig.stop
  {
    EachApplies(sensors, Begin, dev);
    EachApplies(sensors, End, dev);
    EachApplies(sensors, Release, dev);
    var b := Each(sensors, Begin);
    var e := Each(sensors, End);
    var d := Each(sensors, Release);
    assert SerialStop !in b && SerialStop !in e && SerialStop !in d;
    assert SerialStart !in b && SerialStart !in e && SerialStart !in d;
  }

  /**
   * `movella_manager`: returns at once when no Movella DOT device is found or none
   * could be configured; otherwise runs the session.
   */
  method MovellaManager(devices: seq<Device>, trials: seq<Trial>, sig: Signals) returns (run: Run, released: seq<Device>)
    requires |trials| == |DotDevices(devices)|
    ensures var dots := DotDevices(devices);
      var sensors := SerialCore.Select(dots, KeptFlags(trials), true);
      && run == (if sensors == [] then Run([], true) else Session(sensors, sig))
      && released == SerialCore.Select(dots, DroppedFlags(trials), true)
  {
    var dots := DotDevices(devices);
    if dots == [] {
      return Run([], true), [];
    }
    var sensors;
    sensors, released := SetupSensors(dots, trials);
    if sensors == [] {
      return Run([], true), released;
    }
    if !sig.start {
      return Run([], false), released;
    }
    var trace := [SerialStart] + Each(sensors, Begin);
    if !sig.stop {
      return Run(trace, false), released;
    }
    trace := trace + [SerialStop] + Each(sensors, End);
    ghost var stopped := trace;
    var i := 0;
    while i < |sensors|
      invariant i <= |sensors|
      invariant trace == stopped + Each(sensors[..i], Release)
    {
      assert Each(sensors[..i + 1], Release) == Each(sensors[..i], Release) + [OnSensor(Release, sensors[i])];
      trace := trace + [OnSensor(Release, sensors[i])];
      i := i + 1;
    }
    assert sensors[..i] == sensors;
    run := Run(trace, true);
  }

  /**
   * The program as written: if the console thread ends before any `a` (an `s` or a `q`
   * first), the start event is never set, so with sensors configured no START is ever
   * sent and `movella_manager` never returns: the ports are never closed.
   */
  lemma EndBeforeStartHangs(sensors: seq<Device>, cmds: seq<Command>)
    requires sensors != []
    requires cmds != [] && Ends(cmds[0])
    ensures Session(sensors, Listen(cmds)) == Run([], false)
  {
    EndAt(cmds, 0);
  }
}
