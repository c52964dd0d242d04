// The top levels of gopro/goproManager.py and movella/uniti.py: the shared start-up
// (open the ports, load the networks, provision each port), then the part that differs.
// A serial call that raises during provisioning is not caught, so it ends the script
// there: no later port is provisioned, no console runs and no port is closed.

module Programs {
  import opened Options
  import opened SerialCore
  import opened Console
  import opened Sensors
  import MovellaUniti

  /** The provisioning loop ended at a serial call that raised: only its last turn can. */
  predicate Raised(results: seq<Provisioning>) {
    results != [] && results[|results| - 1].Crashed?
  }

  /**
   * gopro/goproManager.py: the start-up, then the registry console until `q`, then every
   * open port is closed. `faults[i]` and `batches[i]` belong to the `i`-th open port;
   * `before` is the chain of registries the provisioning turns pass through.
   */
  method GoproManager(reg: Registry, targets: seq<Port>, openOk: seq<bool>, file: Option<seq<string>>,
                      faults: seq<Option<nat>>, batches: seq<seq<seq<ReadResult>>>, inputs: seq<string>)
    returns (arduinos: seq<Port>, exited: bool, results: seq<Provisioning>, effects: seq<Effect>, closed: seq<Port>,
             ghost before: seq<map<Port, PortState>>)
    requires |openOk| == |targets| && |faults| >= |targets| && |batches| >= |targets|
    modifies reg
    ensures arduinos == Select(targets, openOk, true)
    ensures exited <==> arduinos == []
    ensures !exited && !Raised(results) ==> |results| == |arduinos|
    ensures Raised(results) ==> !exited
    ensures forall i :: 0 <= i < |results| - 1 ==> !results[i].Crashed?
    ensures exited ==> results == []
    ensures |before| == |results| + 1 && before[|results|] == reg.states
    ensures before[0].Keys == old(reg.states).Keys + set p | p in arduinos
    ensures forall p :: p in arduinos ==> before[0][p] == OpenRecord
    ensures forall p :: p in old(reg.states) && p !in arduinos ==> before[0][p] == old(reg.states)[p]
    ensures |results| <= |arduinos| && forall i :: 0 <= i <= |results| ==> before[i].Keys == before[0].Keys
    ensures var nets := if file.Some? then Networks(file.value) else [];
      forall i :: 0 <= i < |results| ==>
        (results[i], before[i + 1]) == ProvisionOne(before[i], arduinos[i], NetworkAt(nets, i), faults[i], batches[i])
    ensures exited || Raised(results) ==> effects == [] && closed == []
    ensures !exited && !Raised(results) ==> var s := Dispatch(RegistryConsole, Commands(inputs));
      effects == s.effects && closed == (if s.quit then arduinos else [])
  {
    arduinos, exited, results, before := reg.Startup(targets, openOk, file, faults, batches);
    if exited || Raised(results) {
      return arduinos, exited, results, [], [], before;
    }
    effects, closed := ConsoleLoop(RegistryConsole, arduinos, inputs);
  }

  /**
   * movella/uniti.py: the start-up, then the console thread sets the events and
   * `movella_manager` runs the sensors; the ports are closed when it returns. `ran` is
   * the manager's run, absent when the script ended before it; `before` is the chain of
   * registries the provisioning turns pass through.
   */
  method MovellaUnitiMain(reg: Registry, targets: seq<Port>, openOk: seq<bool>, file: Option<seq<string>>,
                          faults: seq<Option<nat>>, batches: seq<seq<seq<ReadResult>>>, inputs: seq<string>,
                          devices: seq<Device>, trials: seq<MovellaUniti.Trial>)
    returns (arduinos: seq<Port>, exited: bool, results: seq<Provisioning>, ran: Option<Run>, closed: seq<Port>,
             ghost before: seq<map<Port, PortState>>)
    requires |openOk| == |targets| && |faults| >= |targets| && |batches| >= |targets|
    requires |trials| == |DotDevices(devices)|
    modifies reg
    ensures arduinos == Select(targets, openOk, true)
    ensures exited <==> arduinos == []
    ensures !exited && !Raised(results) ==> |results| == |arduinos|
    ensures Raised(results) ==> !exited
    ensures forall i :: 0 <= i < |results| - 1 ==> !results[i].Crashed?
    ensures exited ==> results == []
    ensures |before| == |results| + 1 && before[|results|] == reg.states
    ensures before[0].Keys == old(reg.states).Keys + set p | p in arduinos
    ensures forall p :: p in arduinos ==> before[0][p] == OpenRecord
    ensures forall p :: p in old(reg.states) && p !in arduinos ==> before[0][p] == old(reg.states)[p]
    ensures |results| <= |arduinos| && forall i :: 0 <= i <= |results| ==> before[i].Keys == before[0].Keys
    ensures var nets := if file.Some? then Networks(file.value) else [];
      forall i :: 0 <= i < |results| ==>
        (results[i], before[i + 1]) == ProvisionOne(before[i], arduinos[i], NetworkAt(nets, i), faults[i], batches[i])
    ensures ran.None? <==> exited || Raised(results)
    ensures ran.Some? ==>
      var sensors := Select(DotDevices(devices), MovellaUniti.KeptFlags(trials), true);
      ran.value == (if sensors == [] then Run([], true) else MovellaUniti.Session(sensors, MovellaUniti.Listen(Commands(inputs))))
    ensures closed == (if ran.Some? && ran.value.returned then arduinos else [])
  {
    arduinos, exited, results, before := reg.Startup(targets, openOk, file, faults, batches);
    if exited || Raised(results) {
      return arduinos, exited, results, None, [], before;
    }
    var events := new MovellaUniti.Events();
    events.CommandInterface(inputs);
    var run, _ := MovellaUniti.MovellaManager(devices, trials, MovellaUniti.Signals(events.start, events.stop));
    ran := Some(run);
    closed := if run.returned then arduinos else [];
  }
}
