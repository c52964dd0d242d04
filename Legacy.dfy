/**
 * goproManager.py: the earlier serial-only controller. Its reader keeps no registry and
 * only reports the lines it recognises, and it gives up at the first read error; every
 * `send_command` starts one writer thread per port and does not wait for them; a
 * monitor thread sends STATUS to every port at each tick; `status` at the console also
 * sends STATUS.
 */
module Legacy {
  import opened Strings
  import opened Console
  import SerialCore

  // ------------------------------------------------------------------
  // read_arduino
  // ------------------------------------------------------------------

  /** How the reader reports a non-empty line. */
  datatype Notice =
    | Ready                     // `READY`
    | Recorder(word: string)    // `STARTED` or `STOPPED`
    | WifiState(word: string)   // `CONNECTED` or `DISCONNECTED`
    | Echo(line: string)        // anything else, shown as it came

  /** The reader's branches: only four keywords are recognised; `NO_SSID` and `NO_PASS` are not among them. */
  function Describe(line: string): Notice {
    if line == SerialCore.READY then Ready
    else if line == SerialCore.STARTED || line == SerialCore.STOPPED then Recorder(line)
    else if line == SerialCore.CONNECTED || line == SerialCore.DISCONNECTED then WifiState(line)
    else Echo(line)
  }

  /** The line a notice reports. */
  function LineOf(n: Notice): string {
    match n
    case Ready => SerialCore.READY
    case Recorder(w) => w
    case WifiState(w) => w
    case Echo(l) => l
  }

  /**
   * Each notice names its line again, and it falls in the same class as the field the
   * registry-keeping readers would write, except for the Wi-Fi states those readers
   * also take from `NO_SSID` and `NO_PASS`, which are only echoed here.
   */
  lemma DescribeAgrees(line: string)
    ensures LineOf(Describe(line)) == line
    ensures Describe(line).Ready? <==> SerialCore.Target(line) == SerialCore.Status
    ensures Describe(line).Recorder? <==> SerialCore.Target(line) == SerialCore.LastCmd
    ensures Describe(line).WifiState? <==> SerialCore.Target(line) == SerialCore.Wifi && line != SerialCore.NO_SSID && line != SerialCore.NO_PASS
    ensures line == SerialCore.NO_SSID || line == SerialCore.NO_PASS ==> Describe(line) == Echo(line)
  {
  }

  /** What one read makes the reader report: nothing for a failed read or a line that is blank once stripped. */
  function Heard(r: SerialCore.ReadResult): seq<Notice> {
    if SerialCore.Inert(r) then [] else [Describe(Strip(r.raw))]
  }

  /** The notices of a run of reads that all happen, in order. */
  function Reported(readings: seq<SerialCore.ReadResult>): seq<Notice> {
    if readings == [] then []
    else Reported(readings[..|readings| - 1]) + Heard(readings[|readings| - 1])
  }

  /** How many reads succeed before the first failed one (all of them when none fails). */
  function BeforeFailure(readings: seq<SerialCore.ReadResult>): (n: nat)
    ensures n <= |readings|
    ensures n < |readings| ==> readings[n] == SerialCore.ReadFailed
    ensures SerialCore.ReadFailed !in readings[..n]
  {
    if readings == [] then 0
    else if readings[0] == SerialCore.ReadFailed then 0
    else
      var n := BeforeFailure(readings[1..]);
      assert readings[..n + 1] == [readings[0]] + readings[1..][..n];
      1 + n
  }

  /** The notices of the reader thread: the reads before the first failure, since a failure ends it. */
  function Notices(readings: seq<SerialCore.ReadResult>): seq<Notice> {
    Reported(readings[..BeforeFailure(readings)])
  }

  /** A run with no failure in its first `i` reads and a failure (or its end) at `i` stops at `i`. */
  lemma FailureAt(readings: seq<SerialCore.ReadResult>, i: nat)
    requires i <= |readings| && SerialCore.ReadFailed !in readings[..i]
    requires i < |readings| ==> readings[i] == SerialCore.ReadFailed
    ensures BeforeFailure(readings) == i
  {
  }

  /** A failed read the reader reaches is the first one. */
  lemma FailsHere(readings: seq<SerialCore.ReadResult>, i: nat)
    requires i <= BeforeFailure(readings) && i < |readings| && readings[i] == SerialCore.ReadFailed
    ensures BeforeFailure(readings) == i
  {
  }

  /** Notices of consecutive runs of reads are concatenated. */
  lemma {:induction false} ReportedConcat(a: seq<SerialCore.ReadResult>, b: seq<SerialCore.ReadResult>)
    ensures Reported(a + b) == Reported(a) + Reported(b)
    decreases |b|
  {
    if b == [] {
      assert a + b == a;
    } else {
      var n := |b| - 1;
      assert (a + b)[..|a + b| - 1] == a + b[..n];
      assert (a + b)[|a + b| - 1] == b[n];
      assert Reported(a + b) == Reported(a + b[..n]) + Heard(b[n]);
      assert Reported(b) == Reported(b[..n]) + Heard(b[n]);
      ReportedConcat(a, b[..n]);
    }
  }

  /** A read error ends the reader: nothing after it is ever reported. */
  lemma StopsAtFailure(a: seq<SerialCore.ReadResult>, b: seq<SerialCore.ReadResult>)
    requires SerialCore.ReadFailed !in a
    ensures Notices(a + [SerialCore.ReadFailed] + b) == Reported(a)
  {
    var all := a + [SerialCore.ReadFailed] + b;
    assert all[..|a|] == a;
    FailureAt(all, |a|);
  }

  /** Without a failure every read is handled, so a run that fails nowhere is reported whole. */
  lemma NoFailureReportsAll(readings: seq<SerialCore.ReadResult>)
    requires SerialCore.ReadFailed !in readings
    ensures Notices(readings) == Reported(readings)
  {
    assert readings[..|readings|] == readings;
    FailureAt(readings, |readings|);
  }

  /**
   * The reader thread: reports each non-blank line and leaves the loop at the first
   * failed read. `taken` is how many reads it made, the failed one included.
   */
  method ReadArduino(readings: seq<SerialCore.ReadResult>) returns (notices: seq<Notice>, taken: nat)
    ensures notices == Notices(readings)
    ensures taken == if BeforeFailure(readings) < |readings| then BeforeFailure(readings) + 1 else |readings|
  {
    notices := [];
    taken := 0;
    while taken < |readings|
      invariant taken <= BeforeFailure(readings)
      invariant notices == Reported(readings[..taken])
    {
      var r := readings[taken];
      if r.ReadFailed? {
        FailsHere(readings, taken);
        taken := taken + 1;
        return;
      }
      assert readings[..taken + 1][..taken] == readings[..taken];
      var heard := Report(r);
      notices := notices + heard;
      taken := taken + 1;
    }
  }

  /**
   * One read: nothing for a line that is blank once stripped; otherwise one notice that
   * repeats the stripped line, in the class its keyword selects.
   */
  method Report(r: SerialCore.ReadResult) returns (heard: seq<Notice>)
    requires r.Got?
    ensures heard == Heard(r)
    ensures Strip(r.raw) == [] <==> heard == []
    ensures heard != [] ==> var line := Strip(r.raw);
      && |heard| == 1 && LineOf(heard[0]) == line
      && (heard[0].Ready? <==> line == SerialCore.READY)
      && (heard[0].Recorder? <==> line == SerialCore.STARTED || line == SerialCore.STOPPED)
      && (heard[0].WifiState? <==> line == SerialCore.CONNECTED || line == SerialCore.DISCONNECTED)
  {
    var line := Strip(r.raw);
    DescribeAgrees(line);
    if line == [] {
      return [];
    }
    heard := [Describe(line)];
  }

  // ------------------------------------------------------------------
  // send_command and monitor_status
  // ------------------------------------------------------------------

  /**
   * The threaded `send_command`: one writer thread per port, none joined. The writes can
   * land in any order, so what the call does is the bag of its attempts.
   */
  method SendCommand(ports: seq<SerialCore.Port>, cmd: string, writeOk: seq<bool>)
    returns (writes: multiset<SerialCore.Attempt>)
    requires |writeOk| == |ports|
    ensures writes == multiset(SerialCore.FanOut(ports, cmd, writeOk))
  {
    writes := multiset{};
    var i := 0;
    while i < |ports|
      invariant i <= |ports|
      invariant writes == multiset(SerialCore.FanOut(ports, cmd, writeOk)[..i])
    {
      assert SerialCore.FanOut(ports, cmd, writeOk)[..i + 1]
        == SerialCore.FanOut(ports, cmd, writeOk)[..i] + [SerialCore.Attempt(ports[i], cmd + "\n", writeOk[i])];
      writes := writes + multiset{SerialCore.Attempt(ports[i], cmd + "\n", writeOk[i])};
      i := i + 1;
    }
    assert SerialCore.FanOut(ports, cmd, writeOk)[..i] == SerialCore.FanOut(ports, cmd, writeOk);
  }

  /**
   * Every port gets exactly one attempt, with its own outcome, whatever the other ports'
   * outcomes; nothing else is written.
   */
  lemma OneAttemptPerPort(ports: seq<SerialCore.Port>, cmd: string, writeOk: seq<bool>, i: nat)
    requires |writeOk| == |ports| && i < |ports|
    requires forall j, k :: 0 <= j < k < |ports| ==> ports[j] != ports[k]
    ensures var writes := multiset(SerialCore.FanOut(ports, cmd, writeOk));
      && writes[SerialCore.Attempt(ports[i], cmd + "\n", writeOk[i])] == 1
      && writes[SerialCore.Attempt(ports[i], cmd + "\n", !writeOk[i])] == 0
      && |writes| == |ports|
  {
    var f := SerialCore.FanOut(ports, cmd, writeOk);
    var a := SerialCore.Attempt(ports[i], cmd + "\n", writeOk[i]);
    var b := SerialCore.Attempt(ports[i], cmd + "\n", !writeOk[i]);
    assert f == f[..i] + [a] + f[i + 1..];
    assert a !in f[..i] && a !in f[i + 1..] by {
      forall j | 0 <= j < |f| && j != i ensures f[j] != a {
        assert f[j].port == ports[j];
      }
    }
    assert b !in f by {
      forall j | 0 <= j < |f| ensures f[j] != b {
        assert f[j].port == ports[j];
      }
    }
    assert multiset(f)[a] == multiset(f[..i])[a] + multiset([a])[a] + multiset(f[i + 1..])[a];
  }

  /**
   * `monitor_status` over a finite number of ticks: each tick is one threaded STATUS
   * round over all ports; `ticks[k]` holds the write outcomes of round `k`.
   */
  method MonitorStatus(ports: seq<SerialCore.Port>, ticks: seq<seq<bool>>)
    returns (rounds: seq<multiset<SerialCore.Attempt>>)
    requires forall k :: 0 <= k < |ticks| ==> |ticks[k]| == |ports|
    ensures |rounds| == |ticks|
    ensures forall k :: 0 <= k < |ticks| ==> rounds[k] == multiset(SerialCore.FanOut(ports, StatusOrder.Wire(), ticks[k]))
  {
    rounds := [];
    var k := 0;
    while k < |ticks|
      invariant k <= |ticks|
      invariant |rounds| == k
      invariant forall j :: 0 <= j < k ==> rounds[j] == multiset(SerialCore.FanOut(ports, StatusOrder.Wire(), ticks[j]))
    {
      var writes := SendCommand(ports, StatusOrder.Wire(), ticks[k]);
      rounds := rounds + [writes];
      k := k + 1;
    }
  }

  // ------------------------------------------------------------------
  // The program
  // ------------------------------------------------------------------

  /**
   * The whole program: open the ports and exit when none opened; otherwise start the
   * monitor and run the console until `q`, after which every open port is closed.
   */
  method GoPro(targets: seq<SerialCore.Port>, openOk: seq<bool>, inputs: seq<string>)
    returns (arduinos: seq<SerialCore.Port>, monitored: bool, effects: seq<Effect>, closed: seq<SerialCore.Port>)
    requires |openOk| == |targets|
    ensures arduinos == SerialCore.Select(targets, openOk, true)
    ensures monitored <==> arduinos != []
    ensures !monitored ==> effects == [] && closed == []
    ensures monitored ==> var s := Dispatch(BroadcastConsole, Commands(inputs));
      effects == s.effects && closed == (if s.quit then arduinos else [])
  {
    arduinos := SerialCore.OpenPorts(targets, openOk);
    if arduinos == [] {
      return arduinos, false, [], [];
    }
    monitored := true;
    effects, closed := ConsoleLoop(BroadcastConsole, arduinos, inputs);
  }

  /** At this console `status` sends STATUS to the devices; no answer touches the sensors. */
  lemma {:induction false} BroadcastWrites(cmds: seq<Command>)
    ensures forall e :: e in Effects(BroadcastConsole, cmds) ==> e.Send?
    ensures Send(StatusOrder) in Effects(BroadcastConsole, cmds) <==> Status in cmds
  {
    if cmds != [] {
      var n := |cmds| - 1;
      var e, r := Effects(BroadcastConsole, cmds[..n]), Reaction(BroadcastConsole, cmds[n]);
      BroadcastWrites(cmds[..n]);
      BroadcastAnswer(cmds[n]);
      assert Effects(BroadcastConsole, cmds) == e + r;
      assert forall x :: x in e + r <==> x in e || x in r;
      assert Status in cmds <==> Status in cmds[..n] || cmds[n] == Status by {
        assert cmds == cmds[..n] + [cmds[n]];
      }
    }
  }

  /** What one answer does at this console: only writes, and STATUS exactly for `status`. */
  lemma BroadcastAnswer(c: Command)
    ensures forall e :: e in Reaction(BroadcastConsole, c) ==> e.Send?
    ensures Send(StatusOrder) in Reaction(BroadcastConsole, c) <==> c == Status
  {
  }
}
