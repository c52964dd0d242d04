/**
 * The serial side shared, line for line, by gopro/goproManager.py and movella/uniti.py:
 * the per-port status registry (`arduino_states`) and the reader thread that writes it
 * (`read_arduino`), the command fan-out (`send_command`), the credential file parser
 * (`load_networks`), the Wi-Fi provisioning handshake (`connect_arduino`), the opening of
 * the ports and the index-based assignment of networks to ports.
 *
 * Serial I/O is an oracle: every write, open or readline outcome is an input.
 */
module SerialCore {
  import opened Options
  import opened Strings

  /** A serial port's name ("COM5"): `ser.port`, and the key of the registry. */
  type Port = string

  // Inbound keywords of the trigger firmware.
  const READY := "READY"
  const STARTED := "STARTED"
  const STOPPED := "STOPPED"
  const CONNECTED := "CONNECTED"
  const DISCONNECTED := "DISCONNECTED"
  const NO_SSID := "NO_SSID"
  const NO_PASS := "NO_PASS"

  // ------------------------------------------------------------------
  // The registry record and the inbound-line classifier
  // ------------------------------------------------------------------

  /** One port's dictionary in `arduino_states`; `None` is an absent key (or `last_cmd: None`). */
  datatype PortState = PortState(
    status: Option<string>,
    wifi: Option<string>,
    lastCmd: Option<string>,
    lastMsg: Option<string>)

  /** `{}`: what `arduino_states.get(port, {})` yields for a port that has no record. */
  const NoRecord := PortState(None, None, None, None)

  /** `{"status": "OPEN", "wifi": "NO_SSID", "last_cmd": None}`, stored when a port opens. */
  const OpenRecord := PortState(Some("OPEN"), Some(NO_SSID), None, None)

  /** The four keys of a port's dictionary. */
  datatype Field = Status | Wifi | LastCmd | LastMsg

  function FieldOf(rec: PortState, f: Field): Option<string> {
    match f
    case Status => rec.status
    case Wifi => rec.wifi
    case LastCmd => rec.lastCmd
    case LastMsg => rec.lastMsg
  }

  predicate IsWifiKeyword(line: string) {
    line == CONNECTED || line == DISCONNECTED || line == NO_SSID || line == NO_PASS
  }

  /** The key that a (stripped, non-empty) inbound line is stored under: the branch `read_arduino` takes. */
  function Target(line: string): Field {
    if line == READY then Status
    else if line == STARTED || line == STOPPED then LastCmd
    else if IsWifiKeyword(line) then Wifi
    else LastMsg
  }

  /** The record after one non-empty line: exactly the line's key is set, to the line itself. */
  function Absorb(rec: PortState, line: string): (r: PortState)
    ensures FieldOf(r, Target(line)) == Some(line)
    ensures forall f :: f != Target(line) ==> FieldOf(r, f) == FieldOf(rec, f)
  {
    match Target(line)
    case Status => rec.(status := Some(READY))
    case LastCmd => rec.(lastCmd := Some(line))
    case Wifi => rec.(wifi := Some(line))
    case LastMsg => rec.(lastMsg := Some(line))
  }

  /** `arduino_states.get(port, {})`. */
  function Lookup(states: map<Port, PortState>, port: Port): PortState {
    if port in states then states[port] else NoRecord
  }

  /** `arduino_states.get(port, {}).get("wifi", "")`: what the provisioning loop polls. */
  function WifiOf(states: map<Port, PortState>, port: Port): string {
    Lookup(states, port).wifi.GetOr("")
  }

  /** One `readline()` of a reader thread: the decoded line, or an exception. */
  datatype ReadResult = Got(raw: string) | ReadFailed

  /** A read that changes no record: a failed read, or a line that is empty once stripped. */
  predicate Inert(read: ReadResult) {
    read.ReadFailed? || Strip(read.raw) == []
  }

  /** The registry after the reader thread of `port` handles one read (one locked update). */
  function AfterRead(states: map<Port, PortState>, port: Port, read: ReadResult): map<Port, PortState> {
    if Inert(read) then states
    else states[port := Absorb(Lookup(states, port), Strip(read.raw))]
  }

  /**
   * A non-empty line updates exactly one key of its own port's record, the one its keyword
   * selects, and stores the stripped line there.
   */
  lemma AfterReadUpdatesOneKey(states: map<Port, PortState>, port: Port, raw: string)
    requires Strip(raw) != []
    ensures var r := AfterRead(states, port, Got(raw));
      var line := Strip(raw);
      && port in r
      && FieldOf(r[port], Target(line)) == Some(line)
      && (forall f :: f != Target(line) ==> FieldOf(r[port], f) == FieldOf(Lookup(states, port), f))
  {
    var rec := Absorb(Lookup(states, port), Strip(raw));
    assert AfterRead(states, port, Got(raw))[port] == rec;
  }

  /** A line read on `port` adds at most `port` to the registry and changes no other port's record. */
  lemma AfterReadOwnPortOnly(states: map<Port, PortState>, port: Port, read: ReadResult)
    ensures var r := AfterRead(states, port, read);
      && (r.Keys == states.Keys || r.Keys == states.Keys + {port})
      && (forall p :: p in states && p != port ==> r[p] == states[p])
  {
    if !Inert(read) {
      var rec := Absorb(Lookup(states, port), Strip(read.raw));
      assert AfterRead(states, port, read) == states[port := rec];
      assert states[port := rec].Keys == states.Keys + {port};
    }
  }

  /** The registry after the reader thread of `port` handles `readings` in order. */
  function Replay(states: map<Port, PortState>, port: Port, readings: seq<ReadResult>): (r: map<Port, PortState>)
    ensures states.Keys <= r.Keys <= states.Keys + {port}
    ensures forall p :: p in states && p != port ==> r[p] == states[p]
    decreases readings
  {
    if readings == [] then states
    else Replay(AfterRead(states, port, readings[0]), port, readings[1..])
  }

  /** Handling two runs of readings one after the other is handling them joined. */
  lemma {:induction false} ReplayConcat(states: map<Port, PortState>, port: Port, a: seq<ReadResult>, b: seq<ReadResult>)
    ensures Replay(states, port, a + b) == Replay(Replay(states, port, a), port, b)
    decreases a
  {
    if a == [] {
      assert a + b == b;
    } else {
      assert (a + b)[0] == a[0] && (a + b)[1..] == a[1..] + b;
      ReplayConcat(AfterRead(states, port, a[0]), port, a[1..], b);
    }
  }

  /** A failed read or an empty line is skipped and the reader goes on with the next read. */
  lemma ReplaySkipsInert(states: map<Port, PortState>, port: Port,
                         before: seq<ReadResult>, read: ReadResult, after: seq<ReadResult>)
    requires Inert(read)
    ensures Replay(states, port, before + [read] + after) == Replay(states, port, before + after)
  {
    var mid := Replay(states, port, before);
    ReplayConcat(states, port, before + [read], after);
    ReplayConcat(states, port, before, [read]);
    assert Replay(mid, port, [read]) == mid by {
      assert [read][1..] == [];
    }
    ReplayConcat(states, port, before, after);
  }

  /** Lines that are not Wi-Fi keywords never change the port's `wifi` key. */
  lemma {:induction false} ReplayKeepsWifi(states: map<Port, PortState>, port: Port, readings: seq<ReadResult>)
    requires forall i :: 0 <= i < |readings| && !Inert(readings[i]) ==> Target(Strip(readings[i].raw)) != Wifi
    ensures WifiOf(Replay(states, port, readings), port) == WifiOf(states, port)
    decreases readings
  {
    if readings != [] {
      var s' := AfterRead(states, port, readings[0]);
      assert WifiOf(s', port) == WifiOf(states, port) by {
        if !Inert(readings[0]) {
          assert FieldOf(s'[port], Wifi) == FieldOf(Lookup(states, port), Wifi);
        }
      }
      forall i | 0 <= i < |readings[1..]| && !Inert(readings[1..][i])
        ensures Target(Strip(readings[1..][i].raw)) != Wifi
      {
        assert readings[1..][i] == readings[i + 1];
      }
      ReplayKeepsWifi(s', port, readings[1..]);
    }
  }

  // ------------------------------------------------------------------
  // Command fan-out: send_command
  // ------------------------------------------------------------------

  /** One `ser.write((cmd + "\n").encode()); ser.flush()` and whether it went through. */
  datatype Attempt = Attempt(port: Port, payload: string, delivered: bool)

  /** One write attempt per port, in list order, each with that port's own outcome. */
  function FanOut(ports: seq<Port>, cmd: string, writeOk: seq<bool>): seq<Attempt>
    requires |writeOk| == |ports|
  {
    seq(|ports|, i requires 0 <= i < |ports| => Attempt(ports[i], cmd + "\n", writeOk[i]))
  }

  /** The elements of `xs` whose flag equals `want`, in order. */
  function Select<T>(xs: seq<T>, flags: seq<bool>, want: bool): (r: seq<T>)
    requires |flags| == |xs|
    ensures |r| <= |xs|
  {
    if xs == [] then []
    else
      var n := |xs| - 1;
      Select(xs[..n], flags[..n], want) + (if flags[n] == want then [xs[n]] else [])
  }

  /** Extending the prefix by one element keeps that element exactly when its flag is `want`. */
  lemma SelectStep<T>(xs: seq<T>, flags: seq<bool>, want: bool, i: nat)
    requires |flags| == |xs| && i < |xs|
    ensures Select(xs[..i + 1], flags[..i + 1], want) == Select(xs[..i], flags[..i], want) + (if flags[i] == want then [xs[i]] else [])
  {
    assert xs[..i + 1][..i] == xs[..i] && flags[..i + 1][..i] == flags[..i];
  }

  /** The whole prefix is the sequence itself. */
  lemma SelectWhole<T>(xs: seq<T>, flags: seq<bool>, want: bool)
    requires |flags| == |xs|
    ensures Select(xs[..|xs|], flags[..|xs|], want) == Select(xs, flags, want)
  {
    assert xs[..|xs|] == xs && flags[..|xs|] == flags;
  }

  /** What `Select` keeps: exactly the elements whose flag is `want`. */
  lemma {:induction false} SelectMembers<T>(xs: seq<T>, flags: seq<bool>, want: bool)
    requires |flags| == |xs|
    ensures forall i :: 0 <= i < |xs| && flags[i] == want ==> xs[i] in Select(xs, flags, want)
    ensures forall x :: x in Select(xs, flags, want) ==> exists i :: 0 <= i < |xs| && flags[i] == want && xs[i] == x
  {
    if xs != [] {
      var n := |xs| - 1;
      SelectMembers(xs[..n], flags[..n], want);
      forall i | 0 <= i < n ensures xs[..n][i] == xs[i] && flags[..n][i] == flags[i] {}
    }
  }

  /** When only the flag at `f` is false, `Select` splits `xs` into that element and the rest. */
  lemma {:induction false} SelectAllBut<T>(xs: seq<T>, flags: seq<bool>, f: nat)
    requires |flags| == |xs| && f < |xs|
    requires forall i :: 0 <= i < |xs| ==> (flags[i] <==> i != f)
    ensures Select(xs, flags, false) == [xs[f]]
    ensures Select(xs, flags, true) == xs[..f] + xs[f + 1..]
  {
    var n := |xs| - 1;
    if f == n {
      SelectAllTrue(xs[..n], flags[..n]);
      assert xs[f + 1..] == [];
    } else {
      SelectAllBut(xs[..n], flags[..n], f);
      assert xs[..n][..f] == xs[..f];
      assert xs[..n][f + 1..] + [xs[n]] == xs[f + 1..];
    }
  }

  /** When every flag is true, selecting `true` keeps everything and selecting `false` nothing. */
  lemma {:induction false} SelectAllTrue<T>(xs: seq<T>, flags: seq<bool>)
    requires |flags| == |xs|
    requires forall i :: 0 <= i < |xs| ==> flags[i]
    ensures Select(xs, flags, true) == xs
    ensures Select(xs, flags, false) == []
  {
    if xs != [] {
      var n := |xs| - 1;
      SelectAllTrue(xs[..n], flags[..n]);
      assert xs[..n] + [xs[n]] == xs;
    }
  }

  /** The ports whose attempt had outcome `delivered`, in order. */
  function PortsWhere(attempts: seq<Attempt>, delivered: bool): seq<Port> {
    if attempts == [] then []
    else
      var n := |attempts| - 1;
      PortsWhere(attempts[..n], delivered) + (if attempts[n].delivered == delivered then [attempts[n].port] else [])
  }

  /**
   * Failure isolation: the ports that receive the command are exactly those whose own write
   * succeeds, and the failures reported are exactly those whose own write fails.
   */
  lemma {:induction false} FanOutOutcomes(ports: seq<Port>, cmd: string, writeOk: seq<bool>, delivered: bool)
    requires |writeOk| == |ports|
    ensures PortsWhere(FanOut(ports, cmd, writeOk), delivered) == Select(ports, writeOk, delivered)
  {
    if ports != [] {
      var n := |ports| - 1;
      assert FanOut(ports, cmd, writeOk)[..n] == FanOut(ports[..n], cmd, writeOk[..n]);
      FanOutOutcomes(ports[..n], cmd, writeOk[..n], delivered);
    }
  }

  /** When exactly the write to port `f` fails, all other ports get the command and exactly one failure is reported. */
  lemma FanOutIsolatesOneFailure(ports: seq<Port>, cmd: string, writeOk: seq<bool>, f: nat)
    requires |writeOk| == |ports| && f < |ports|
    requires forall i :: 0 <= i < |ports| ==> (writeOk[i] <==> i != f)
    ensures PortsWhere(FanOut(ports, cmd, writeOk), false) == [ports[f]]
    ensures PortsWhere(FanOut(ports, cmd, writeOk), true) == ports[..f] + ports[f + 1..]
  {
    FanOutOutcomes(ports, cmd, writeOk, false);
    FanOutOutcomes(ports, cmd, writeOk, true);
    SelectAllBut(ports, writeOk, f);
  }

  /** `send_command`: each port in turn gets `cmd + "\n"`; a failing port does not stop the loop. */
  method SendCommand(ports: seq<Port>, cmd: string, writeOk: seq<bool>) returns (attempts: seq<Attempt>)
    requires |writeOk| == |ports|
    ensures |attempts| == |ports|
    ensures forall i :: 0 <= i < |ports| ==> attempts[i] == Attempt(ports[i], cmd + "\n", writeOk[i])
    ensures attempts == FanOut(ports, cmd, writeOk)
  {
    attempts := [];
    var i := 0;
    while i < |ports|
      invariant i <= |ports|
      invariant |attempts| == i
      invariant forall j :: 0 <= j < i ==> attempts[j] == Attempt(ports[j], cmd + "\n", writeOk[j])
    {
      attempts := attempts + [Attempt(ports[i], cmd + "\n", writeOk[i])];
      i := i + 1;
    }
  }

  // ------------------------------------------------------------------
  // Credential file: load_networks
  // ------------------------------------------------------------------

  /** One `(ssid, pwd)` pair of the credential file. */
  datatype Network = Network(ssid: string, pwd: string)

  /** Every character of `strip(s)` is a character of `s`. */
  lemma StripWithin(s: string)
    ensures forall c :: c in Strip(s) ==> c in s
  {
    var l := TrimLeft(s);
    var r := TrimRight(l);
    forall c | c in r ensures c in s {
      var i :| 0 <= i < |r| && r[i] == c;
      assert l[i] == c;
      assert s[|s| - |l| + i] == c;
    }
  }

  /**
   * One line of the credential file: skipped when empty or a `#` comment once stripped,
   * dropped when it has no comma, otherwise split at the first comma and both halves stripped.
   */
  function ParseLine(raw: string): (r: Option<Network>)
    ensures r.Some? ==> ',' !in r.value.ssid && Stripped(r.value.ssid) && Stripped(r.value.pwd)
    ensures r.Some? <==> (var line := Strip(raw); line != [] && !StartsWith(line, "#") && ',' in line)
  {
    var line := Strip(raw);
    if line == [] || StartsWith(line, "#") || ',' !in line then None
    else
      var (ssid, pwd) := SplitAtComma(line);
      StripWithin(ssid);
      StripStripped(ssid);
      StripStripped(pwd);
      Some(Network(Strip(ssid), Strip(pwd)))
  }

  /** `line.split(",", 1)` on a line that has a comma: the text before the first comma and the text after it. */
  function SplitAtComma(line: string): (parts: (string, string))
    requires ',' in line
    ensures ',' !in parts.0
    ensures line == parts.0 + "," + parts.1
  {
    var k := IndexOf(line, ',');
    assert line == line[..k] + "," + line[k + 1..];
    (line[..k], line[k + 1..])
  }

  /** Splitting at the first comma takes apart what was joined at a comma-free name. */
  lemma SplitAtCommaJoin(a: string, b: string)
    requires ',' !in a
    ensures SplitAtComma(a + "," + b) == (a, b)
  {
    var line := a + "," + b;
    IndexOfAfter(a, ',', b);
    assert line[..|a|] == a;
    assert line[|a| + 1..] == b;
  }

  /**
   * A pair written back as `ssid,pwd` parses to itself, so a password may hold commas;
   * the name must have none and neither half may carry white space at its ends.
   */
  lemma NetworkRoundTrip(n: Network)
    requires ',' !in n.ssid && Stripped(n.ssid) && Stripped(n.pwd) && !StartsWith(n.ssid, "#")
    ensures ParseLine(n.ssid + "," + n.pwd) == Some(n)
  {
    var line := n.ssid + "," + n.pwd;
    JoinedStripped(n.ssid, n.pwd);
    SplitAtCommaJoin(n.ssid, n.pwd);
    StrippedFixed(n.ssid);
    StrippedFixed(n.pwd);
    ParseStrippedLine(line);
  }

  /** A comma-joined pair of stripped texts, the first not starting with `#`, is itself a stripped, non-comment line with a comma. */
  lemma JoinedStripped(a: string, b: string)
    requires Stripped(a) && Stripped(b) && !StartsWith(a, "#")
    ensures var line := a + "," + b;
      Stripped(line) && line != [] && !StartsWith(line, "#") && ',' in line
  {
    var line := a + "," + b;
    assert line[|a|] == ',';
    assert line[0] == (if a == [] then ',' else a[0]);
    assert line[|line| - 1] == (if b == [] then ',' else b[|b| - 1]);
    if a != [] {
      assert line[..1] == a[..1];
    }
  }

  /** On a stripped, non-comment line with a comma, `ParseLine` strips the two halves of the split. */
  lemma ParseStrippedLine(line: string)
    requires Stripped(line) && line != [] && !StartsWith(line, "#") && ',' in line
    ensures ParseLine(line) == Some(Network(Strip(SplitAtComma(line).0), Strip(SplitAtComma(line).1)))
  {
    StrippedFixed(line);
  }

  /** The first `c` of `a + [c] + b` is the one right after `a` when `a` has none. */
  lemma {:induction false} IndexOfAfter(a: string, c: char, b: string)
    requires c !in a
    ensures IndexOf(a + [c] + b, c) == |a|
  {
    if a != [] {
      assert (a + [c] + b)[1..] == a[1..] + [c] + b;
      IndexOfAfter(a[1..], c, b);
    }
  }

  /** The pairs of a credential file, in file order (`nets.append` per accepted line). */
  function Networks(lines: seq<string>): seq<Network> {
    if lines == [] then []
    else
      var last := ParseLine(lines[|lines| - 1]);
      Networks(lines[..|lines| - 1]) + (if last.Some? then [last.value] else [])
  }

  /** One more line of the file adds its network, if it names one. */
  lemma NetworksStep(lines: seq<string>, i: nat)
    requires i < |lines|
    ensures var parsed := ParseLine(lines[i]);
      Networks(lines[..i + 1]) == Networks(lines[..i]) + (if parsed.Some? then [parsed.value] else [])
  {
    assert lines[..i + 1][..i] == lines[..i];
  }

  /** Lines are parsed independently and their pairs kept in file order. */
  lemma {:induction false} NetworksConcat(a: seq<string>, b: seq<string>)
    ensures Networks(a + b) == Networks(a) + Networks(b)
  {
    if b != [] {
      var b' := b[..|b| - 1];
      assert (a + b)[..|a + b| - 1] == a + b';
      assert (a + b)[|a + b| - 1] == b[|b| - 1];
      NetworksConcat(a, b');
    } else {
      assert a + b == a;
    }
  }

  /** `load_networks`: a missing file (FileNotFoundError) yields no pairs. */
  method LoadNetworks(file: Option<seq<string>>) returns (nets: seq<Network>)
    ensures file.None? ==> nets == []
    ensures file.Some? ==> nets == Networks(file.value)
  {
    nets := [];
    if file.None? {
      return;
    }
    var lines := file.value;
    var i := 0;
    while i < |lines|
      invariant i <= |lines|
      invariant nets == Networks(lines[..i])
    {
      NetworksStep(lines, i);
      var parsed := ParseLine(lines[i]);
      if parsed.Some? {
        nets := nets + [parsed.value];
      }
      i := i + 1;
    }
    assert lines[..i] == lines;
  }

  // ------------------------------------------------------------------
  // Provisioning handshake: connect_arduino
  // ------------------------------------------------------------------

  /** The values of `last_sent`. */
  datatype Sent = SsidSent | PassSent

  /** An outbound provisioning command. */
  datatype WifiCmd = SetSsid(ssid: string) | SetPass(pwd: string) {
    function Kind(): Sent {
      match this
      case SetSsid(_) => SsidSent
      case SetPass(_) => PassSent
    }

  }

  /**
   * The commands sent, whether the device connected, how many polls were made, and
   * whether a write raised (which ends the whole script).
   */
  datatype Outcome = Outcome(sent: seq<WifiCmd>, connected: bool, polls: nat, crashed: bool)

  predicate IsVerdict(wifi: string) {
    wifi == CONNECTED || wifi == DISCONNECTED
  }

  /** Poll `k` is the first to observe CONNECTED or DISCONNECTED. */
  predicate FirstVerdictAt(views: seq<string>, k: int) {
    && 0 <= k < |views|
    && IsVerdict(views[k])
    && forall j :: 0 <= j < k ==> !IsVerdict(views[j])
  }

  /** No two consecutive commands are of the same kind. */
  predicate Alternating(sent: seq<WifiCmd>) {
    forall i :: 0 <= i < |sent| - 1 ==> sent[i].Kind() != sent[i + 1].Kind()
  }

  /** What one poll of `connect_arduino` does with the `wifi` value it reads. */
  datatype Reaction = Send(cmd: WifiCmd) | Finish(connected: bool) | Wait

  /**
   * One poll: a missing SSID or password is answered unless the same kind of command
   * was the last one sent; CONNECTED and DISCONNECTED end the loop; anything else waits.
   */
  function Respond(wifi: string, last: Option<Sent>, ssid: string, pwd: string): (r: Reaction)
    ensures r.Finish? <==> IsVerdict(wifi)
    ensures r.Finish? ==> (r.connected <==> wifi == CONNECTED)
    ensures r.Send? ==> last != Some(r.cmd.Kind())
    ensures r.Send? ==> (r.cmd == SetSsid(ssid) <==> wifi == NO_SSID) && (r.cmd == SetPass(pwd) <==> wifi == NO_PASS)
  {
    if wifi == NO_SSID && last != Some(SsidSent) then Send(SetSsid(ssid))
    else if wifi == NO_PASS && last != Some(PassSent) then Send(SetPass(pwd))
    else if wifi == CONNECTED then Finish(true)
    else if wifi == DISCONNECTED then Finish(false)
    else Wait
  }

  /**
   * How many more `write`/`flush` pairs go through before one raises: `None` when none
   * raises. A write that raises is not counted as sent.
   */
  function Spend(room: Option<nat>): (r: Option<nat>)
    requires room != Some(0)
    ensures r.None? <==> room.None?
    ensures r.Some? ==> r.value + 1 == room.value
  {
    match room
    case None => None
    case Some(n) => Some(n - 1)
  }

  /**
   * The polling loop of `connect_arduino`, given the `wifi` value each poll reads
   * (`views`, one per poll that fits before the deadline), the current `last_sent`,
   * and how many more writes go through (`room`).
   */
  function Handshake(views: seq<string>, last: Option<Sent>, room: Option<nat>, ssid: string, pwd: string): (o: Outcome)
    ensures |o.sent| <= o.polls <= |views|
    ensures o.connected ==> !o.crashed && 0 < o.polls && views[o.polls - 1] == CONNECTED
    ensures o.crashed ==> room.Some? && |o.sent| == room.value
  {
    if views == [] then Outcome([], false, 0, false)
    else
      match Respond(views[0], last, ssid, pwd)
      case Send(c) =>
        if room == Some(0) then Outcome([], false, 1, true)
        else
          var o := Handshake(views[1..], Some(c.Kind()), Spend(room), ssid, pwd);
          Outcome([c] + o.sent, o.connected, o.polls + 1, o.crashed)
      case Finish(ok) => Outcome([], ok, 1, false)
      case Wait =>
        var o := Handshake(views[1..], last, room, ssid, pwd);
        o.(polls := o.polls + 1)
  }

  /** SETSSID is never sent twice in a row, nor SETPASS, counting the command sent before. */
  lemma {:induction false} HandshakeAlternates(views: seq<string>, last: Option<Sent>, room: Option<nat>, ssid: string, pwd: string)
    ensures var o := Handshake(views, last, room, ssid, pwd);
      && Alternating(o.sent)
      && (o.sent != [] && last.Some? ==> o.sent[0].Kind() != last.value)
  {
    if views != [] {
      match Respond(views[0], last, ssid, pwd)
      case Send(c) =>
        if room != Some(0) {
          HandshakeAlternates(views[1..], Some(c.Kind()), Spend(room), ssid, pwd);
        }
      case Finish(_) =>
      case Wait => HandshakeAlternates(views[1..], last, room, ssid, pwd);
    }
  }

  /**
   * The verdict: unless a write raises, the loop stops at the first poll that reads
   * CONNECTED or DISCONNECTED and reports success exactly when that value is CONNECTED;
   * with neither observed it makes every poll and reports failure (the deadline).
   */
  lemma {:induction false} HandshakeVerdict(views: seq<string>, last: Option<Sent>, room: Option<nat>, ssid: string, pwd: string)
    ensures var o := Handshake(views, last, room, ssid, pwd);
      forall k :: FirstVerdictAt(views, k) && !o.crashed ==> o.polls == k + 1 && (o.connected <==> views[k] == CONNECTED)
    ensures var o := Handshake(views, last, room, ssid, pwd);
      (forall k :: 0 <= k < |views| ==> !IsVerdict(views[k])) ==> !o.connected && (!o.crashed ==> o.polls == |views|)
  {
    if views != [] {
      var w := views[0];
      var rest := views[1..];
      var r := Respond(w, last, ssid, pwd);
      if !IsVerdict(w) && !(r.Send? && room == Some(0)) {
        var next := if r.Send? then Some(r.cmd.Kind()) else last;
        var room' := if r.Send? then Spend(room) else room;
        HandshakeVerdict(rest, next, room', ssid, pwd);
        forall k | FirstVerdictAt(views, k) ensures FirstVerdictAt(rest, k - 1) {
          assert k != 0;
          forall j | 0 <= j < k - 1 ensures !IsVerdict(rest[j]) {
            assert rest[j] == views[j + 1];
          }
        }
        if forall k :: 0 <= k < |views| ==> !IsVerdict(views[k]) {
          forall k | 0 <= k < |rest| ensures !IsVerdict(rest[k]) {
            assert rest[k] == views[k + 1];
          }
        }
      }
    }
  }

  /**
   * A write fault the handshake never reaches changes nothing: while the fault-free run
   * sends no more commands than go through, the run is the fault-free one.
   */
  lemma {:induction false} HandshakeUnfaulted(views: seq<string>, last: Option<Sent>, room: Option<nat>, ssid: string, pwd: string)
    requires room.Some? ==> |Handshake(views, last, None, ssid, pwd).sent| <= room.value
    ensures Handshake(views, last, room, ssid, pwd) == Handshake(views, last, None, ssid, pwd)
  {
    if views != [] {
      match Respond(views[0], last, ssid, pwd)
      case Send(c) => HandshakeUnfaulted(views[1..], Some(c.Kind()), Spend(room), ssid, pwd);
      case Finish(_) =>
      case Wait => HandshakeUnfaulted(views[1..], last, room, ssid, pwd);
    }
  }

  /**
   * A write that raises cuts the handshake short: when the fault-free run would send more
   * commands than go through, the run ends, unconnected, at the write that raises, having
   * sent the commands before it.
   */
  lemma {:induction false} HandshakeCut(views: seq<string>, last: Option<Sent>, room: nat, ssid: string, pwd: string)
    requires room < |Handshake(views, last, None, ssid, pwd).sent|
    ensures var o := Handshake(views, last, Some(room), ssid, pwd);
      o.crashed && !o.connected && o.sent == Handshake(views, last, None, ssid, pwd).sent[..room]
  {
    match Respond(views[0], last, ssid, pwd)
    case Send(c) =>
      if room > 0 {
        HandshakeCut(views[1..], Some(c.Kind()), room - 1, ssid, pwd);
        var f' := Handshake(views[1..], Some(c.Kind()), None, ssid, pwd);
        assert ([c] + f'.sent)[..room] == [c] + f'.sent[..room - 1];
      }
    case Finish(_) =>
    case Wait => HandshakeCut(views[1..], last, room, ssid, pwd);
  }

  /** The registry after `connect_arduino` forces the port's `wifi` back to NO_SSID. */
  function Reset(states: map<Port, PortState>, port: Port): (r: map<Port, PortState>)
    requires port in states
    ensures WifiOf(r, port) == NO_SSID
  {
    states[port := states[port].(wifi := Some(NO_SSID))]
  }

  /** The registry after the reader has handled the batches of readings in order. */
  function Batches(states: map<Port, PortState>, port: Port, batches: seq<seq<ReadResult>>): (r: map<Port, PortState>)
    ensures states.Keys <= r.Keys <= states.Keys + {port}
  {
    if batches == [] then states
    else Replay(Batches(states, port, batches[..|batches| - 1]), port, batches[|batches| - 1])
  }

  /** The reader only writes its own port, so a registry that already has that port keeps its keys. */
  lemma BatchesKeys(states: map<Port, PortState>, port: Port, batches: seq<seq<ReadResult>>)
    requires port in states
    ensures Batches(states, port, batches).Keys == states.Keys
  {
  }

  /**
   * The `wifi` value read at each poll, when the reader handles `batches[k]` between
   * poll `k - 1` and poll `k`.
   */
  function Views(states: map<Port, PortState>, port: Port, batches: seq<seq<ReadResult>>): (r: seq<string>)
    ensures |r| == |batches|
    decreases batches
  {
    if batches == [] then []
    else
      var s := Replay(states, port, batches[0]);
      [WifiOf(s, port)] + Views(s, port, batches[1..])
  }

  /** Handling one more batch extends the registry history by one replay. */
  lemma BatchesStep(states: map<Port, PortState>, port: Port, batches: seq<seq<ReadResult>>, k: nat)
    requires k < |batches|
    ensures Batches(states, port, batches[..k + 1]) == Replay(Batches(states, port, batches[..k]), port, batches[k])
  {
    assert batches[..k + 1][..k] == batches[..k];
  }

  /** The views from poll `k` on: the one read after batch `k`, then the rest. */
  lemma ViewsStep(states: map<Port, PortState>, port: Port, batches: seq<seq<ReadResult>>, k: nat)
    requires k < |batches|
    ensures var s := Replay(states, port, batches[k]);
      Views(states, port, batches[k..]) == [WifiOf(s, port)] + Views(s, port, batches[k + 1..])
  {
    assert batches[k..][0] == batches[k] && batches[k..][1..] == batches[k + 1..];
  }

  /**
   * The views from poll `k` on are those polled from the registry as the first `k`
   * batches left it.
   */
  lemma {:induction false} ViewsAfter(s0: map<Port, PortState>, port: Port, batches: seq<seq<ReadResult>>, k: nat)
    requires k <= |batches|
    ensures Views(Batches(s0, port, batches[..k]), port, batches[k..]) == Views(s0, port, batches)[k..]
  {
    if k == 0 {
      assert batches[..0] == [] && batches[0..] == batches;
    } else {
      var vs := Views(s0, port, batches);
      ViewsAfter(s0, port, batches, k - 1);
      var here := Batches(s0, port, batches[..k - 1]);
      ViewsStep(here, port, batches, k - 1);
      BatchesStep(s0, port, batches, k - 1);
      var next := Replay(here, port, batches[k - 1]);
      calc {
        Views(Batches(s0, port, batches[..k]), port, batches[k..]);
        Views(next, port, batches[k..]);
        Views(here, port, batches[k - 1..])[1..];
        vs[k - 1..][1..];
        { assert vs[k - 1..][1..] == vs[k..]; }
        vs[k..];
      }
    }
  }

  /** Poll `k` reads the port's `wifi` value once the reader has handled batches `0..k`. */
  lemma ViewAt(s0: map<Port, PortState>, port: Port, batches: seq<seq<ReadResult>>, k: nat)
    requires k < |batches|
    ensures Views(s0, port, batches)[k] == WifiOf(Batches(s0, port, batches[..k + 1]), port)
  {
    ViewsAfter(s0, port, batches, k);
    ViewsStep(Batches(s0, port, batches[..k]), port, batches, k);
    BatchesStep(s0, port, batches, k);
  }

  /**
   * After `k` of the polls `vs` that sent `sent`, left `last_sent` at `last` and left room
   * for `room` more writes, the remaining polls complete the handshake `whole`.
   */
  ghost predicate Progress(whole: Outcome, vs: seq<string>, ssid: string, pwd: string,
                           k: nat, last: Option<Sent>, room: Option<nat>, sent: seq<WifiCmd>)
    requires k <= |vs|
  {
    var o := Handshake(vs[k..], last, room, ssid, pwd);
    && whole.sent == sent + o.sent && whole.connected == o.connected
    && whole.polls == k + o.polls && whole.crashed == o.crashed
  }

  lemma ProgressStarts(vs: seq<string>, room0: Option<nat>, ssid: string, pwd: string)
    ensures Progress(Handshake(vs, None, room0, ssid, pwd), vs, ssid, pwd, 0, None, room0, [])
  {
    assert vs[0..] == vs;
  }

  /** With every poll made, the handshake is over. */
  lemma ProgressEnds(whole: Outcome, vs: seq<string>, ssid: string, pwd: string,
                     last: Option<Sent>, room: Option<nat>, sent: seq<WifiCmd>)
    requires Progress(whole, vs, ssid, pwd, |vs|, last, room, sent)
    ensures whole.sent == sent && !whole.connected && !whole.crashed && whole.polls == |vs|
  {
    assert vs[|vs|..] == [];
  }

  /**
   * Poll `k` either ends the handshake (a verdict, or a write that raises) or moves it on
   * by one poll.
   */
  lemma ProgressStep(whole: Outcome, vs: seq<string>, ssid: string, pwd: string,
                     k: nat, last: Option<Sent>, room: Option<nat>, sent: seq<WifiCmd>)
    requires k < |vs|
    requires Progress(whole, vs, ssid, pwd, k, last, room, sent)
    ensures match Respond(vs[k], last, ssid, pwd)
      case Send(c) =>
        if room == Some(0) then whole.sent == sent && !whole.connected && whole.crashed && whole.polls == k + 1
        else Progress(whole, vs, ssid, pwd, k + 1, Some(c.Kind()), Spend(room), sent + [c])
      case Finish(ok) => whole.sent == sent && whole.connected == ok && !whole.crashed && whole.polls == k + 1
      case Wait => Progress(whole, vs, ssid, pwd, k + 1, last, room, sent)
  {
    assert vs[k..][0] == vs[k] && vs[k..][1..] == vs[k + 1..];
    match Respond(vs[k], last, ssid, pwd)
    case Send(c) =>
      if room != Some(0) {
        var o := Handshake(vs[k + 1..], Some(c.Kind()), Spend(room), ssid, pwd);
        assert sent + ([c] + o.sent) == (sent + [c]) + o.sent;
      }
    case Finish(_) =>
    case Wait =>
  }

  /**
   * Because of the reset, the first poll sends SETSSID unless a Wi-Fi keyword
   * reaches the registry before it; if no write goes through, that first write raises.
   */
  lemma FirstPollSendsSsid(states: map<Port, PortState>, port: Port, batches: seq<seq<ReadResult>>,
                           room: Option<nat>, ssid: string, pwd: string)
    requires port in states && batches != []
    requires forall i :: 0 <= i < |batches[0]| && !Inert(batches[0][i]) ==> Target(Strip(batches[0][i].raw)) != Wifi
    ensures var o := Handshake(Views(Reset(states, port), port, batches), None, room, ssid, pwd);
      if room == Some(0) then o.crashed && o.sent == [] && o.polls == 1
      else o.sent != [] && o.sent[0] == SetSsid(ssid)
  {
    ReplayKeepsWifi(Reset(states, port), port, batches[0]);
  }

  // ------------------------------------------------------------------
  // Opening the ports
  // ------------------------------------------------------------------

  /** The opening loop of a script without a registry (uniti.py): a port that fails to open is left out. */
  method OpenPorts(targets: seq<Port>, openOk: seq<bool>) returns (arduinos: seq<Port>)
    requires |openOk| == |targets|
    ensures arduinos == Select(targets, openOk, true)
  {
    arduinos := [];
    var i := 0;
    while i < |targets|
      invariant i <= |targets|
      invariant arduinos == Select(targets[..i], openOk[..i], true)
    {
      SelectStep(targets, openOk, true, i);
      if openOk[i] {
        arduinos := arduinos + [targets[i]];
      }
      i := i + 1;
    }
    SelectWhole(targets, openOk, true);
  }

  /**
   * What `connect_arduino` does from registry `states`: the outcome and the registry it
   * leaves. `fault` is the serial call that raises, if any: 0 is `reset_input_buffer`,
   * which comes before the `wifi` reset, and `k > 0` is the write of the `k`-th command.
   */
  function Connection(states: map<Port, PortState>, port: Port, fault: Option<nat>, batches: seq<seq<ReadResult>>,
                      ssid: string, pwd: string): (c: (Outcome, map<Port, PortState>))
    requires port in states
    ensures c.1.Keys == states.Keys
    ensures fault == Some(0) ==> c == (Outcome([], false, 0, true), states)
    ensures c.0.crashed ==> fault == Some(0) || (fault.Some? && |c.0.sent| + 1 == fault.value)
  {
    if fault == Some(0) then (Outcome([], false, 0, true), states)
    else
      var s0 := Reset(states, port);
      var o := Handshake(Views(s0, port, batches), None, Spend(fault), ssid, pwd);
      BatchesKeys(s0, port, batches[..o.polls]);
      (o, Batches(s0, port, batches[..o.polls]))
  }

  /**
   * What the provisioning loop did for one port: no network left for it (`continue`),
   * `connect_arduino` returned, or a serial call raised, which ends the script.
   */
  datatype Provisioning =
    | Skipped
    | Tried(network: Network, sent: seq<WifiCmd>, connected: bool)
    | Crashed(network: Network, sent: seq<WifiCmd>)

  /** The network the provisioning loop gives the port at index `i`: `available_networks[idx]`, if there is one. */
  function NetworkAt(nets: seq<Network>, i: nat): (n: Option<Network>)
    ensures n.Some? <==> i < |nets|
    ensures n.Some? ==> n.value == nets[i]
  {
    if i < |nets| then Some(nets[i]) else None
  }

  /** One turn of the provisioning loop, from registry `states`: its result and the registry it leaves. */
  function ProvisionOne(states: map<Port, PortState>, port: Port, net: Option<Network>, fault: Option<nat>,
                        batches: seq<seq<ReadResult>>): (p: (Provisioning, map<Port, PortState>))
    requires port in states
    ensures p.1.Keys == states.Keys
    ensures p.0.Skipped? <==> net.None?
    ensures p.0.Skipped? ==> p.1 == states
    ensures !p.0.Skipped? ==> p.0.network == net.value
  {
    match net
    case None => (Skipped, states)
    case Some(n) =>
      var c := Connection(states, port, fault, batches, n.ssid, n.pwd);
      (if c.0.crashed then Crashed(n, c.0.sent) else Tried(n, c.0.sent, c.0.connected), c.1)
  }

  /**
   * `results[j]` and `before[j + 1]` are what port `j`'s turn of the provisioning loop
   * gives from `before[j]`.
   */
  ghost predicate Chained(before: seq<map<Port, PortState>>, results: seq<Provisioning>, ports: seq<Port>,
                          nets: seq<Network>, faults: seq<Option<nat>>, batches: seq<seq<seq<ReadResult>>>)
  {
    && |before| == |results| + 1 && |results| <= |ports| && |faults| >= |ports| && |batches| >= |ports|
    && forall j :: 0 <= j < |results| ==>
      ports[j] in before[j]
      && (results[j], before[j + 1]) == ProvisionOne(before[j], ports[j], NetworkAt(nets, j), faults[j], batches[j])
  }

  lemma ChainedSnoc(before: seq<map<Port, PortState>>, results: seq<Provisioning>, ports: seq<Port>,
                    nets: seq<Network>, faults: seq<Option<nat>>, batches: seq<seq<seq<ReadResult>>>,
                    r: Provisioning, s: map<Port, PortState>)
    requires Chained(before, results, ports, nets, faults, batches) && |results| < |ports|
    requires ports[|results|] in before[|results|]
    requires (r, s) == ProvisionOne(before[|results|], ports[|results|], NetworkAt(nets, |results|),
                                   faults[|results|], batches[|results|])
    ensures Chained(before + [s], results + [r], ports, nets, faults, batches)
  {
    var before', results' := before + [s], results + [r];
    forall j | 0 <= j < |results'|
      ensures ports[j] in before'[j]
      ensures (results'[j], before'[j + 1]) == ProvisionOne(before'[j], ports[j], NetworkAt(nets, j), faults[j], batches[j])
    {
      assert before'[j] == before[j];
      if j < |results| {
        assert results'[j] == results[j] && before'[j + 1] == before[j + 1];
      }
    }
  }

  /**
   * A provisioned port never got the same kind of command twice in a row, nor more
   * commands than polls; it crashed exactly when its fault hit a serial call that the
   * fault-free handshake makes, and otherwise got the fault-free handshake's result.
   */
  lemma ProvisionOneFaults(states: map<Port, PortState>, port: Port, n: Network, fault: Option<nat>,
                           batches: seq<seq<ReadResult>>)
    requires port in states
    ensures var r := ProvisionOne(states, port, Some(n), fault, batches).0;
      var f := Handshake(Views(Reset(states, port), port, batches), None, None, n.ssid, n.pwd);
      && Alternating(r.sent) && |r.sent| <= |batches|
      && (r.Crashed? <==> fault.Some? && fault.value <= |f.sent|)
      && (r.Tried? ==> r.sent == f.sent && r.connected == f.connected)
      && (fault == Some(0) ==> r == Crashed(n, []))
      && (r.Crashed? && fault.Some? && 0 < fault.value ==> r.sent == f.sent[..fault.value - 1])
  {
    if fault != Some(0) {
      var views := Views(Reset(states, port), port, batches);
      HandshakeAlternates(views, None, Spend(fault), n.ssid, n.pwd);
      var f := Handshake(views, None, None, n.ssid, n.pwd);
      if fault.Some? && fault.value - 1 < |f.sent| {
        HandshakeCut(views, None, fault.value - 1, n.ssid, n.pwd);
      } else {
        HandshakeUnfaulted(views, None, Spend(fault), n.ssid, n.pwd);
      }
    }
  }

  // ------------------------------------------------------------------
  // The registry object
  // ------------------------------------------------------------------

  /** `arduino_states`, updated in place under `state_lock`; each method is one locked step or a loop of them. */
  class Registry {
    var states: map<Port, PortState>

    constructor ()
      ensures states == map[]
    {
      states := map[];
    }

    /** The registry entry written for a port that has just been opened. */
    method Open(port: Port)
      modifies this
      ensures states == old(states)[port := OpenRecord]
    {
      states := states[port := OpenRecord];
    }

    /**
     * The opening loop of gopro/goproManager.py and movella/uniti.py: only the ports that
     * open get a record, each the initial one.
     */
    method OpenAll(targets: seq<Port>, openOk: seq<bool>) returns (arduinos: seq<Port>)
      requires |openOk| == |targets|
      modifies this
      ensures arduinos == Select(targets, openOk, true)
      ensures states.Keys == old(states).Keys + set p | p in arduinos
      ensures forall p :: p in arduinos ==> states[p] == OpenRecord
      ensures forall p :: p in old(states) && p !in arduinos ==> states[p] == old(states)[p]
    {
      arduinos := [];
      var i := 0;
      while i < |targets|
        invariant i <= |targets|
        invariant arduinos == Select(targets[..i], openOk[..i], true)
        invariant states.Keys == old(states).Keys + set p | p in arduinos
        invariant forall p :: p in arduinos ==> states[p] == OpenRecord
        invariant forall p :: p in old(states) && p !in arduinos ==> states[p] == old(states)[p]
      {
        SelectStep(targets, openOk, true, i);
        if openOk[i] {
          arduinos := arduinos + [targets[i]];
          Open(targets[i]);
        }
        i := i + 1;
      }
      SelectWhole(targets, openOk, true);
    }

    /** `read_arduino` over a finite run of readings: each read is one update under the lock. */
    method ReadLoop(port: Port, readings: seq<ReadResult>)
      modifies this
      ensures states == Replay(old(states), port, readings)
    {
      var k := 0;
      while k < |readings|
        invariant k <= |readings|
        invariant Replay(old(states), port, readings) == Replay(states, port, readings[k..])
      {
        assert readings[k..][1..] == readings[k + 1..];
        states := AfterRead(states, port, readings[k]);
        k := k + 1;
      }
    }

    /**
     * `connect_arduino`: empties the input buffer, forces `wifi` to NO_SSID, then polls once
     * per batch; before poll `k` the reader thread handles `batches[k]`. `|batches|` is the
     * number of polls that fit before the deadline; `fault` is the serial call that raises.
     */
    method Connect(port: Port, ssid: string, pwd: string, fault: Option<nat>, batches: seq<seq<ReadResult>>)
      returns (sent: seq<WifiCmd>, connected: bool, crashed: bool)
      requires port in states
      modifies this
      ensures var c := Connection(old(states), port, fault, batches, ssid, pwd);
        sent == c.0.sent && connected == c.0.connected && crashed == c.0.crashed && states == c.1
    {
      if fault == Some(0) {
        return [], false, true;
      }
      states := Reset(states, port);
      sent, connected, crashed := Converse(port, ssid, pwd, Spend(fault), batches);
    }

    /**
     * The polling loop of `connect_arduino`, from the registry as the reset left it, when
     * `room` more writes go through.
     */
    method Converse(port: Port, ssid: string, pwd: string, room0: Option<nat>, batches: seq<seq<ReadResult>>)
      returns (sent: seq<WifiCmd>, connected: bool, crashed: bool)
      modifies this
      ensures var o := Handshake(Views(old(states), port, batches), None, room0, ssid, pwd);
        && sent == o.sent && connected == o.connected && crashed == o.crashed
        && states == Batches(old(states), port, batches[..o.polls])
    {
      ghost var s0 := states;
      ghost var vs := Views(s0, port, batches);
      ghost var whole := Handshake(vs, None, room0, ssid, pwd);
      var last: Option<Sent> := None;
      var room := room0;
      sent, connected, crashed := [], false, false;
      var k := 0;
      ProgressStarts(vs, room0, ssid, pwd);
      while k < |batches|
        invariant k <= |batches|
        invariant states == Batches(s0, port, batches[..k])
        invariant Progress(whole, vs, ssid, pwd, k, last, room, sent)
        invariant !connected && !crashed
      {
        var done;
        done, last, room, sent, connected, crashed := Turn(s0, port, ssid, pwd, batches, vs, whole, k, last, room, sent);
        if done {
          return;
        }
        k := k + 1;
      }
      ProgressEnds(whole, vs, ssid, pwd, last, room, sent);
      assert batches[..k] == batches;
    }

    /**
     * One pass of the loop, poll `k`: read the port's `wifi` value and answer it, writing
     * SETSSID or SETPASS (a write that raises ends the handshake) or returning a verdict.
     */
    method Turn(ghost s0: map<Port, PortState>, port: Port, ssid: string, pwd: string, batches: seq<seq<ReadResult>>,
                ghost vs: seq<string>, ghost whole: Outcome, k: nat, last: Option<Sent>, room: Option<nat>,
                sent: seq<WifiCmd>)
      returns (done: bool, last': Option<Sent>, room': Option<nat>, sent': seq<WifiCmd>, connected: bool, crashed: bool)
      requires vs == Views(s0, port, batches) && k < |batches|
      requires states == Batches(s0, port, batches[..k])
      requires Progress(whole, vs, ssid, pwd, k, last, room, sent)
      modifies this
      ensures states == Batches(s0, port, batches[..k + 1])
      ensures if done then whole.sent == sent' && whole.connected == connected && whole.crashed == crashed && whole.polls == k + 1
        else Progress(whole, vs, ssid, pwd, k + 1, last', room', sent') && !connected && !crashed
    {
      BatchesStep(s0, port, batches, k);
      ViewAt(s0, port, batches, k);
      ProgressStep(whole, vs, ssid, pwd, k, last, room, sent);
      var wifi := Poll(port, batches[k]);
      match Respond(wifi, last, ssid, pwd)
      case Send(c) =>
        if room == Some(0) {
          return true, last, room, sent, false, true;
        }
        return false, Some(c.Kind()), Spend(room), sent + [c], false, false;
      case Finish(ok) =>
        return true, last, room, sent, ok, false;
      case Wait =>
        return false, last, room, sent, false, false;
    }

    /** One poll: the reader handles its batch, then the loop reads the port's `wifi` value. */
    method Poll(port: Port, batch: seq<ReadResult>) returns (wifi: string)
      modifies this
      ensures states == Replay(old(states), port, batch)
      ensures wifi == WifiOf(states, port)
    {
      ReadLoop(port, batch);
      wifi := WifiOf(states, port);
    }

    /**
     * The provisioning loop over the open ports: port `i` is given `nets[i]`, a port beyond
     * the end of the list is skipped, and a serial call that raises ends the loop (and the
     * script: nothing catches it). `before[i]` is the registry port `i`'s turn starts from;
     * `faults[i]` and `batches[i]` are its serial fault and its reader's batches.
     */
    method ProvisionAll(ports: seq<Port>, nets: seq<Network>, faults: seq<Option<nat>>,
                        batches: seq<seq<seq<ReadResult>>>)
      returns (results: seq<Provisioning>, ghost before: seq<map<Port, PortState>>)
      requires |faults| >= |ports| && |batches| >= |ports|
      requires forall p :: p in ports ==> p in states
      modifies this
      ensures |results| <= |ports| && |before| == |results| + 1
      ensures before[0] == old(states) && before[|results|] == states
      ensures forall i :: 0 <= i <= |results| ==> before[i].Keys == old(states).Keys
      ensures forall i :: 0 <= i < |results| ==>
        (results[i], before[i + 1]) == ProvisionOne(before[i], ports[i], NetworkAt(nets, i), faults[i], batches[i])
      ensures forall i :: 0 <= i < |results| - 1 ==> !results[i].Crashed?
      ensures |results| < |ports| ==> results != [] && results[|results| - 1].Crashed?
    {
      results, before := [], [states];
      var i := 0;
      while i < |ports|
        invariant i <= |ports| && |results| == i && |before| == i + 1
        invariant before[0] == old(states) && before[i] == states
        invariant forall j :: 0 <= j <= i ==> before[j].Keys == old(states).Keys
        invariant Chained(before, results, ports, nets, faults, batches)
        invariant forall j :: 0 <= j < i ==> !results[j].Crashed?
      {
        var r := Turn1(ports[i], NetworkAt(nets, i), faults[i], batches[i]);
        ChainedSnoc(before, results, ports, nets, faults, batches, r, states);
        results, before := results + [r], before + [states];
        if r.Crashed? {
          return;
        }
        i := i + 1;
      }
    }

    /** One turn of the provisioning loop. */
    method Turn1(port: Port, net: Option<Network>, fault: Option<nat>, batches: seq<seq<ReadResult>>)
      returns (r: Provisioning)
      requires port in states
      modifies this
      ensures (r, states) == ProvisionOne(old(states), port, net, fault, batches)
    {
      if net.None? {
        return Skipped;
      }
      var n := net.value;
      var sent, ok, crashed := Connect(port, n.ssid, n.pwd, fault, batches);
      r := if crashed then Crashed(n, sent) else Tried(n, sent, ok);
    }

    /**
     * The start of gopro/goproManager.py and movella/uniti.py: open the ports; when none
     * opened, exit before the network file is read; otherwise give port `i` of the open
     * ports the `i`-th network of the file, until a serial call raises. `faults[i]` and
     * `batches[i]` belong to the `i`-th open port; `before` is as for `ProvisionAll`.
     */
    method Startup(targets: seq<Port>, openOk: seq<bool>, file: Option<seq<string>>,
                   faults: seq<Option<nat>>, batches: seq<seq<seq<ReadResult>>>)
      returns (arduinos: seq<Port>, exited: bool, results: seq<Provisioning>, ghost before: seq<map<Port, PortState>>)
      requires |openOk| == |targets| && |faults| >= |targets| && |batches| >= |targets|
      modifies this
      ensures arduinos == Select(targets, openOk, true)
      ensures exited <==> arduinos == []
      ensures exited ==> results == []
      ensures |results| <= |arduinos| && |before| == |results| + 1 && before[|results|] == states
      ensures before[0].Keys == old(states).Keys + set p | p in arduinos
      ensures forall p :: p in arduinos ==> before[0][p] == OpenRecord
      ensures forall p :: p in old(states) && p !in arduinos ==> before[0][p] == old(states)[p]
      ensures forall i :: 0 <= i <= |results| ==> before[i].Keys == before[0].Keys
      ensures var nets := if file.Some? then Networks(file.value) else [];
        forall i :: 0 <= i < |results| ==>
          (results[i], before[i + 1]) == ProvisionOne(before[i], arduinos[i], NetworkAt(nets, i), faults[i], batches[i])
      ensures forall i :: 0 <= i < |results| - 1 ==> !results[i].Crashed?
      ensures !exited && |results| < |arduinos| ==> results != [] && results[|results| - 1].Crashed?
    {
      arduinos := OpenAll(targets, openOk);
      if arduinos == [] {
        return arduinos, true, [], [states];
      }
      exited := false;
      var nets := LoadNetworks(file);
      results, before := ProvisionAll(arduinos, nets, faults, batches);
    }
  }
}
