/**
 * The interactive command loop of the serial scripts: gopro/goproManager.py (a registry,
 * `status` prints it), goproManager.py (no registry, `status` asks the devices) and
 * uniti.py (serial devices and Movella sensors together, no `status`).
 *
 * Every prompt answer is read as `prompt(...).lower().strip()` and compared with the
 * command words; `q` ends the loop and the ports are closed after it.
 */
module Console {
  import opened Strings

  /** The command words the console loops compare against. */
  datatype Command = Start | Stop | Status | Quit | Other

  /** `raw.lower().strip()`. */
  function Normalize(raw: string): string {
    Strip(Lower(raw))
  }

  /** The branch a console loop takes for a normalized answer. */
  function Classify(cmd: string): Command {
    if cmd == "a" then Start
    else if cmd == "s" then Stop
    else if cmd == "status" then Status
    else if cmd == "q" then Quit
    else Other
  }

  /** The branch a console loop takes for one prompt answer. */
  function Parse(raw: string): Command {
    Classify(Normalize(raw))
  }

  // ------------------------------------------------------------------
  // Case and padding do not matter
  // ------------------------------------------------------------------

  lemma LowerConcat(a: string, b: string)
    ensures Lower(a + b) == Lower(a) + Lower(b)
  {
  }

  /** Lowering changes no white space, and white space is what `strip` removes. */
  lemma LowerKeepsSpace(c: char)
    ensures IsSpace(LowerChar(c)) <==> IsSpace(c)
  {
  }

  /** Leading white space is what `lstrip` removes, whatever follows it. */
  lemma {:induction false} TrimLeftPadded(ws: string, s: string)
    requires forall i :: 0 <= i < |ws| ==> IsSpace(ws[i])
    ensures TrimLeft(ws + s) == TrimLeft(s)
  {
    if ws != [] {
      assert (ws + s)[1..] == ws[1..] + s;
      TrimLeftPadded(ws[1..], s);
    } else {
      assert ws + s == s;
    }
  }

  /** Trailing white space is what `rstrip` removes, whatever precedes it. */
  lemma {:induction false} TrimRightPadded(s: string, ws: string)
    requires forall i :: 0 <= i < |ws| ==> IsSpace(ws[i])
    ensures TrimRight(s + ws) == TrimRight(s)
  {
    if ws != [] {
      var n := |ws| - 1;
      assert (s + ws)[..|s + ws| - 1] == s + ws[..n];
      TrimRightPadded(s, ws[..n]);
    } else {
      assert s + ws == s;
    }
  }

  /** `lstrip` of a text followed by white space: the white space survives unless the text was all white space. */
  lemma {:induction false} TrimLeftThenPad(s: string, ws: string)
    requires forall i :: 0 <= i < |ws| ==> IsSpace(ws[i])
    ensures TrimLeft(s) != [] ==> TrimLeft(s + ws) == TrimLeft(s) + ws
    ensures TrimLeft(s) == [] ==> TrimLeft(s + ws) == []
  {
    if s == [] {
      assert s + ws == ws;
      TrimLeftPadded(ws, []);
      assert ws + [] == ws;
    } else if IsSpace(s[0]) {
      assert (s + ws)[1..] == s[1..] + ws;
      TrimLeftThenPad(s[1..], ws);
    }
  }

  /** `strip` ignores white space added on either side. */
  lemma StripPadded(ws: string, s: string, ws': string)
    requires forall i :: 0 <= i < |ws| ==> IsSpace(ws[i])
    requires forall i :: 0 <= i < |ws'| ==> IsSpace(ws'[i])
    ensures Strip(ws + s + ws') == Strip(s)
  {
    assert ws + s + ws' == ws + (s + ws');
    TrimLeftPadded(ws, s + ws');
    TrimLeftThenPad(s, ws');
    if TrimLeft(s) != [] {
      TrimRightPadded(TrimLeft(s), ws');
    }
  }

  /** Lowering an already lowered answer changes nothing. */
  lemma LowerLower(s: string)
    ensures Lower(Lower(s)) == Lower(s)
  {
  }

  /** White space lowers to itself. */
  lemma LowerSpaces(ws: string)
    requires forall i :: 0 <= i < |ws| ==> IsSpace(ws[i])
    ensures Lower(ws) == ws
  {
  }

  /**
   * A console answer means the same whatever its letter case and whatever white space
   * (the newline of the terminal, say) surrounds it.
   */
  lemma NormalizePadded(ws: string, s: string, ws': string)
    requires forall i :: 0 <= i < |ws| ==> IsSpace(ws[i])
    requires forall i :: 0 <= i < |ws'| ==> IsSpace(ws'[i])
    ensures Normalize(ws + s + ws') == Normalize(s)
    ensures Normalize(Lower(s)) == Normalize(s)
  {
    LowerConcat(ws + s, ws');
    LowerConcat(ws, s);
    LowerSpaces(ws);
    LowerSpaces(ws');
    StripPadded(ws, Lower(s), ws');
    LowerLower(s);
  }

  /** `lstrip` commutes with lowering. */
  lemma {:induction false} TrimLeftLower(s: string)
    ensures TrimLeft(Lower(s)) == Lower(TrimLeft(s))
  {
    if s != [] {
      LowerKeepsSpace(s[0]);
      assert Lower(s)[0] == LowerChar(s[0]);
      assert Lower(s)[1..] == Lower(s[1..]);
      TrimLeftLower(s[1..]);
    }
  }

  /** `rstrip` commutes with lowering. */
  lemma {:induction false} TrimRightLower(s: string)
    ensures TrimRight(Lower(s)) == Lower(TrimRight(s))
  {
    if s != [] {
      var n := |s| - 1;
      LowerKeepsSpace(s[n]);
      assert Lower(s)[n] == LowerChar(s[n]);
      assert Lower(s)[..n] == Lower(s[..n]);
      TrimRightLower(s[..n]);
    }
  }

  /**
   * movella/recording2.py reads `input().strip().lower()`, the other scripts
   * `prompt().lower().strip()`: both orders give the same text.
   */
  lemma StripLowerCommute(s: string)
    ensures Lower(Strip(s)) == Normalize(s)
  {
    TrimLeftLower(s);
    TrimRightLower(TrimLeft(s));
  }

  // ------------------------------------------------------------------
  // The dispatch loop
  // ------------------------------------------------------------------

  /** The three console loops that share this shape. */
  datatype Script =
    | RegistryConsole   // gopro/goproManager.py
    | BroadcastConsole  // goproManager.py
    | CombinedConsole   // uniti.py

  /** The command words written to the devices. */
  datatype Order = StartOrder | StopOrder | StatusOrder {
    /** The text handed to `send_command`. */
    function Wire(): string {
      match this
      case StartOrder => "START"
      case StopOrder => "STOP"
      case StatusOrder => "STATUS"
    }
  }

  /**
   * What one answer makes the program do: one `send_command` over all ports, the
   * printout of the registry, or an asynchronous start/stop of all Movella sensors.
   */
  datatype Effect = Send(order: Order) | ShowStates | StartSensors | StopSensors

  /** The effects of one answer other than `q`, in program order. */
  function Reaction(script: Script, c: Command): seq<Effect> {
    match c
    case Start => if script == CombinedConsole then [Send(StartOrder), StartSensors] else [Send(StartOrder)]
    case Stop => if script == CombinedConsole then [Send(StopOrder), StopSensors] else [Send(StopOrder)]
    case Status =>
      if script == RegistryConsole then [ShowStates]
      else if script == BroadcastConsole then [Send(StatusOrder)]
      else []
    case Quit => []
    case Other => []
  }

  /**
   * `status` prints the registry in gopro/goproManager.py, asks the devices for their state
   * in goproManager.py and is not a command in uniti.py; an unknown answer does nothing.
   */
  lemma StatusAndOther(script: Script, c: Command)
    ensures Reaction(script, Other) == []
    ensures ShowStates in Reaction(script, c) <==> script == RegistryConsole && c == Status
    ensures Send(StatusOrder) in Reaction(script, c) <==> script == BroadcastConsole && c == Status
    ensures Reaction(CombinedConsole, Status) == []
  {
  }

  /**
   * The branch taken for each answer, in order: `a`, `s`, `status` and `q` once lowered
   * and stripped select their own branch, and any other answer the "not valid" one.
   */
  function Commands(inputs: seq<string>): (cmds: seq<Command>)
    ensures |cmds| == |inputs|
    ensures forall i :: 0 <= i < |inputs| ==> cmds[i] == Parse(inputs[i])
    ensures forall i :: 0 <= i < |inputs| ==>
      && (cmds[i] == Start <==> Normalize(inputs[i]) == "a")
      && (cmds[i] == Stop <==> Normalize(inputs[i]) == "s")
      && (cmds[i] == Status <==> Normalize(inputs[i]) == "status")
      && (cmds[i] == Quit <==> Normalize(inputs[i]) == "q")
      && (cmds[i] == Other <==> Normalize(inputs[i]) !in {"a", "s", "status", "q"})
  {
    seq(|inputs|, i requires 0 <= i < |inputs| => Parse(inputs[i]))
  }

  /** The effects of a run of answers, in order. */
  function Effects(script: Script, cmds: seq<Command>): seq<Effect> {
    if cmds == [] then []
    else Effects(script, cmds[..|cmds| - 1]) + Reaction(script, cmds[|cmds| - 1])
  }

  /** How many answers come before the first `q` (all of them when there is none). */
  function BeforeQuit(cmds: seq<Command>): (n: nat)
    ensures n <= |cmds|
    ensures n < |cmds| ==> cmds[n] == Quit
    ensures Quit !in cmds[..n]
  {
    if cmds == [] then 0
    else if cmds[0] == Quit then 0
    else
      var n := BeforeQuit(cmds[1..]);
      assert cmds[..n + 1] == [cmds[0]] + cmds[1..][..n];
      1 + n
  }

  /** What a whole session at the console does: the effects of every answer before the first `q`, and whether `q` came. */
  datatype Session = Session(effects: seq<Effect>, quit: bool)

  function Dispatch(script: Script, cmds: seq<Command>): Session {
    var n := BeforeQuit(cmds);
    Session(Effects(script, cmds[..n]), n < |cmds|)
  }

  /** Effects of consecutive runs of answers are concatenated. */
  lemma {:induction false} EffectsConcat(script: Script, a: seq<Command>, b: seq<Command>)
    ensures Effects(script, a + b) == Effects(script, a) + Effects(script, b)
    decreases |b|
  {
    if b == [] {
      assert a + b == a;
    } else {
      var n := |b| - 1;
      var c, front := b[n], b[..n];
      assert b == front + [c] && a + b == (a + front) + [c];
      EffectsSnoc(script, a + front, c);
      EffectsSnoc(script, front, c);
      EffectsConcat(script, a, front);
      Associative(Effects(script, a), Effects(script, front), Reaction(script, c));
    }
  }

  /** Concatenation is associative (stated once, so that proofs about effects need not rediscover it). */
  lemma Associative<T>(x: seq<T>, y: seq<T>, z: seq<T>)
    ensures x + y + z == x + (y + z)
  {
  }

  /**
   * The console loop: reads answers until `q` and reacts to each; then, after `q`,
   * every port is closed. Without a `q` the loop is still waiting at the prompt and
   * no port is closed. Each answer is classified by `Parse`, which has no effect of its own.
   */
  method ConsoleLoop<P>(script: Script, ports: seq<P>, inputs: seq<string>)
    returns (effects: seq<Effect>, closed: seq<P>)
    ensures var s := Dispatch(script, Commands(inputs));
      effects == s.effects && closed == (if s.quit then ports else [])
  {
    var quit;
    effects, quit := Prompt(script, Commands(inputs));
    closed := [];
    if quit {
      closed := ports;
    }
  }

  /** The `while True` prompt loop itself, over the classified answers, up to the `break` on `q`. */
  method Prompt(script: Script, cmds: seq<Command>) returns (effects: seq<Effect>, quit: bool)
    ensures Dispatch(script, cmds) == Session(effects, quit)
  {
    effects, quit := [], false;
    var i := 0;
    while i < |cmds|
      invariant i <= |cmds|
      invariant Quit !in cmds[..i]
      invariant effects == Effects(script, cmds[..i])
    {
      assert cmds[..i + 1] == cmds[..i] + [cmds[i]];
      if cmds[i] == Quit {
        quit := true;
        break;
      }
      effects := effects + Reaction(script, cmds[i]);
      i := i + 1;
    }
    QuitAt(cmds, i);
  }

  /** A loop that has seen no `q` in its first `i` answers and stops at `i` stops where `BeforeQuit` says. */
  lemma QuitAt(cmds: seq<Command>, i: nat)
    requires i <= |cmds| && Quit !in cmds[..i]
    requires i < |cmds| ==> cmds[i] == Quit
    ensures BeforeQuit(cmds) == i
  {
  }

  // ------------------------------------------------------------------
  // What the loops promise
  // ------------------------------------------------------------------

  /** Answers after the first `q` are never read, and `q` closes the ports. */
  lemma IgnoresAfterQuit(script: Script, a: seq<Command>, b: seq<Command>)
    requires Quit !in a
    ensures Dispatch(script, a + [Quit] + b) == Session(Effects(script, a), true)
  {
    var cmds := a + [Quit] + b;
    assert cmds[..|a|] == a;
    QuitAt(cmds, |a|);
  }

  /** Without `q` every answer is acted upon and the loop is still waiting at the prompt. */
  lemma NoQuitNoClose(script: Script, cmds: seq<Command>)
    requires Quit !in cmds
    ensures Dispatch(script, cmds) == Session(Effects(script, cmds), false)
  {
    assert cmds[..|cmds|] == cmds;
    QuitAt(cmds, |cmds|);
  }

  /** One more answer adds its reaction. */
  lemma EffectsSnoc(script: Script, a: seq<Command>, c: Command)
    ensures Effects(script, a + [c]) == Effects(script, a) + Reaction(script, c)
  {
    assert (a + [c])[..|a|] == a;
  }

  /** An answer that is not a command word is ignored (beyond the warning it prints). */
  lemma OtherIgnored(script: Script, a: seq<Command>, b: seq<Command>)
    ensures Effects(script, a + [Other] + b) == Effects(script, a + b)
  {
    EffectsConcat(script, a + [Other], b);
    EffectsSnoc(script, a, Other);
    assert Reaction(script, Other) == [];
    EffectsConcat(script, a, b);
  }

  /** gopro/goproManager.py writes to the devices only on `a` and `s`: `status` only prints. */
  lemma {:induction false} RegistryConsoleWrites(cmds: seq<Command>)
    ensures forall e :: e in Effects(RegistryConsole, cmds) && e.Send? ==> e.order != StatusOrder
    ensures forall e :: e in Effects(RegistryConsole, cmds) ==> !e.StartSensors? && !e.StopSensors?
  {
    if cmds != [] {
      RegistryConsoleWrites(cmds[..|cmds| - 1]);
    }
  }

  /** Each serial START is directly followed by the sensor start, and each serial STOP by the sensor stop, and the other way round. */
  predicate Paired(e: seq<Effect>) {
    && (forall i :: 0 <= i < |e| && e[i] == StartSensors ==> 0 < i && e[i - 1] == Send(StartOrder))
    && (forall i :: 0 <= i < |e| && e[i] == StopSensors ==> 0 < i && e[i - 1] == Send(StopOrder))
    && (forall i :: 0 <= i < |e| && e[i] == Send(StartOrder) ==> i + 1 < |e| && e[i + 1] == StartSensors)
    && (forall i :: 0 <= i < |e| && e[i] == Send(StopOrder) ==> i + 1 < |e| && e[i + 1] == StopSensors)
  }

  lemma PairedConcat(a: seq<Effect>, b: seq<Effect>)
    requires Paired(a) && Paired(b)
    ensures Paired(a + b)
  {
    var e := a + b;
    forall i | 0 <= i < |e| && (e[i] == StartSensors || e[i] == StopSensors)
      ensures 0 < i && e[i - 1] == (if e[i] == StartSensors then Send(StartOrder) else Send(StopOrder))
    {
      if i < |a| {
        assert e[i] == a[i] && e[i - 1] == a[i - 1];
      } else {
        assert e[i] == b[i - |a|];
        assert e[i - 1] == b[i - 1 - |a|];
      }
    }
    forall i | 0 <= i < |e| && (e[i] == Send(StartOrder) || e[i] == Send(StopOrder))
      ensures i + 1 < |e| && e[i + 1] == (if e[i] == Send(StartOrder) then StartSensors else StopSensors)
    {
      if i < |a| {
        assert e[i] == a[i] && e[i + 1] == a[i + 1];
      } else {
        assert e[i] == b[i - |a|];
        assert e[i + 1] == b[i + 1 - |a|];
      }
    }
  }

  /**
   * uniti.py pairs each serial command with the matching sensor command, serial first:
   * a sensor start is always right after a serial START and a sensor stop right after
   * a serial STOP; there is no latch, so every `a` repeats both.
   */
  lemma {:induction false} CombinedSerialFirst(cmds: seq<Command>)
    ensures Paired(Effects(CombinedConsole, cmds))
  {
    if cmds != [] {
      var n := |cmds| - 1;
      CombinedSerialFirst(cmds[..n]);
      PairedConcat(Effects(CombinedConsole, cmds[..n]), Reaction(CombinedConsole, cmds[n]));
    }
  }

  /** Each `a` adds exactly one serial START, in every console. */
  lemma StartSendsOnce(script: Script, a: seq<Command>)
    ensures Effects(script, a + [Start]) == Effects(script, a) + [Send(StartOrder)] + (if script == CombinedConsole then [StartSensors] else [])
  {
    EffectsSnoc(script, a, Start);
  }
}
