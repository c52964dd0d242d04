# GoPro-LD control core in Dafny

GoPro-LD drives two kinds of recorders from one PC:
- GoPro cameras behind Arduino trigger boards on serial ports, commanded with `START`, `STOP` and `STATUS`, and given Wi-Fi credentials with `SETSSID`/`SETPASS`;
- Movella DOT inertial sensors over Bluetooth LE.

The scripts are near duplicates. This project models the control logic under their I/O, script by script:

| module (file) | models |
|---|---|
| `Strings`, `Options` (`Text.dfy`) | Python `strip()` (the full `isspace` set), ASCII `lower()`, `startswith`, first-comma search |
| `SerialCore` (`Serial.dfy`) | what gopro/goproManager.py and movella/uniti.py share: the per-port registry `arduino_states` and the reader that writes it, `send_command`, `load_networks`, the `connect_arduino` handshake, opening the ports, index-based network assignment |
| `Console` (`Console.dfy`) | the `prompt(...).lower().strip()` dispatch loops of gopro/goproManager.py, goproManager.py and uniti.py |
| `Sensors` (`Sensors.dfy`) | the "Movella DOT" device filter, the five-sensor cap, and the trace of sensor calls a session makes |
| `MovellaUniti` (`MovellaUniti.dfy`) | movella/uniti.py: `command_interface` and its two events, the three-try configuration, `movella_manager` |
| `Recording` (`Recording.dfy`) | movella/recording2.py: the `recording_flag` listener, four-step sensor acceptance, the `try`/`finally` session |
| `Legacy` (`Legacy.dfy`) | goproManager.py: the registry-less reader that stops at the first error, the threaded `send_command`, `monitor_status`, the program |
| `Combined` (`Combined.dfy`) | uniti.py: the echo-only reader, the `MovellaManager` class, the console that pairs serial and sensor commands |
| `Programs` (`Programs.dfy`) | the top levels of gopro/goproManager.py and movella/uniti.py: start-up, then the console or `movella_manager`, then closing the ports |

State that the scripts change in place is modelled as state:
- `arduino_states` is the `map` field of class `SerialCore.Registry`.
- The two events are fields of `MovellaUniti.Events`.
- `recording_flag` is class `Recording.RecordingFlag`.
- `MovellaManager.sensors` is a `seq` field.

Loops:
- Every loop that builds a result step by step is a `while` loop. Each is proved against a function that specifies it.
- In the provisioning loop, each turn is proved against the function `ProvisionOne` for one port.
- The loops that close the ports (`for ser in arduinos: ser.close()`) have no outcome the model records. They are modelled as the list of ports closed, set in one assignment.

External outcomes are inputs:
- each port open and readline, each write of `send_command` (which catches a failing write), and each BLE connect, info read, identify, configure and start;
- in `connect_arduino`, which serial call raises, if any. Nothing catches that exception, so it ends the script;
- the console answers;
- for the provisioning loop, the readings the reader thread handles before each poll. The number of polls that fit before the 20-second deadline is the length of that list.

## Model

| member | source | states |
|---|---|---|
| Strings.TrimLeft | gopro/goproManager.py:28 | `lstrip` leaves a suffix of the input that does not start with white space |
| Strings.TrimRight | gopro/goproManager.py:28 | `rstrip` leaves a prefix of the input that does not end with white space |
| Strings.TrimLeftDropsSpace | gopro/goproManager.py:28 | everything `lstrip` drops is white space |
| Strings.TrimRightDropsSpace | gopro/goproManager.py:28 | everything `rstrip` drops is white space |
| Strings.StripStripped | gopro/goproManager.py:80 | the result of `strip()` has no white space at either end |
| Strings.StrippedFixed | gopro/goproManager.py:85-86 | stripping text that has no white space at its ends changes nothing |
| Strings.IndexOf | gopro/goproManager.py:83 | the index found holds the separator and no earlier index does, or there is none |
| SerialCore.Absorb | gopro/goproManager.py:34-41 | a non-empty line sets exactly the key its keyword selects, to the line, and keeps the other three keys |
| SerialCore.AfterReadUpdatesOneKey | gopro/goproManager.py:32-42 | after a non-empty line the port has a record whose selected key holds the line and whose other keys are as before (`{}` for a new port) |
| SerialCore.AfterReadOwnPortOnly | gopro/goproManager.py:32-42 | a read adds at most its own port to the registry and leaves every other port's record unchanged |
| SerialCore.Replay | gopro/goproManager.py:26-51 | a reader keeps every existing key, adds at most its own port and never changes another port's record |
| SerialCore.ReplayConcat | gopro/goproManager.py:26-51 | reading two runs one after the other is reading them joined |
| SerialCore.ReplaySkipsInert | gopro/goproManager.py:29-30 | a failed read or a blank line changes nothing, and the reads after it have the same effect as without it |
| SerialCore.ReplayKeepsWifi | gopro/goproManager.py:34-41 | lines that are not Wi-Fi keywords never change a port's `wifi` value |
| SerialCore.SelectMembers | gopro/goproManager.py:144-155 | selection keeps every element whose flag matches and nothing else |
| SerialCore.SelectAllTrue | gopro/goproManager.py:144-155 | when every flag is true, selection keeps everything for `true` and nothing for `false` |
| SerialCore.SelectAllBut | gopro/goproManager.py:56-62 | when only flag `f` is false, the `false` selection is that element and the `true` selection is everything else, in order |
| SerialCore.FanOutOutcomes | gopro/goproManager.py:56-62 | the ports that get the command are exactly those whose own write succeeds, and the failures reported are exactly those whose own write fails |
| SerialCore.FanOutIsolatesOneFailure | gopro/goproManager.py:56-62 | when one port's write fails, every other port still receives the command and exactly one failure is reported |
| SerialCore.SendCommand | gopro/goproManager.py:56-62 | one attempt per port in list order, each writing `cmd + "\n"` with that port's own outcome |
| SerialCore.StripWithin | gopro/goproManager.py:83-86 | stripping keeps only characters of the original |
| SerialCore.ParseLine | gopro/goproManager.py:79-87 | a line yields a pair exactly when it is non-empty once stripped, is not a `#` comment and has a comma; the name has no comma and both halves are stripped |
| SerialCore.SplitAtComma | gopro/goproManager.py:83 | the name has no comma, and name, comma and rest rebuild the line |
| SerialCore.SplitAtCommaJoin | gopro/goproManager.py:83 | splitting at the first comma takes apart a comma-free name joined to any rest, so a password may hold commas |
| SerialCore.NetworkRoundTrip | gopro/goproManager.py:79-87 | a stripped pair whose name has no comma and is not a comment, written as `ssid,pwd`, parses back to itself |
| SerialCore.JoinedStripped | gopro/goproManager.py:80-84 | a comma-joined pair of stripped texts is a stripped, non-comment line with a comma |
| SerialCore.ParseStrippedLine | gopro/goproManager.py:80-87 | on such a line the parser strips the two halves of the first-comma split |
| SerialCore.IndexOfAfter | gopro/goproManager.py:83 | the first comma of `name,rest` is the one after the comma-free name |
| SerialCore.NetworksStep | gopro/goproManager.py:79-87 | each further line adds its pair, if it names one, at the end |
| SerialCore.NetworksConcat | gopro/goproManager.py:76-87 | lines are parsed independently and the pairs keep file order |
| SerialCore.LoadNetworks | gopro/goproManager.py:75-90 | a missing file gives no pairs; otherwise the pairs of the file's lines, in order |
| SerialCore.Respond | gopro/goproManager.py:116-134 | a poll finishes exactly on CONNECTED or DISCONNECTED (success exactly on CONNECTED), sends SETSSID only on NO_SSID and SETPASS only on NO_PASS, and never resends the kind sent last |
| SerialCore.Handshake | gopro/goproManager.py:112-139 | no more commands than polls and no more polls than the budget; success only after a poll that read CONNECTED, and never after a crash; a crash happens only when a write fault was given, after exactly the commands that went through |
| SerialCore.HandshakeAlternates | gopro/goproManager.py:116-126 | SETSSID is never sent twice in a row, nor SETPASS, counting the command sent before the loop |
| SerialCore.HandshakeVerdict | gopro/goproManager.py:112-139 | unless a write raises first, the loop stops at the first poll that reads a verdict and succeeds exactly when that verdict is CONNECTED; with no verdict it fails, making every poll unless a write raises |
| SerialCore.HandshakeUnfaulted | gopro/goproManager.py:116-124 | a write fault that the handshake never reaches changes nothing: the run is the fault-free one |
| SerialCore.HandshakeCut | gopro/goproManager.py:116-124 | when the fault-free run would send more commands than go through, the run crashes unconnected, having sent exactly the fault-free run's commands up to the write that raises |
| SerialCore.Reset | gopro/goproManager.py:109-110 | the port's `wifi` value is NO_SSID afterwards |
| SerialCore.Batches | gopro/goproManager.py:109-114 | the reader's updates between polls keep every key and add at most the port |
| SerialCore.BatchesKeys | gopro/goproManager.py:109-114 | when the port already has a record, the reader's updates leave the set of ports unchanged |
| SerialCore.Views | gopro/goproManager.py:113-114 | one `wifi` value is read per poll |
| SerialCore.FirstPollSendsSsid | gopro/goproManager.py:109-120 | because of the reset, the first poll sends SETSSID unless a Wi-Fi keyword arrives before it; if that first write raises, the run crashes at once with nothing sent |
| SerialCore.Connection | gopro/goproManager.py:103-139 | no port is added or removed; a raising `reset_input_buffer` crashes before anything changes; a crash happens only at the given fault, after the commands before it |
| SerialCore.NetworkAt | gopro/goproManager.py:165-169 | port `i` has a network exactly when the list has an `i`-th pair, and it is that pair |
| SerialCore.ProvisionOne | gopro/goproManager.py:165-171 | a port with no network is skipped and changes nothing; otherwise it is tried (or crashes) with its own network; no port is added or removed |
| SerialCore.ProvisionOneFaults | gopro/goproManager.py:103-124 | a provisioned port's commands alternate and are no more than its polls; it crashes exactly when its fault hits a call the fault-free run makes, and otherwise gets the fault-free result; a crash keeps only the commands before the faulting write |
| SerialCore.OpenPorts | uniti.py:113-125 | the open ports are exactly the targets that opened, in order |
| SerialCore.Registry.constructor | gopro/goproManager.py:16 | the registry starts empty |
| SerialCore.Registry.Open | gopro/goproManager.py:150-151 | an opened port gets `{status: OPEN, wifi: NO_SSID, last_cmd: None}` |
| SerialCore.Registry.OpenAll | gopro/goproManager.py:144-155 | exactly the ports that open are listed and get the initial record; other records are untouched |
| SerialCore.Registry.ReadLoop | gopro/goproManager.py:26-51 | the registry after a run of reads is its replay |
| SerialCore.Registry.Poll | gopro/goproManager.py:112-114 | one poll sees the registry after its batch of reads |
| SerialCore.Registry.Turn | gopro/goproManager.py:112-136 | one pass of the loop either ends the handshake as the whole run does (a verdict, or a write that raises) or moves it on by one poll, with the command written, `last_sent` and the writes left updated |
| SerialCore.Registry.Converse | gopro/goproManager.py:105-139 | the commands sent, the result and whether a write raised are those of `Handshake` over the values polled; the registry has handled exactly the batches read up to the last poll |
| SerialCore.Registry.Connect | gopro/goproManager.py:95-139 | the outcome and registry of `Connection`: a raising `reset_input_buffer` changes nothing; otherwise the handshake from the registry with `wifi` reset to NO_SSID |
| SerialCore.Registry.ProvisionAll | gopro/goproManager.py:164-171 | a chain of registries from the old one to the new one: port `i` gets `ProvisionOne` with network `i` from the registry the earlier ports left; no turn before the last crashed, and the loop stops early only at a crash; no port is added or removed |
| SerialCore.Registry.Turn1 | gopro/goproManager.py:165-171 | one turn of the loop gives the result and registry of `ProvisionOne` |
| SerialCore.Registry.Startup | gopro/goproManager.py:144-171 | with no port open the program exits and provisions nothing; otherwise the chain starts from the registry with the opened ports' initial records, and open port `i` gets `ProvisionOne` with the `i`-th pair of the file, until a serial call raises |
| Console.LowerConcat | gopro/goproManager.py:185 | lowering works letter by letter |
| Console.TrimLeftPadded | gopro/goproManager.py:185 | leading white space is what `lstrip` removes |
| Console.TrimRightPadded | gopro/goproManager.py:185 | trailing white space is what `rstrip` removes |
| Console.TrimLeftThenPad | gopro/goproManager.py:185 | `lstrip` keeps trailing white space unless the text was all white space |
| Console.StripPadded | gopro/goproManager.py:185 | `strip` ignores white space added on either side |
| Console.NormalizePadded | gopro/goproManager.py:185 | an answer means the same whatever its case and surrounding white space |
| Console.TrimLeftLower | movella/recording2.py:22 | `lstrip` commutes with lowering |
| Console.TrimRightLower | movella/recording2.py:22 | `rstrip` commutes with lowering |
| Console.StripLowerCommute | movella/recording2.py:22 | `strip().lower()` and `lower().strip()` give the same text |
| Console.StatusAndOther | gopro/goproManager.py:192-198 | unknown answers do nothing; `status` prints the registry only at the registry console and writes STATUS only at the broadcast console |
| Console.Commands | gopro/goproManager.py:185-198 | one branch per answer: `a`, `s`, `status` and `q` select their own branch exactly when the lowered, stripped answer is that word, and every other answer is not valid |
| Console.BeforeQuit | gopro/goproManager.py:194-196 | the loop handles the answers before the first `q` |
| Console.EffectsConcat | gopro/goproManager.py:184-198 | the effects of consecutive answers are concatenated |
| Console.EffectsSnoc | gopro/goproManager.py:184-198 | one more answer adds its reaction at the end |
| Console.ConsoleLoop | gopro/goproManager.py:183-205 | the effects are those of the answers before `q`; every port is closed after `q`, and none without it |
| Console.Prompt | gopro/goproManager.py:183-198 | the loop stops at the first `q` and has reacted to every answer before it |
| Console.IgnoresAfterQuit | gopro/goproManager.py:194-196 | answers after the first `q` are never acted upon, and `q` closes the ports |
| Console.NoQuitNoClose | gopro/goproManager.py:183-205 | without `q` every answer is acted upon and no port is closed |
| Console.OtherIgnored | gopro/goproManager.py:197-198 | an unknown answer leaves the effects of the other answers as they were |
| Console.RegistryConsoleWrites | gopro/goproManager.py:186-193 | this console never writes STATUS and never touches sensors |
| Console.PairedConcat | uniti.py:139-146 | joining two runs in which every serial command is paired with its sensor command keeps that pairing |
| Console.CombinedSerialFirst | uniti.py:139-146 | each sensor start comes right after a serial START and each sensor stop right after a serial STOP, and the other way round |
| Console.StartSendsOnce | gopro/goproManager.py:186-188 | each `a` adds one serial START, and in uniti.py one sensor start after it |
| Sensors.DotDevices | movella/uniti.py:152 | no more devices are taken than were scanned, and all of them are Movella DOT devices |
| Sensors.DotDevicesMembers | movella/uniti.py:152 | a device is taken exactly when it was scanned and its non-empty name contains "Movella DOT" |
| Sensors.DotDevicesConcat | movella/uniti.py:152 | the filter keeps scan order |
| Sensors.UnnamedNeverTaken | movella/uniti.py:152 | a device with no name or an empty name is never taken |
| Sensors.FirstFive | movella/recording2.py:52-53 | the first `min(5, n)` devices, in scan order |
| Sensors.CandidatesStable | movella/recording2.py:46-53 | once five Movella DOT devices are found, further scan results change nothing |
| Sensors.Each | movella/uniti.py:220 | one call per sensor, in list order, each with the given operation on a sensor of the list |
| Sensors.OrderedConcat | movella/uniti.py:215-236 | joining two ordered traces, the second in later phases, gives an ordered trace |
| Sensors.EachApplies | movella/uniti.py:220 | a gathered call reaches exactly the sensors of the list, and with no other operation |
| MovellaUniti.BeforeEnd | movella/uniti.py:246-259 | the console thread reads answers up to the first `s` or `q` |
| MovellaUniti.Listen | movella/uniti.py:246-259 | the start event is set exactly when an `a` comes before the thread ends; the stop event exactly when the thread ends on `s` |
| MovellaUniti.ListenStopsAtEnd | movella/uniti.py:251-257 | answers after the one that ends the thread are never read |
| MovellaUniti.QuitNeverStops | movella/uniti.py:255-257 | `q` ends the thread without setting the stop event |
| MovellaUniti.Events.constructor | movella/uniti.py:34-35 | both events start cleared |
| MovellaUniti.Events.CommandInterface | movella/uniti.py:243-259 | each event is set afterwards exactly when it was set before or the answers set it |
| MovellaUniti.Events.Handle | movella/uniti.py:246-259 | the same, over the classified answers |
| MovellaUniti.Configure | movella/uniti.py:187-197 | success exactly when one of the first three attempts succeeds; it stops at the first success and makes three attempts on failure |
| MovellaUniti.SetupSensors | movella/uniti.py:169-205 | the sensors kept are exactly the devices whose link came up and configured, in scan order; those whose link came up but never configured are disconnected |
| MovellaUniti.SessionOrdered | movella/uniti.py:215-236 | serial START, then every sensor start, then serial STOP, then every sensor stop, then every disconnect |
| MovellaUniti.SessionCalls | movella/uniti.py:215-236 | sensors are started exactly when the start event is set, and stopped and disconnected exactly when both events are set; only then does the session return |
| MovellaUniti.MovellaManager | movella/uniti.py:149-238 | it returns at once with no Movella DOT device or no configured sensor; otherwise it runs the session on the sensors kept |
| MovellaUniti.EndBeforeStartHangs | movella/uniti.py:215-216 | if the first answer is `s` or `q`, the session makes no call at all and never returns, so the close after it is never reached |
| Recording.StartIdempotent | movella/recording2.py:23-28 | `a` while recording changes nothing |
| Recording.StopIgnoredWhenIdle | movella/recording2.py:29-35 | `s` while not recording changes nothing and does not end the listener |
| Recording.OtherKeysIgnored | movella/recording2.py:36-37 | any other key changes nothing and does not end the listener |
| Recording.ListenValid | movella/recording2.py:24-32 | `stop` implies `recording` after any run of keys |
| Recording.ListenRecording | movella/recording2.py:18-37 | `recording` ends up set exactly when it was set before or some `a` was read |
| Recording.ListenStop | movella/recording2.py:18-37 | `stop` ends up set exactly when it was set before, or an `s` came while recording, or an `s` came after an `a` |
| Recording.StopBeforeStartForgotten | movella/recording2.py:29-35 | an `s` before any `a` is forgotten |
| Recording.RecordingFlag.constructor | movella/recording2.py:16 | both flags start false |
| Recording.RecordingFlag.KeyboardListener | movella/recording2.py:18-37 | the flags afterwards are the listener's result on the classified keys, each key classified after `strip().lower()` as the listener writes it |
| Recording.KeysAsWritten | movella/recording2.py:22 | classifying a key after `strip().lower()` gives the same command as after lower-casing then stripping |
| Recording.RecordingFlag.Handle | movella/recording2.py:21-37 | the same, over the classified keys |
| Recording.ConnectSensors | movella/recording2.py:64-93 | the sensors kept are exactly the devices for which connect, info, identify and configure all succeed, in scan order; those that connected but failed later are left connected |
| Recording.SessionOrdered | movella/recording2.py:99-137 | starts, then stops, then disconnects |
| Recording.SessionCalls | movella/recording2.py:99-137 | sensors are started exactly when `recording` is set and stopped exactly when starting succeeded and `stop` is set; all are disconnected exactly when the session returns |
| Recording.Record | movella/recording2.py:43-137 | it returns at once with no candidate or no accepted sensor; otherwise it runs the session on those of the first five Movella DOT devices that were accepted; the stranded ones are those that connected and failed later |
| Recording.KeysDecideSession | movella/recording2.py:102-113 | from the initial flags, when starting succeeds, the session returns exactly when an `s` came after an `a` |
| Legacy.DescribeAgrees | goproManager.py:26-33 | each notice repeats its line and falls in the class the registry readers would use, except NO_SSID and NO_PASS, which are only echoed |
| Legacy.BeforeFailure | goproManager.py:34-36 | counts the reads before the first failure, which is where the reader stops |
| Legacy.ReportedConcat | goproManager.py:22-33 | reports of consecutive runs are concatenated |
| Legacy.StopsAtFailure | goproManager.py:34-36 | after a read error nothing more is ever reported |
| Legacy.NoFailureReportsAll | goproManager.py:22-33 | a run without a failure is reported whole |
| Legacy.ReadArduino | goproManager.py:21-36 | the reader reports the reads before the first failure and makes one more read, the failing one |
| Legacy.Report | goproManager.py:24-33 | a line blank once stripped reports nothing; any other line gives one notice that repeats it, as READY, as a recorder state exactly for STARTED/STOPPED, as a Wi-Fi state exactly for CONNECTED/DISCONNECTED |
| Legacy.SendCommand | goproManager.py:41-54 | the threaded fan-out makes exactly the attempts of the sequential one, in no fixed order |
| Legacy.OneAttemptPerPort | goproManager.py:41-54 | with distinct ports, each port gets exactly one attempt with its own outcome, and there are no other attempts |
| Legacy.MonitorStatus | goproManager.py:59-62 | every tick makes one STATUS round over all ports |
| Legacy.GoPro | goproManager.py:67-114 | with no port open it exits before the monitor starts; otherwise the console runs and `q` closes every open port |
| Legacy.BroadcastWrites | goproManager.py:95-107 | this console only writes to the devices, and writes STATUS exactly when `status` was answered |
| Combined.EchoedConcat | uniti.py:28-37 | the echoes of consecutive runs are concatenated |
| Combined.ReaderSurvives | uniti.py:32-37 | a failed or blank read shows nothing, and reading goes on after it |
| Combined.EchoedStripped | uniti.py:31-34 | every echoed line is non-empty and stripped |
| Combined.ReadArduino | uniti.py:28-37 | the reader shows every non-blank line, stripped, and goes on past errors |
| Combined.MovellaManager.constructor | uniti.py:51-52 | the sensor list starts empty |
| Combined.MovellaManager.ConnectSensors | uniti.py:61-85 | the sensors appended are those of the first five Movella DOT devices that connected and configured, in scan order |
| Combined.MovellaManager.StartRecording | uniti.py:90-95 | one call per sensor, every one a start; a start reaches exactly the sensors of the list; none when the list is empty |
| Combined.MovellaManager.StopRecording | uniti.py:97-101 | one call per sensor, every one a stop; a stop reaches exactly the sensors of the list; none when the list is empty |
| Combined.StartReachesEverySensor | uniti.py:90-95 | a start reaches exactly the connected sensors and never stops or disconnects one; an empty list issues nothing |
| Combined.KeptSensors | uniti.py:64-85 | at most five sensors are kept, all Movella DOT devices |
| Combined.EveryAnswerCounts | uniti.py:136-151 | every `a` sends one serial START and one sensor start, and every `s` one serial STOP and one sensor stop |
| Combined.Uniti | uniti.py:113-158 | with no port open it exits; otherwise the sensors are connected and the console runs until `q`, which closes every port |
| Programs.GoproManager | gopro/goproManager.py:144-205 | with no port open it exits and provisions nothing; otherwise the registry goes from the opened ports' initial records through one `ProvisionOne` turn per open port, port `i` with the `i`-th pair of the file, and the last registry of that chain is the program's; a serial call that raises ends the program at that turn, with no console and no port closed; otherwise every open port is provisioned and the registry console runs, closing every port after `q` |
| Programs.MovellaUnitiMain | movella/uniti.py:122-270 | with no port open it exits and provisions nothing; otherwise the registry goes from the opened ports' initial records through one `ProvisionOne` turn per open port, port `i` with the `i`-th pair of the file, and the last registry of that chain is the script's; a serial call that raises ends the script at that turn, before `movella_manager`, with no port closed; otherwise the manager runs on the sensors kept, with the events the answers set, and the ports are closed exactly when it returns |

## Left out

- Serial I/O (pyserial `readline`, `write`, `flush`, `reset_input_buffer`, byte decoding): each read is a string or a failure, and each open or `send_command` write succeeds or fails, as an input. In `connect_arduino` the input is which call raises, if any.
- SerialCore.Connection: a `flush` that raises after its `write` went through is counted with that write, so the command counts as not sent. A partial write is not modelled.
- Bluetooth and the sensor library (bleak scan and connect, `configure_sensor`, `get_device_info`, `identify_sensor`, `start_recording`, `stop_recording`, `disconnect`): each outcome is an input.
- Threads, the lock, the events' waiting and asyncio interleavings are not modelled. Each locked registry update is one atomic step. A `gather` is one call per sensor. A busy-wait on an event or flag is modelled as "the session continues when it is set, and otherwise waits forever".
- SerialCore.Registry.Startup / ProvisionAll: the registry reflects only the readings handled during each port's own polls. A port's reader thread also updates the registry while later ports are opened, during other ports' `connect_arduino` and after its own handshake. Those updates are not modelled, so an opened port's record is `OpenRecord` until its own provisioning turn, and the final registry holds only the readings of each port's own polls. The handshakes do not depend on this: each one resets its port's `wifi` first and reads no other field.
- Programs.MovellaUnitiMain: the console thread runs to its end before `movella_manager` reads the events, so the events it sees are those the whole run of answers sets.
- uniti.py: `movella.connect_sensors()` runs in the background while the console starts. The model lets the scan finish before the first answer.
- Clocks and sleeps: the 20-second deadline of `connect_arduino` is the number of polls that fit in it. `monitor_status` runs for a given number of ticks.
- Printing: log text, emoji, `print_states` formatting.
- The recording summary of movella/recording2.py:116-131: floating point and printing only.
- movella/movella_diagnostic_v2.py and the other files under movella/: not part of this model.
- gopro/goproManager.py:67-70 `monitor_status` is defined but never started there. The STATUS round is modelled once, in `Legacy.MonitorStatus`.
- Strings.Lower: ASCII letters only. That is exact for recognising `a`, `s`, `q` and `status`: no other character lowers to one of their letters.
- SerialCore.PortState: `last_cmd: None` and an absent `last_cmd` key are the same value. They differ only in `print_states` output.
- Recording.Session: a failing `stop_recording` gives the same calls as a successful one (the `finally` block disconnects every sensor either way), so only a failing start is an input.
- MovellaUniti.MovellaManager: an exception from a gathered start or stop would end the coroutine before the ports are closed. This is not modelled.
- MovellaUniti.MovellaManager: disconnects are issued to every kept sensor without the `is_connected` check, which depends on the library.
- MovellaUniti.SetupSensors: a device that connected but failed to configure is always released. The `is_connected` check before that disconnect depends on the library and is not modelled.
- The code has no credential claiming or reassignment, no characteristic probing and no Ready/Recording state change: `status` is only ever OPEN or READY, and port `i` gets network `i`.
