/** The device as the setup utilities see it: a shell channel that answers
    each command with its output or an `AdbError`, a root bit and an SDK
    level. The exact command strings are abstracted into `Command` values;
    the device's answers are an oracle over the history of commands. */
module Device {

  /** The shell commands the setup utilities issue. */
  datatype Command =
    | QueryPhFlags(pname: string)
    | OverridePhFlag(pname: string, flagName: string, flagType: string, flagValue: string)
    | SetLogTagVerbose(tag: string)
    | PutAirplaneModeSetting(on: bool)
    | BroadcastAirplaneMode(on: bool)
    | SvcWifi(enable: bool)
    | SvcBluetooth(enable: bool)
    | SetWifiEnabled(enable: bool)
    | BroadcastCountryOverride(countryCode: string)
    | ForceCountryCode(countryCode: string)
    | DumpTelephonyCountryCode
    | AllowManageExternalStorage(packageName: string)
    | DumpGmsVersionCode
    | DumpWifiStatus
    | DumpWifiP2p

  /** The answer to one shell command: its decoded output, or an `AdbError`. */
  datatype Reply = Output(text: string) | AdbError

  /** How an operation ends: normally with a value, or by raising `AdbError`. */
  datatype Outcome<T> = Ok(value: T) | Raised

  /** The commands issued so far, and how the operation ended. */
  datatype Run<T> = Run(issued: seq<Command>, outcome: Outcome<T>)

  /** The device's answer to the last command of a history. */
  type Responder = seq<Command> -> Reply

  /** Issues `cmds` one after another after history `h`, stopping at (and
      propagating) the first `AdbError`: a straight run of `adb.shell` calls
      none of which is guarded. */
  function Exec(respond: Responder, h: seq<Command>, cmds: seq<Command>): (r: Run<()>)
    ensures |h| <= |r.issued| <= |h| + |cmds|
    ensures r.issued == h + cmds[..|r.issued| - |h|]
    ensures r.outcome.Ok? ==> r.issued == h + cmds
    ensures r.outcome.Raised? ==> |h| < |r.issued| && respond(r.issued).AdbError?
    decreases |cmds|
  {
    if cmds == [] then Run(h, Ok(()))
    else
      var h' := h + [cmds[0]];
      if respond(h').AdbError? then
        assert h' == h + cmds[..1];
        Run(h', Raised)
      else
        var r := Exec(respond, h', cmds[1..]);
        assert h + cmds[..|r.issued| - |h|] == h' + cmds[1..][..|r.issued| - |h'|];
        assert h' + cmds[1..] == h + cmds;
        r
  }

  /** Every command `Exec` issues before the last one was answered, and the
      run completes exactly when every command issued, the last included,
      was answered and none is left over. */
  lemma {:induction false} ExecReplies(respond: Responder, h: seq<Command>, cmds: seq<Command>)
    ensures var r := Exec(respond, h, cmds);
      && (forall j :: |h| < j < |r.issued| ==> respond(r.issued[..j]).Output?)
      && (r.outcome.Ok? <==> r.issued == h + cmds && forall j :: |h| < j <= |r.issued| ==> respond(r.issued[..j]).Output?)
    decreases |cmds|
  {
    var r := Exec(respond, h, cmds);
    if cmds != [] {
      var h' := h + [cmds[0]];
      if respond(h').AdbError? {
        assert r.issued == h' && h'[..|h'|] == h';
      } else {
        ExecReplies(respond, h', cmds[1..]);
        assert r == Exec(respond, h', cmds[1..]);
        assert r.issued[..|h'|] == h';
        assert h' + cmds[1..] == h + cmds;
      }
    }
  }

  /** Issuing `[c] + rest` is issuing `c`, then, unless it failed, `rest`. */
  lemma ExecCons(respond: Responder, h: seq<Command>, c: Command, rest: seq<Command>)
    ensures Exec(respond, h, [c] + rest)
      == if respond(h + [c]).AdbError? then Run(h + [c], Raised) else Exec(respond, h + [c], rest)
  {
    assert ([c] + rest)[0] == c;
    assert ([c] + rest)[1..] == rest;
  }

  /** A connected Android device. Everything but the command log is fixed
      for the device's lifetime. */
  class Device {
    const isAdbRoot: bool
    const buildVersionSdk: int
    const serial: string
    const respond: Responder
    var issued: seq<Command>

    constructor (isAdbRoot: bool, buildVersionSdk: int, serial: string, respond: Responder)
      ensures this.isAdbRoot == isAdbRoot && this.buildVersionSdk == buildVersionSdk
      ensures this.serial == serial && this.respond == respond
      ensures issued == []
    {
      this.isAdbRoot := isAdbRoot;
      this.buildVersionSdk := buildVersionSdk;
      this.serial := serial;
      this.respond := respond;
      issued := [];
    }

    /** `ad.adb.shell(cmd)`: the command is logged and the device answers it. */
    method Shell(cmd: Command) returns (reply: Reply)
      modifies this
      ensures issued == old(issued) + [cmd]
      ensures reply == respond(issued)
    {
      issued := issued + [cmd];
      reply := respond(issued);
    }
  }
}
