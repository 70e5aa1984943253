/** The device-setup sequences of the Nearby connectivity tests: the
    phenotype-flag check and write, the retry-once wrappers around device
    configuration, and enabling the Nearby log tags.

    The first half gives each operation as a function from the device's
    answers and the command history to the commands issued and the outcome,
    and proves what the operations promise; the second half holds the
    operations as methods on a `Device`, each proved to behave as its
    function says. */
module Setup {
  import opened Strings
  import opened Device

  /** The Nearby log tags that `enable_logs` switches to VERBOSE, in order. */
  const LOG_TAGS: seq<string> := ["Nearby", "NearbyMessages", "NearbyDiscovery", "NearbyConnections", "NearbyMediums", "NearbySetup"]

  /** The lowest SDK level on which MANAGE_EXTERNAL_STORAGE can be granted. */
  const MANAGE_EXTERNAL_STORAGE_MIN_SDK: int := 30

  // ---------------------------------------------------------------------
  // Retrying

  /** The retry-once policy: run `op`; if it raised `AdbError`, run it once
      more after the commands the first attempt issued, and let the second
      attempt's outcome stand. */
  function RetryOnce<T>(op: seq<Command> -> Run<T>, h: seq<Command>): Run<T>
  {
    var first := op(h);
    if first.outcome.Ok? then first else op(first.issued)
  }

  /** Whatever the operation, the retry wrapper makes at most two attempts,
      the second only after the first raised, and it raises only when both
      attempts raised. */
  lemma RetryOnceAttempts<T>(op: seq<Command> -> Run<T>, h: seq<Command>)
    ensures var first := op(h);
      && (first.outcome.Ok? ==> RetryOnce(op, h) == first)
      && (first.outcome.Raised? ==> RetryOnce(op, h) == op(first.issued))
      && (RetryOnce(op, h).outcome.Raised? ==> first.outcome.Raised? && op(first.issued).outcome.Raised?)
  {
  }

  /** A retried run of commands issues the commands once when the first
      attempt succeeds, and otherwise restarts them from the first one
      after the command that failed: never more than two rounds. */
  lemma {:induction false} RetriedCommands(respond: Responder, h: seq<Command>, cmds: seq<Command>)
    ensures var first := Exec(respond, h, cmds);
      var r := RetryOnce(g => Exec(respond, g, cmds), h);
      && (first.outcome.Ok? ==> r.issued == h + cmds)
      && (first.outcome.Raised? ==>
            |first.issued| < |r.issued| && r.issued == first.issued + cmds[..|r.issued| - |first.issued|])
      && |r.issued| <= |h| + 2 * |cmds|
      && (r.outcome.Raised? ==> first.outcome.Raised? && respond(r.issued).AdbError?)
  {
    var first := Exec(respond, h, cmds);
    if first.outcome.Raised? {
      var second := Exec(respond, first.issued, cmds);
      assert RetryOnce(g => Exec(respond, g, cmds), h) == second;
    }
  }

  // ---------------------------------------------------------------------
  // enable_logs

  /** One `setprop log.tag.<tag> VERBOSE` per tag, in order. */
  function LogTagCommands(tags: seq<string>): (cmds: seq<Command>)
    ensures |cmds| == |tags|
    ensures forall i :: 0 <= i < |tags| ==> cmds[i] == SetLogTagVerbose(tags[i])
  {
    seq(|tags|, i requires 0 <= i < |tags| => SetLogTagVerbose(tags[i]))
  }

  /** `enable_logs` issues the VERBOSE setting for each Nearby tag in list
      order and, unless a command fails, exactly one per tag. */
  lemma EnableLogsOnePerTag(respond: Responder, h: seq<Command>)
    ensures var r := Exec(respond, h, LogTagCommands(LOG_TAGS));
      && |r.issued| <= |h| + |LOG_TAGS|
      && (forall i :: |h| <= i < |r.issued| ==> r.issued[i] == SetLogTagVerbose(LOG_TAGS[i - |h|]))
      && (r.outcome.Ok? <==> |r.issued| == |h| + |LOG_TAGS| && forall j :: |h| < j <= |r.issued| ==> respond(r.issued[..j]).Output?)
  {
    var cmds := LogTagCommands(LOG_TAGS);
    var r := Exec(respond, h, cmds);
    ExecReplies(respond, h, cmds);
    forall i | |h| <= i < |r.issued| ensures r.issued[i] == SetLogTagVerbose(LOG_TAGS[i - |h|]) {
      assert r.issued[i] == cmds[i - |h|];
    }
  }

  // ---------------------------------------------------------------------
  // Airplane mode

  /** `_do_enable_airplane_mode` (`on`) and `_do_disable_airplane_mode`
      (`!on`): the global setting and its broadcast on a rooted device only,
      then Wi-Fi and Bluetooth switched off (on) or back on (off). */
  function AirplaneModeCommands(isAdbRoot: bool, on: bool): (cmds: seq<Command>)
  {
    (if isAdbRoot then [PutAirplaneModeSetting(on), BroadcastAirplaneMode(on)] else [])
      + [SvcWifi(!on), SvcBluetooth(!on)]
  }

  /** `enable_airplane_mode` / `disable_airplane_mode`. */
  function SetAirplaneModeRun(respond: Responder, isAdbRoot: bool, on: bool, h: seq<Command>): Run<()>
  {
    RetryOnce(g => Exec(respond, g, AirplaneModeCommands(isAdbRoot, on)), h)
  }

  /** On a device without root only the Wi-Fi and Bluetooth services are
      switched; the airplane-mode setting itself is left alone. */
  lemma AirplaneModeWithoutRoot(respond: Responder, on: bool, h: seq<Command>)
    ensures var r := SetAirplaneModeRun(respond, false, on, h);
      forall i :: |h| <= i < |r.issued| ==> r.issued[i] == SvcWifi(!on) || r.issued[i] == SvcBluetooth(!on)
  {
    var cmds := AirplaneModeCommands(false, on);
    assert cmds == [SvcWifi(!on), SvcBluetooth(!on)];
    RetriedCommands(respond, h, cmds);
    var first := Exec(respond, h, cmds);
    var r := SetAirplaneModeRun(respond, false, on, h);
    forall i | |h| <= i < |r.issued| ensures r.issued[i] == SvcWifi(!on) || r.issued[i] == SvcBluetooth(!on) {
      if first.outcome.Ok? {
        assert r.issued[i] == cmds[i - |h|];
      } else if i < |first.issued| {
        assert r.issued[i] == first.issued[i] == cmds[i - |h|];
      } else {
        assert r.issued[i] == cmds[i - |first.issued|];
      }
    }
  }

  // ---------------------------------------------------------------------
  // Country code

  /** The commands `_do_set_country_code` issues before toggling airplane
      mode: Wi-Fi off, then the telephony and the Wi-Fi country overrides. */
  function CountryOverrideCommands(countryCode: string): seq<Command>
  {
    [SetWifiEnabled(false), BroadcastCountryOverride(countryCode), ForceCountryCode(countryCode)]
  }

  /** The commands `_do_set_country_code` issues after toggling airplane
      mode: Wi-Fi on, then a read-back of the telephony country code. */
  const COUNTRY_RESTORE_COMMANDS: seq<Command> := [SetWifiEnabled(true), DumpTelephonyCountryCode]

  /** `toggle_airplane_mode`: airplane mode on, then off, each retried on
      its own; an error that survives the retry propagates. */
  function ToggleAirplaneModeRun(respond: Responder, isAdbRoot: bool, h: seq<Command>): Run<()>
  {
    var enabled := SetAirplaneModeRun(respond, isAdbRoot, true, h);
    if enabled.outcome.Raised? then enabled
    else SetAirplaneModeRun(respond, isAdbRoot, false, enabled.issued)
  }

  /** A successful `enable_airplane_mode` (`on`) or `disable_airplane_mode`
      (`!on`) ends by switching Wi-Fi and Bluetooth off (on) or on (off). */
  lemma AirplaneModeEndsWithRadios(respond: Responder, isAdbRoot: bool, on: bool, h: seq<Command>)
    ensures var r := SetAirplaneModeRun(respond, isAdbRoot, on, h);
      r.outcome.Ok? ==>
        && |h| + 2 <= |r.issued| && r.issued[..|h|] == h
        && r.issued[|r.issued| - 2..] == [SvcWifi(!on), SvcBluetooth(!on)]
  {
    var cmds := AirplaneModeCommands(isAdbRoot, on);
    var first := Exec(respond, h, cmds);
    var r := SetAirplaneModeRun(respond, isAdbRoot, on, h);
    var last := if first.outcome.Ok? then first else Exec(respond, first.issued, cmds);
    assert r == last;
    if last.outcome.Ok? {
      assert last.issued[|last.issued| - |cmds|..] == cmds;
      assert cmds[|cmds| - 2..] == [SvcWifi(!on), SvcBluetooth(!on)];
      assert last.issued[|last.issued| - 2..] == cmds[|cmds| - 2..];
    }
  }

  /** A toggle that completes has first switched Wi-Fi and Bluetooth off,
      with the enabling half, and ends by switching them back on. */
  lemma ToggleEndsWithRadiosOn(respond: Responder, isAdbRoot: bool, h: seq<Command>)
    ensures var enabled := SetAirplaneModeRun(respond, isAdbRoot, true, h);
      var r := ToggleAirplaneModeRun(respond, isAdbRoot, h);
      r.outcome.Ok? ==>
        && enabled.outcome.Ok?
        && |h| + 2 <= |enabled.issued| && enabled.issued[..|h|] == h
        && enabled.issued[|enabled.issued| - 2..] == [SvcWifi(false), SvcBluetooth(false)]
        && |enabled.issued| + 2 <= |r.issued| && r.issued[..|enabled.issued|] == enabled.issued
        && r.issued[|r.issued| - 2..] == [SvcWifi(true), SvcBluetooth(true)]
  {
    var enabled := SetAirplaneModeRun(respond, isAdbRoot, true, h);
    AirplaneModeEndsWithRadios(respond, isAdbRoot, true, h);
    if enabled.outcome.Ok? {
      AirplaneModeEndsWithRadios(respond, isAdbRoot, false, enabled.issued);
    }
  }

  /** The second half of `_do_set_country_code` on a rooted device: airplane
      mode on and off, then the restore commands. */
  function ToggleAndRestoreRun(respond: Responder, h: seq<Command>): Run<()>
  {
    var toggled := ToggleAirplaneModeRun(respond, true, h);
    if toggled.outcome.Raised? then toggled
    else Exec(respond, toggled.issued, COUNTRY_RESTORE_COMMANDS)
  }

  /** `_do_set_country_code`: nothing on a device without root; otherwise the
      overrides, airplane mode on and off, and the restore commands, an
      error anywhere propagating. */
  function DoSetCountryCodeRun(respond: Responder, isAdbRoot: bool, countryCode: string, h: seq<Command>): Run<()>
  {
    if !isAdbRoot then Run(h, Ok(()))
    else
      var overridden := Exec(respond, h, CountryOverrideCommands(countryCode));
      if overridden.outcome.Raised? then overridden
      else ToggleAndRestoreRun(respond, overridden.issued)
  }

  /** `set_country_code`. */
  function SetCountryCodeRun(respond: Responder, isAdbRoot: bool, countryCode: string, h: seq<Command>): Run<()>
  {
    RetryOnce(g => DoSetCountryCodeRun(respond, isAdbRoot, countryCode, g), h)
  }

  /** The country code is never touched on a device without root. */
  lemma CountryCodeNeedsRoot(respond: Responder, countryCode: string, h: seq<Command>)
    ensures SetCountryCodeRun(respond, false, countryCode, h) == Run(h, Ok(()))
  {
  }

  // ---------------------------------------------------------------------
  // MANAGE_EXTERNAL_STORAGE

  /** `_do_grant_manage_external_storage_permission` with the inner
      `_grant_manage_external_storage_permission`, which swallows the
      device's error. */
  function DoGrantRun(buildVersionSdk: int, packageName: string, h: seq<Command>): Run<()>
  {
    if buildVersionSdk < MANAGE_EXTERNAL_STORAGE_MIN_SDK then Run(h, Ok(()))
    else Run(h + [AllowManageExternalStorage(packageName)], Ok(()))
  }

  /** `grant_manage_external_storage_permission`. */
  function GrantRun(buildVersionSdk: int, packageName: string, h: seq<Command>): Run<()>
  {
    RetryOnce(g => DoGrantRun(buildVersionSdk, packageName, g), h)
  }

  /** Granting is a no-op below SDK 30 and a single command from SDK 30 on;
      since the inner call swallows the error, the retry never fires and
      the wrapper never raises. */
  lemma GrantIssuesAtMostOneCommand(buildVersionSdk: int, packageName: string, h: seq<Command>)
    ensures GrantRun(buildVersionSdk, packageName, h).outcome.Ok?
    ensures buildVersionSdk < MANAGE_EXTERNAL_STORAGE_MIN_SDK ==> GrantRun(buildVersionSdk, packageName, h).issued == h
    ensures buildVersionSdk >= MANAGE_EXTERNAL_STORAGE_MIN_SDK ==>
      GrantRun(buildVersionSdk, packageName, h).issued == h + [AllowManageExternalStorage(packageName)]
  {
  }

  // ---------------------------------------------------------------------
  // GMS version

  function GmsVersionKey(serial: string): string
  {
    "GMS core version on " + serial
  }

  /** `_do_dump_gms_version`: the stripped answer to the dump, under a key
      naming the device. */
  function DoDumpGmsVersionRun(respond: Responder, serial: string, h: seq<Command>): Run<map<string, string>>
  {
    var h' := h + [DumpGmsVersionCode];
    match respond(h')
    case AdbError => Run(h', Raised)
    case Output(text) => Run(h', Ok(map[GmsVersionKey(serial) := Strip(text)]))
  }

  /** `dump_gms_version`. */
  function DumpGmsVersionRun(respond: Responder, serial: string, h: seq<Command>): Run<map<string, string>>
  {
    RetryOnce(g => DoDumpGmsVersionRun(respond, serial, g), h)
  }

  /** The version is dumped once, or twice when the first dump fails; the
      result is the stripped output of the last dump, and an error of the
      second dump propagates. */
  lemma DumpGmsVersionAtMostTwice(respond: Responder, serial: string, h: seq<Command>)
    ensures var r := DumpGmsVersionRun(respond, serial, h);
      && (r.issued == h + [DumpGmsVersionCode] || r.issued == h + [DumpGmsVersionCode, DumpGmsVersionCode])
      && (|r.issued| == |h| + 2 <==> respond(h + [DumpGmsVersionCode]).AdbError?)
      && (r.outcome.Raised? <==> |r.issued| == |h| + 2 && respond(r.issued).AdbError?)
      && (r.outcome.Ok? ==>
            (respond(r.issued).Output? && r.outcome.value == map[GmsVersionKey(serial) := Strip(respond(r.issued).text)]))
  {
    var first := DoDumpGmsVersionRun(respond, serial, h);
    if first.outcome.Raised? {
      assert h + [DumpGmsVersionCode] + [DumpGmsVersionCode] == h + [DumpGmsVersionCode, DumpGmsVersionCode];
    }
  }

  // ---------------------------------------------------------------------
  // Phenotype flags

  /** After a check: the commands issued, whether the flag is committed and
      the new value of the sticky `read_ph_flag_failed`. */
  datatype FlagCheck = FlagCheck(issued: seq<Command>, committed: bool, readFailed: bool)

  /** `check_if_ph_flag_committed`: once a read has failed nothing is asked
      any more; otherwise the committed overrides of the package are queried,
      a failed query sets `read_ph_flag_failed`, and a successful one reports
      whether the flag name occurs in the stripped output. */
  function CheckPhFlagRun(respond: Responder, readFailed: bool, h: seq<Command>, pname: string, flagName: string): FlagCheck
  {
    if readFailed then FlagCheck(h, false, true)
    else
      var h' := h + [QueryPhFlags(pname)];
      match respond(h')
      case AdbError => FlagCheck(h', false, true)
      case Output(text) => FlagCheck(h', Contains(Strip(text), flagName), false)
  }

  /** The three outcomes of a check. */
  lemma CheckOutcomes(respond: Responder, readFailed: bool, h: seq<Command>, pname: string, flagName: string)
    ensures var r := CheckPhFlagRun(respond, readFailed, h, pname, flagName);
      var reply := respond(h + [QueryPhFlags(pname)]);
      && (readFailed ==> r.issued == h && !r.committed && r.readFailed)
      && (!readFailed && reply.AdbError? ==> r.issued == h + [QueryPhFlags(pname)] && !r.committed && r.readFailed)
      && (!readFailed && reply.Output? ==>
            (r.issued == h + [QueryPhFlags(pname)] && !r.readFailed
             && (r.committed <==> exists i :: OccursAt(Strip(reply.text), flagName, i))))
  {
  }

  /** After `check_and_try_to_write_ph_flag`: the commands issued, the
      outcome (the override broadcast is not guarded) and the new value of
      `read_ph_flag_failed`. */
  datatype FlagWrite = FlagWrite(issued: seq<Command>, outcome: Outcome<()>, readFailed: bool)

  /** `check_and_try_to_write_ph_flag`: root check, check, write unless
      committed, re-check. */
  function CheckAndTryToWritePhFlagRun(respond: Responder, isAdbRoot: bool, readFailed: bool, h: seq<Command>,
                                       pname: string, flagName: string, flagType: string, flagValue: string): FlagWrite
  {
    if !isAdbRoot then FlagWrite(h, Ok(()), readFailed)
    else
      var before := CheckPhFlagRun(respond, readFailed, h, pname, flagName);
      if before.committed then FlagWrite(before.issued, Ok(()), before.readFailed)
      else
        var written := before.issued + [OverridePhFlag(pname, flagName, flagType, flagValue)];
        if respond(written).AdbError? then FlagWrite(written, Raised, before.readFailed)
        else
          var after := CheckPhFlagRun(respond, before.readFailed, written, pname, flagName);
          FlagWrite(after.issued, Ok(()), after.readFailed)
  }

  /** The three outcomes of the write sequence: nothing at all on a device
      without root; no write when the flag is already committed; otherwise
      exactly one override, followed (when it went through) by exactly one
      re-check, which queries the device unless reading has failed before. */
  lemma WriteSequence(respond: Responder, isAdbRoot: bool, readFailed: bool, h: seq<Command>,
                      pname: string, flagName: string, flagType: string, flagValue: string)
    ensures var r := CheckAndTryToWritePhFlagRun(respond, isAdbRoot, readFailed, h, pname, flagName, flagType, flagValue);
      var before := CheckPhFlagRun(respond, readFailed, h, pname, flagName);
      var write := OverridePhFlag(pname, flagName, flagType, flagValue);
      && (!isAdbRoot ==> r == FlagWrite(h, Ok(()), readFailed))
      && (isAdbRoot && before.committed ==> r.issued == before.issued && r.outcome.Ok?)
      && (isAdbRoot && !before.committed && respond(before.issued + [write]).AdbError? ==>
            r == FlagWrite(before.issued + [write], Raised, before.readFailed))
      && (isAdbRoot && !before.committed && respond(before.issued + [write]).Output? ==>
            r.issued == before.issued + [write] + (if before.readFailed then [] else [QueryPhFlags(pname)])
            && r.outcome.Ok?)
  {
    var before := CheckPhFlagRun(respond, readFailed, h, pname, flagName);
    var write := OverridePhFlag(pname, flagName, flagType, flagValue);
  }

  /** Idempotence: when the device already lists the flag among the committed
      overrides, the sequence only queries, and writes nothing. */
  lemma CommittedFlagNotRewritten(respond: Responder, h: seq<Command>, pname: string, flagName: string,
                                  flagType: string, flagValue: string, listing: string)
    requires respond(h + [QueryPhFlags(pname)]) == Output(listing)
    requires Contains(Strip(listing), flagName)
    ensures CheckAndTryToWritePhFlagRun(respond, true, false, h, pname, flagName, flagType, flagValue)
      == FlagWrite(h + [QueryPhFlags(pname)], Ok(()), false)
  {
  }

  /** A flag operation of a test's setup: a bare check, or the write
      sequence. */
  datatype FlagOp =
    | CheckOnly(pname: string, flagName: string)
    | CheckAndWrite(pname: string, flagName: string, flagType: string, flagValue: string)

  /** After a series of flag operations: the commands issued and the value
      of `read_ph_flag_failed`. */
  datatype FlagSession = FlagSession(issued: seq<Command>, readFailed: bool)

  /** The commands and final `read_ph_flag_failed` after running `ops` in
      order on one device, stopping at an error that propagates. */
  function RunFlagOps(respond: Responder, isAdbRoot: bool, readFailed: bool, h: seq<Command>, ops: seq<FlagOp>): (r: FlagSession)
    decreases |ops|
  {
    if ops == [] then FlagSession(h, readFailed)
    else match ops[0]
      case CheckOnly(pname, flagName) =>
        var c := CheckPhFlagRun(respond, readFailed, h, pname, flagName);
        RunFlagOps(respond, isAdbRoot, c.readFailed, c.issued, ops[1..])
      case CheckAndWrite(pname, flagName, flagType, flagValue) =>
        var w := CheckAndTryToWritePhFlagRun(respond, isAdbRoot, readFailed, h, pname, flagName, flagType, flagValue);
        if w.outcome.Raised? then FlagSession(w.issued, w.readFailed)
        else RunFlagOps(respond, isAdbRoot, w.readFailed, w.issued, ops[1..])
  }

  /** No query at all among `cmds`. */
  predicate NoQueries(cmds: seq<Command>)
  {
    forall i :: 0 <= i < |cmds| ==> !cmds[i].QueryPhFlags?
  }

  /** With `read_ph_flag_failed` set, the write sequence issues at most the
      override itself and leaves the flag set. */
  lemma WriteAfterFailedRead(respond: Responder, isAdbRoot: bool, h: seq<Command>,
                             pname: string, flagName: string, flagType: string, flagValue: string)
    ensures var w := CheckAndTryToWritePhFlagRun(respond, isAdbRoot, true, h, pname, flagName, flagType, flagValue);
      && w.readFailed
      && (w.issued == h || w.issued == h + [OverridePhFlag(pname, flagName, flagType, flagValue)])
  {
  }

  /** `read_ph_flag_failed` is sticky: once set, it stays set through any
      later flag operations, and none of them queries the device again. */
  lemma {:induction false} ReadFailureIsSticky(respond: Responder, isAdbRoot: bool, h: seq<Command>, ops: seq<FlagOp>)
    ensures var r := RunFlagOps(respond, isAdbRoot, true, h, ops);
      && r.readFailed
      && |h| <= |r.issued| && r.issued[..|h|] == h
      && NoQueries(r.issued[|h|..])
    decreases |ops|
  {
    var r := RunFlagOps(respond, isAdbRoot, true, h, ops);
    if ops == [] {
      assert r.issued[|h|..] == [];
    } else {
      match ops[0] {
        case CheckOnly(pname, flagName) =>
          ReadFailureIsSticky(respond, isAdbRoot, h, ops[1..]);
        case CheckAndWrite(pname, flagName, flagType, flagValue) =>
          var w := CheckAndTryToWritePhFlagRun(respond, isAdbRoot, true, h, pname, flagName, flagType, flagValue);
          WriteAfterFailedRead(respond, isAdbRoot, h, pname, flagName, flagType, flagValue);
          var g := w.issued;
          assert NoQueries(g[|h|..]) by {
            if g != h {
              assert g[|h|..] == [OverridePhFlag(pname, flagName, flagType, flagValue)];
            }
          }
          if w.outcome.Raised? {
            assert r.issued == g;
          } else {
            var rest := RunFlagOps(respond, isAdbRoot, true, g, ops[1..]);
            assert r == rest;
            ReadFailureIsSticky(respond, isAdbRoot, g, ops[1..]);
            assert r.issued[|h|..] == g[|h|..] + rest.issued[|g|..];
          }
      }
    }
  }

  // ---------------------------------------------------------------------
  // The operations, on a device

  /** `write_ph_flag`: the override broadcast, unguarded. */
  method WritePhFlag(ad: Device, pname: string, flagName: string, flagType: string, flagValue: string)
    returns (out: Outcome<()>)
    modifies ad
    ensures ad.issued == old(ad.issued) + [OverridePhFlag(pname, flagName, flagType, flagValue)]
    ensures out == if ad.respond(ad.issued).AdbError? then Raised else Ok(())
  {
    var reply := ad.Shell(OverridePhFlag(pname, flagName, flagType, flagValue));
    out := if reply.AdbError? then Raised else Ok(());
  }

  /** The module's one piece of state, `read_ph_flag_failed`, with the
      operations that read and write it. */
  class PhFlagState {
    var readPhFlagFailed: bool

    constructor ()
      ensures !readPhFlagFailed
    {
      readPhFlagFailed := false;
    }

    /** `check_if_ph_flag_committed`. */
    method CheckIfPhFlagCommitted(ad: Device, pname: string, flagName: string) returns (committed: bool)
      modifies this, ad
      ensures FlagCheck(ad.issued, committed, readPhFlagFailed)
        == CheckPhFlagRun(ad.respond, old(readPhFlagFailed), old(ad.issued), pname, flagName)
      ensures old(readPhFlagFailed) ==> readPhFlagFailed
    {
      if readPhFlagFailed {
        return false;
      }
      var reply := ad.Shell(QueryPhFlags(pname));
      match reply {
        case Output(text) =>
          committed := Contains(Strip(text), flagName);
        case AdbError =>
          readPhFlagFailed := true;
          committed := false;
      }
    }

    /** `check_and_try_to_write_ph_flag`. */
    method CheckAndTryToWritePhFlag(ad: Device, pname: string, flagName: string, flagType: string, flagValue: string)
      returns (out: Outcome<()>)
      modifies this, ad
      ensures FlagWrite(ad.issued, out, readPhFlagFailed)
        == CheckAndTryToWritePhFlagRun(ad.respond, ad.isAdbRoot, old(readPhFlagFailed), old(ad.issued), pname, flagName, flagType, flagValue)
    {
      if !ad.isAdbRoot {
        return Ok(());
      }
      var committed := CheckIfPhFlagCommitted(ad, pname, flagName);
      if committed {
        return Ok(());
      }
      out := WritePhFlag(ad, pname, flagName, flagType, flagValue);
      if out.Raised? {
        return;
      }
      committed := CheckIfPhFlagCommitted(ad, pname, flagName);
    }
  }

  /** `enable_logs`. */
  method EnableLogs(ad: Device) returns (out: Outcome<()>)
    modifies ad
    ensures Run(ad.issued, out) == Exec(ad.respond, old(ad.issued), LogTagCommands(LOG_TAGS))
  {
    var cmds := LogTagCommands(LOG_TAGS);
    var i := 0;
    while i < |LOG_TAGS|
      invariant 0 <= i <= |LOG_TAGS|
      invariant Exec(ad.respond, old(ad.issued), cmds) == Exec(ad.respond, ad.issued, cmds[i..])
    {
      assert cmds[i..] == [SetLogTagVerbose(LOG_TAGS[i])] + cmds[i + 1..];
      ExecCons(ad.respond, ad.issued, SetLogTagVerbose(LOG_TAGS[i]), cmds[i + 1..]);
      var reply := ad.Shell(SetLogTagVerbose(LOG_TAGS[i]));
      if reply.AdbError? {
        return Raised;
      }
      i := i + 1;
    }
    out := Ok(());
  }

  /** `_do_enable_airplane_mode` (`on`) and `_do_disable_airplane_mode` (`!on`). */
  method DoSetAirplaneMode(ad: Device, on: bool) returns (out: Outcome<()>)
    modifies ad
    ensures Run(ad.issued, out) == Exec(ad.respond, old(ad.issued), AirplaneModeCommands(ad.isAdbRoot, on))
  {
    var reply: Reply;
    if ad.isAdbRoot {
      ExecCons(ad.respond, ad.issued, PutAirplaneModeSetting(on), [BroadcastAirplaneMode(on), SvcWifi(!on), SvcBluetooth(!on)]);
      reply := ad.Shell(PutAirplaneModeSetting(on));
      if reply.AdbError? {
        return Raised;
      }
      ExecCons(ad.respond, ad.issued, BroadcastAirplaneMode(on), [SvcWifi(!on), SvcBluetooth(!on)]);
      reply := ad.Shell(BroadcastAirplaneMode(on));
      if reply.AdbError? {
        return Raised;
      }
    }
    ExecCons(ad.respond, ad.issued, SvcWifi(!on), [SvcBluetooth(!on)]);
    reply := ad.Shell(SvcWifi(!on));
    if reply.AdbError? {
      return Raised;
    }
    ExecCons(ad.respond, ad.issued, SvcBluetooth(!on), []);
    reply := ad.Shell(SvcBluetooth(!on));
    out := if reply.AdbError? then Raised else Ok(());
  }

  /** `enable_airplane_mode` (`on`) and `disable_airplane_mode` (`!on`). */
  method SetAirplaneMode(ad: Device, on: bool) returns (out: Outcome<()>)
    modifies ad
    ensures Run(ad.issued, out) == SetAirplaneModeRun(ad.respond, ad.isAdbRoot, on, old(ad.issued))
  {
    out := DoSetAirplaneMode(ad, on);
    if out.Raised? {
      out := DoSetAirplaneMode(ad, on);
    }
  }

  /** `_do_set_country_code`. */
  method DoSetCountryCode(ad: Device, countryCode: string) returns (out: Outcome<()>)
    modifies ad
    ensures Run(ad.issued, out) == DoSetCountryCodeRun(ad.respond, ad.isAdbRoot, countryCode, old(ad.issued))
  {
    if !ad.isAdbRoot {
      return Ok(());
    }
    var cc := countryCode;
    ExecCons(ad.respond, ad.issued, SetWifiEnabled(false), [BroadcastCountryOverride(cc), ForceCountryCode(cc)]);
    var reply := ad.Shell(SetWifiEnabled(false));
    if reply.AdbError? {
      return Raised;
    }
    ExecCons(ad.respond, ad.issued, BroadcastCountryOverride(cc), [ForceCountryCode(cc)]);
    reply := ad.Shell(BroadcastCountryOverride(cc));
    if reply.AdbError? {
      return Raised;
    }
    ExecCons(ad.respond, ad.issued, ForceCountryCode(cc), []);
    reply := ad.Shell(ForceCountryCode(cc));
    if reply.AdbError? {
      return Raised;
    }
    out := ToggleAndRestore(ad);
  }

  /** The second half of `_do_set_country_code`, on a rooted device. */
  method ToggleAndRestore(ad: Device) returns (out: Outcome<()>)
    requires ad.isAdbRoot
    modifies ad
    ensures Run(ad.issued, out) == ToggleAndRestoreRun(ad.respond, old(ad.issued))
  {
    out := SetAirplaneMode(ad, true);
    if out.Raised? {
      return;
    }
    out := SetAirplaneMode(ad, false);
    if out.Raised? {
      return;
    }
    ExecCons(ad.respond, ad.issued, SetWifiEnabled(true), [DumpTelephonyCountryCode]);
    var reply := ad.Shell(SetWifiEnabled(true));
    if reply.AdbError? {
      return Raised;
    }
    ExecCons(ad.respond, ad.issued, DumpTelephonyCountryCode, []);
    reply := ad.Shell(DumpTelephonyCountryCode);
    out := if reply.AdbError? then Raised else Ok(());
  }

  /** `toggle_airplane_mode`. */
  method ToggleAirplaneMode(ad: Device) returns (out: Outcome<()>)
    modifies ad
    ensures Run(ad.issued, out) == ToggleAirplaneModeRun(ad.respond, ad.isAdbRoot, old(ad.issued))
  {
    out := SetAirplaneMode(ad, true);
    if out.Raised? {
      return;
    }
    out := SetAirplaneMode(ad, false);
  }

  /** `set_country_code`. */
  method SetCountryCode(ad: Device, countryCode: string) returns (out: Outcome<()>)
    modifies ad
    ensures Run(ad.issued, out) == SetCountryCodeRun(ad.respond, ad.isAdbRoot, countryCode, old(ad.issued))
  {
    out := DoSetCountryCode(ad, countryCode);
    if out.Raised? {
      out := DoSetCountryCode(ad, countryCode);
    }
  }

  /** `_do_grant_manage_external_storage_permission`, with the inner grant
      whose error is logged and dropped. */
  method DoGrantManageExternalStoragePermission(ad: Device, packageName: string) returns (out: Outcome<()>)
    modifies ad
    ensures Run(ad.issued, out) == DoGrantRun(ad.buildVersionSdk, packageName, old(ad.issued))
  {
    if ad.buildVersionSdk < MANAGE_EXTERNAL_STORAGE_MIN_SDK {
      return Ok(());
    }
    var reply := ad.Shell(AllowManageExternalStorage(packageName));
    out := Ok(());
  }

  /** `grant_manage_external_storage_permission`. */
  method GrantManageExternalStoragePermission(ad: Device, packageName: string) returns (out: Outcome<()>)
    modifies ad
    ensures Run(ad.issued, out) == GrantRun(ad.buildVersionSdk, packageName, old(ad.issued))
  {
    // In this model the inner grant never raises (the SDK level is a plain
    // integer and the grant's own error is dropped), so the retry branch of
    // the wrapper is never taken: `GrantIssuesAtMostOneCommand`.
    out := DoGrantManageExternalStoragePermission(ad, packageName);
  }

  /** `_do_dump_gms_version`. */
  method DoDumpGmsVersion(ad: Device) returns (out: Outcome<map<string, string>>)
    modifies ad
    ensures Run(ad.issued, out) == DoDumpGmsVersionRun(ad.respond, ad.serial, old(ad.issued))
  {
    var reply := ad.Shell(DumpGmsVersionCode);
    match reply {
      case AdbError => out := Raised;
      case Output(text) => out := Ok(map[GmsVersionKey(ad.serial) := Strip(text)]);
    }
  }

  /** `dump_gms_version`. */
  method DumpGmsVersion(ad: Device) returns (out: Outcome<map<string, string>>)
    modifies ad
    ensures Run(ad.issued, out) == DumpGmsVersionRun(ad.respond, ad.serial, old(ad.issued))
  {
    out := DoDumpGmsVersion(ad);
    if out.Raised? {
      out := DoDumpGmsVersion(ad);
    }
  }
}
