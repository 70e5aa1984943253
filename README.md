# Nearby and automotive test utilities, in Dafny

This project models the logic inside two Python test-utility modules:

- `tests/bettertogether/betocq/setup_utils.py` prepares Android devices for the
  Nearby connectivity tests. The model covers:
  - reading an integer out of a Wi-Fi status dump between the last `prefix`
    and the last `postfix`, with `INVALID_INT` on every failure;
  - the phenotype ("P/H") flag check and write sequence, with its sticky
    module-global `read_ph_flag_failed`;
  - the retry-once wrappers around airplane mode, country code, the
    MANAGE_EXTERNAL_STORAGE grant and the GMS version dump;
  - `enable_logs`.
- `tests/automotive/mobly_tests/utilities/spectatio_utils.py` holds
  `CallUtils`. The model covers the comparisons its verification helpers
  make: digit filtering, the sorted-order check, substring containment, the
  three preference buttons and the favourites check.

The device is an oracle. `Device.Device` holds a root bit, an SDK level, a
serial and a responder. The responder answers each shell command, given the
whole history of commands, with its output or with `AdbError`. Every
operation of `setup_utils.py` that issues shell commands is stated twice,
with one exception. A specification function (the `Setup.*Run` functions,
`Setup.RetryOnce` and `Device.Exec`) gives the commands issued and the
outcome (normal return or a raised `AdbError`) from the responder and the
history. A method on a `Device` then does the work one `Shell` call at a time
and is proved to agree with its function. The exception is `write_ph_flag`,
which has no function of its own. `Setup.WritePhFlag` states its one command
and outcome in its `ensures`, and `Setup.CheckAndTryToWritePhFlagRun` inlines
that step. The Wi-Fi getters are specified as functions of the
reply to their one status dump. The methods `Extraction.DumpWifiStaStatus`,
`Extraction.ReadWifiStaFrequency` and their siblings issue that dump on a
`Device` and are proved to return what those functions give for the
device's answer. Values that `CallUtils` fetches over RPC are parameters.

Modules: `Strings` (`in`, `rfind`, `strip`, the digit filter), `Integers`
(`int()` and `str()` on decimal literals), `Sorting` (`sorted()` on strings),
`Device`, `Extraction`, `Setup` and `CallUtils`.

## Model

| member | source | states |
|---|---|---|
| Strings.Contains | tests/bettertogether/betocq/setup_utils.py:313 | `sub in s` is true exactly when `sub` occurs in `s` at some index |
| Strings.RFind | tests/bettertogether/betocq/setup_utils.py:502-503 | `s.rfind(sub)` is -1 or an index at which `sub` occurs, and `sub` occurs at no higher index |
| Strings.RFindMissesIffAbsent | tests/bettertogether/betocq/setup_utils.py:502-503 | `rfind` gives -1 exactly when `sub in s` is false |
| Strings.RFindAfterPrepend | tests/bettertogether/betocq/setup_utils.py:502-503 | text put in front of `s` shifts the last occurrence by its length |
| Strings.Strip | tests/bettertogether/betocq/setup_utils.py:506 | `strip()` is no longer than its input, neither starts nor ends with whitespace, and is empty exactly when the input is all whitespace |
| Strings.StripSpan | tests/bettertogether/betocq/setup_utils.py:506 | `strip()` keeps exactly the span from the first to the last non-whitespace character |
| Strings.StripSurrounded | tests/bettertogether/betocq/setup_utils.py:506 | whitespace padding on both sides of a text is removed, and the text is kept |
| Strings.ContainsEmbedded | tests/automotive/mobly_tests/utilities/spectatio_utils.py:371 | a text is found in any string that embeds it |
| Strings.DigitsOnly | tests/automotive/mobly_tests/utilities/spectatio_utils.py:418 | the filtered string holds only digits and is no longer than the input |
| Strings.DigitsOnlyAppend | tests/automotive/mobly_tests/utilities/spectatio_utils.py:463-465 | filtering a concatenation concatenates the filtered parts, so digit order is kept |
| Strings.DigitsOnlyIdentity | tests/automotive/mobly_tests/utilities/spectatio_utils.py:418 | the filter changes a string exactly when the string has a non-digit |
| Strings.SeparatorIgnored | tests/automotive/mobly_tests/utilities/spectatio_utils.py:418 | a non-digit anywhere in the input does not change the filtered result |
| Strings.DigitsOnlyIdempotent | tests/automotive/mobly_tests/utilities/spectatio_utils.py:418 | filtering twice gives the same as filtering once |
| Integers.ParseInt | tests/bettertogether/betocq/setup_utils.py:505-508 | `int()` succeeds exactly on an optional sign followed by one or more ASCII digits; a negative value needs a leading `-` |
| Integers.NatToDigits | tests/bettertogether/betocq/setup_utils.py:506 | the decimal digits of `n` are non-empty, all digits, have the value `n`, and start with `0` only for `n == 0` |
| Integers.ParseFormatRoundTrip | tests/bettertogether/betocq/setup_utils.py:506 | `int(str(n)) == n` for every integer |
| Integers.LeadingZerosIgnored | tests/bettertogether/betocq/setup_utils.py:506 | a leading zero does not change the value of a digit run |
| Integers.ZerosIgnored | tests/bettertogether/betocq/setup_utils.py:506 | any number of leading zeros does not change the value of a digit run |
| Integers.ParseSignedDigits | tests/bettertogether/betocq/setup_utils.py:506 | `int()` of no sign, `+` or `-` followed by digits is the value of the digits, negated after `-` |
| Integers.ParseIntValue | tests/bettertogether/betocq/setup_utils.py:506 | the value `int()` gives for every literal it accepts: an optional sign, any leading zeros and the digits of `n` give `n`, or `-n` after `-` (so `'+7'`, `'007'` and `'-0'` give 7, 7 and 0) |
| Sorting.LexLessEq | tests/automotive/mobly_tests/utilities/spectatio_utils.py:398 | reference definition of Python's `a <= b` on strings, by code point; its properties are in `Sorting.LexTotal` and `Sorting.SortedIsFixedPoint` |
| Sorting.NonDecreasing | tests/automotive/mobly_tests/utilities/spectatio_utils.py:398-404 | reference definition of "in ascending order"; its properties are in `Sorting.Sort` and `Sorting.SortedIsFixedPoint` |
| Sorting.LexTotal | tests/automotive/mobly_tests/utilities/spectatio_utils.py:398 | string comparison is total, so `sorted()` is defined on any list |
| Sorting.Sort | tests/automotive/mobly_tests/utilities/spectatio_utils.py:398 | `sorted()` returns a non-decreasing permutation of its input |
| Sorting.SortedIsFixedPoint | tests/automotive/mobly_tests/utilities/spectatio_utils.py:398-404 | a list equals its sorted copy exactly when it is non-decreasing |
| Device.Exec | tests/bettertogether/betocq/setup_utils.py:248-256 | a run of unguarded shell calls issues a prefix of the commands; it completes only after issuing all of them, and it raises only on a command the device answered with `AdbError` |
| Device.ExecReplies | tests/bettertogether/betocq/setup_utils.py:248-256 | every command before the last one issued was answered; the run completes exactly when all commands were issued and answered |
| Device.ExecCons | tests/bettertogether/betocq/setup_utils.py:248-256 | issuing `c` then `rest` stops after `c` on `AdbError` and otherwise goes on with `rest` |
| Device.Device.Shell | tests/bettertogether/betocq/setup_utils.py:110 | one shell call appends its command to the history and returns the device's answer to it |
| Extraction.Slice | tests/bettertogether/betocq/setup_utils.py:506 | a Python slice is the substring when start <= stop, and empty otherwise |
| Extraction.Interior | tests/bettertogether/betocq/setup_utils.py:502-506 | there is text to parse exactly when the last `prefix` is at an index above 0 and the last `postfix` starts after it |
| Extraction.ExtractInt | tests/bettertogether/betocq/setup_utils.py:502-509 | a number is read exactly when there is an interior and its stripped form is an integer literal |
| Extraction.GetIntBetweenPrefixPostfix | tests/bettertogether/betocq/setup_utils.py:499-509 | `INVALID_INT` when the prefix is absent or its last occurrence is at 0, when the last postfix is not after the last prefix, and when the interior is not an integer; otherwise the value `int()` gives for the stripped interior; it never raises |
| Extraction.ReadsNumberBetweenLastDelimiters | tests/bettertogether/betocq/setup_utils.py:502-506 | a number written between the last prefix and the last postfix, with any whitespace around it, is read back exactly |
| Extraction.ReadsLiteralBetweenLastDelimiters | tests/bettertogether/betocq/setup_utils.py:502-506 | any literal `int()` accepts (with a sign or leading zeros), padded with whitespace between the last prefix and the last postfix, is read as `int()` reads it |
| Extraction.PrefixAtStartIgnored | tests/bettertogether/betocq/setup_utils.py:504 | a last prefix at index 0 gives `INVALID_INT`, though the same text behind any head is read from the same interior |
| Extraction.DumpedStatus | tests/bettertogether/betocq/setup_utils.py:512-529 | a status dump is the stripped output, or empty when the shell call fails |
| Extraction.EmptyStatusHasNoNumber | tests/bettertogether/betocq/setup_utils.py:471-473 | no number is read from an empty status, so the getters' early return agrees with the extraction |
| Extraction.GetFromStatus | tests/bettertogether/betocq/setup_utils.py:469-496 | a getter gives `INVALID_INT` for a failed or empty dump, and otherwise the number between its delimiters |
| Extraction.GetWifiStaFrequency | tests/bettertogether/betocq/setup_utils.py:469-476 | the STA frequency is read between `Frequency:` and `MHz`; a failed dump gives `INVALID_INT` |
| Extraction.GetWifiP2pFrequency | tests/bettertogether/betocq/setup_utils.py:479-486 | the P2P frequency is read between `channelFrequency=` and `, groupRole=GroupOwner`; a failed dump gives `INVALID_INT` |
| Extraction.GetWifiStaMaxLinkSpeed | tests/bettertogether/betocq/setup_utils.py:489-496 | the link speed is read between `Max Supported Tx Link speed:` and `Mbps`; a failed dump gives `INVALID_INT` |
| Extraction.DumpWifiStaStatus | tests/bettertogether/betocq/setup_utils.py:512-519 | issues the one STA status dump and returns its stripped output, or empty on `AdbError` |
| Extraction.DumpWifiP2pStatus | tests/bettertogether/betocq/setup_utils.py:522-529 | issues the one P2P status dump and returns its stripped output, or empty on `AdbError` |
| Extraction.ReadWifiStaFrequency | tests/bettertogether/betocq/setup_utils.py:469-476 | `get_wifi_sta_frequency` on a device: one STA dump, and `Extraction.GetWifiStaFrequency` of the device's answer |
| Extraction.ReadWifiP2pFrequency | tests/bettertogether/betocq/setup_utils.py:479-486 | `get_wifi_p2p_frequency` on a device: one P2P dump, and `Extraction.GetWifiP2pFrequency` of the device's answer |
| Extraction.ReadWifiStaMaxLinkSpeed | tests/bettertogether/betocq/setup_utils.py:489-496 | `get_wifi_sta_max_link_speed` on a device: one STA dump, and `Extraction.GetWifiStaMaxLinkSpeed` of the device's answer |
| Setup.RetryOnce | tests/bettertogether/betocq/setup_utils.py:65-72 | reference definition of the retry-once wrappers (`try` the operation, on `AdbError` run it once more); its properties are in `Setup.RetryOnceAttempts` and `Setup.RetriedCommands` |
| Setup.AirplaneModeCommands | tests/bettertogether/betocq/setup_utils.py:248-281 | reference definition of the commands of `_do_enable`/`_do_disable`: setting and broadcast only with root, then the two service switches; its properties are in `Setup.AirplaneModeWithoutRoot` and `Setup.AirplaneModeEndsWithRadios` |
| Setup.SetAirplaneModeRun | tests/bettertogether/betocq/setup_utils.py:236-269 | reference definition of `enable_airplane_mode`/`disable_airplane_mode`; its properties are in `Setup.AirplaneModeWithoutRoot` and `Setup.AirplaneModeEndsWithRadios`, and `Setup.SetAirplaneMode` is proved equal to it |
| Setup.ToggleAirplaneModeRun | tests/bettertogether/betocq/setup_utils.py:166-171 | reference definition of `toggle_airplane_mode`; its properties are in `Setup.ToggleEndsWithRadiosOn`, and `Setup.ToggleAirplaneMode` is proved equal to it |
| Setup.CountryOverrideCommands | tests/bettertogether/betocq/setup_utils.py:87-93 | reference definition of the three country-code overrides, in source order; `Setup.DoSetCountryCode` is proved to issue them |
| Setup.ToggleAndRestoreRun | tests/bettertogether/betocq/setup_utils.py:94-102 | reference definition of the toggle and restore steps of `_do_set_country_code`; `Setup.ToggleAndRestore` is proved equal to it |
| Setup.DoSetCountryCodeRun | tests/bettertogether/betocq/setup_utils.py:75-103 | reference definition of `_do_set_country_code`; `Setup.DoSetCountryCode` is proved equal to it |
| Setup.SetCountryCodeRun | tests/bettertogether/betocq/setup_utils.py:50-72 | reference definition of `set_country_code`; its properties are in `Setup.CountryCodeNeedsRoot` and `Setup.RetryOnceAttempts`, and `Setup.SetCountryCode` is proved equal to it |
| Setup.DoGrantRun | tests/bettertogether/betocq/setup_utils.py:128-138 | reference definition of `_do_grant_manage_external_storage_permission`; its properties are in `Setup.GrantIssuesAtMostOneCommand` |
| Setup.GrantRun | tests/bettertogether/betocq/setup_utils.py:113-125 | reference definition of `grant_manage_external_storage_permission`; its properties are in `Setup.GrantIssuesAtMostOneCommand` |
| Setup.GmsVersionKey | tests/bettertogether/betocq/setup_utils.py:163 | reference definition of the key `GMS core version on <serial>` |
| Setup.DoDumpGmsVersionRun | tests/bettertogether/betocq/setup_utils.py:154-163 | reference definition of `_do_dump_gms_version`; its properties are in `Setup.DumpGmsVersionAtMostTwice` |
| Setup.DumpGmsVersionRun | tests/bettertogether/betocq/setup_utils.py:141-151 | reference definition of `dump_gms_version`; its properties are in `Setup.DumpGmsVersionAtMostTwice` |
| Setup.CheckPhFlagRun | tests/bettertogether/betocq/setup_utils.py:284-317 | reference definition of `check_if_ph_flag_committed`; its properties are in `Setup.CheckOutcomes` |
| Setup.CheckAndTryToWritePhFlagRun | tests/bettertogether/betocq/setup_utils.py:338-362 | reference definition of `check_and_try_to_write_ph_flag`; its properties are in `Setup.WriteSequence`, `Setup.CommittedFlagNotRewritten` and `Setup.WriteAfterFailedRead` |
| Setup.RunFlagOps | tests/bettertogether/betocq/setup_utils.py:284-362 | reference definition of a series of flag operations on one device, sharing `read_ph_flag_failed`; its properties are in `Setup.ReadFailureIsSticky` |
| Setup.RetryOnceAttempts | tests/bettertogether/betocq/setup_utils.py:65-72 | a retry wrapper runs its operation at most twice, the second time only after `AdbError`, and raises only when both attempts raised |
| Setup.RetriedCommands | tests/bettertogether/betocq/setup_utils.py:236-245 | a retried run of commands issues them once, or restarts them after the failing command, never more than two rounds; an error of the second round propagates |
| Setup.LogTagCommands | tests/bettertogether/betocq/setup_utils.py:109-110 | one VERBOSE setting per tag, in list order |
| Setup.EnableLogsOnePerTag | tests/bettertogether/betocq/setup_utils.py:40-47 | `enable_logs` issues the VERBOSE setting of each Nearby tag in list order, exactly six when nothing fails |
| Setup.AirplaneModeWithoutRoot | tests/bettertogether/betocq/setup_utils.py:248-256 | without root, only the Wi-Fi and Bluetooth services are switched, even across the retry |
| Setup.AirplaneModeEndsWithRadios | tests/bettertogether/betocq/setup_utils.py:236-281 | a successful enable (disable) ends by switching Wi-Fi and Bluetooth off (on) and only adds to the history |
| Setup.ToggleEndsWithRadiosOn | tests/bettertogether/betocq/setup_utils.py:166-171 | a completed toggle first switches Wi-Fi and Bluetooth off, then ends by switching them back on |
| Setup.CountryCodeNeedsRoot | tests/bettertogether/betocq/setup_utils.py:79-84 | without root, setting the country code issues nothing and returns normally |
| Setup.GrantIssuesAtMostOneCommand | tests/bettertogether/betocq/setup_utils.py:113-138 | below SDK 30 nothing is issued; from SDK 30 exactly one grant; the wrapper never raises and so never retries |
| Setup.DumpGmsVersionAtMostTwice | tests/bettertogether/betocq/setup_utils.py:141-163 | the version is dumped once, or twice when the first dump fails; the result maps the device's key to the stripped output; a second error propagates |
| Setup.CheckOutcomes | tests/bettertogether/betocq/setup_utils.py:302-317 | with the flag set, no query and `False`; on a query error, `False` and the flag set; otherwise committed exactly when the flag name occurs in the stripped output |
| Setup.WriteSequence | tests/bettertogether/betocq/setup_utils.py:338-362 | nothing on a non-root device; no write when committed; otherwise exactly one write, then exactly one re-check that queries unless reading failed before |
| Setup.CommittedFlagNotRewritten | tests/bettertogether/betocq/setup_utils.py:353-355 | when the device already lists the flag, the sequence issues the query alone and no write |
| Setup.WriteAfterFailedRead | tests/bettertogether/betocq/setup_utils.py:302-304 | once reading has failed, the write sequence issues at most the override and the flag stays set |
| Setup.ReadFailureIsSticky | tests/bettertogether/betocq/setup_utils.py:38 | once `read_ph_flag_failed` is set it stays set through any later flag operations, and none of them queries the device again |
| Setup.WritePhFlag | tests/bettertogether/betocq/setup_utils.py:320-335 | one override broadcast; its `AdbError` propagates |
| Setup.PhFlagState.constructor | tests/bettertogether/betocq/setup_utils.py:38 | `read_ph_flag_failed` starts out false |
| Setup.PhFlagState.CheckIfPhFlagCommitted | tests/bettertogether/betocq/setup_utils.py:284-317 | commands, result and new flag are those of `Setup.CheckPhFlagRun` on the old flag and history; the flag is never cleared |
| Setup.PhFlagState.CheckAndTryToWritePhFlag | tests/bettertogether/betocq/setup_utils.py:338-362 | commands, outcome and new flag are those of `Setup.CheckAndTryToWritePhFlagRun` on the old flag and history |
| Setup.EnableLogs | tests/bettertogether/betocq/setup_utils.py:106-110 | the loop issues `Device.Exec` of `Setup.LogTagCommands(LOG_TAGS)`, stopping at the first error |
| Setup.DoSetAirplaneMode | tests/bettertogether/betocq/setup_utils.py:248-281 | the setting and broadcast only with root, then the two service switches, stopping at the first error |
| Setup.SetAirplaneMode | tests/bettertogether/betocq/setup_utils.py:236-269 | `enable_airplane_mode` / `disable_airplane_mode`: the retried run of the airplane-mode commands |
| Setup.ToggleAirplaneMode | tests/bettertogether/betocq/setup_utils.py:166-171 | enable then disable, each retried, the first error that survives propagating |
| Setup.DoSetCountryCode | tests/bettertogether/betocq/setup_utils.py:75-103 | nothing without root; otherwise the overrides, the airplane toggle and the restore commands, stopping at the first error |
| Setup.ToggleAndRestore | tests/bettertogether/betocq/setup_utils.py:94-102 | airplane mode on and off, Wi-Fi on and the country-code read-back |
| Setup.SetCountryCode | tests/bettertogether/betocq/setup_utils.py:50-72 | the retried run of `_do_set_country_code` |
| Setup.DoGrantManageExternalStoragePermission | tests/bettertogether/betocq/setup_utils.py:128-138 | nothing below SDK 30; otherwise one grant whose error is swallowed |
| Setup.GrantManageExternalStoragePermission | tests/bettertogether/betocq/setup_utils.py:113-125 | the retried grant, which never retries |
| Setup.DoDumpGmsVersion | tests/bettertogether/betocq/setup_utils.py:154-163 | one dump, mapped to the stripped output under `GMS core version on <serial>`; an error propagates |
| Setup.DumpGmsVersion | tests/bettertogether/betocq/setup_utils.py:141-151 | the retried dump |
| CallUtils.VerifyDialingNumber | tests/automotive/mobly_tests/utilities/spectatio_utils.py:416-426 | raises exactly when the digits of the number shown differ from the expected number |
| CallUtils.VerifyUserPhoneNumber | tests/automotive/mobly_tests/utilities/spectatio_utils.py:430-440 | raises exactly when the digits of the user's number differ from the expected number |
| CallUtils.VerifyLastDialedNumber | tests/automotive/mobly_tests/utilities/spectatio_utils.py:461-474 | raises exactly when the digits of the latest call, in order, differ from the expected number |
| CallUtils.FormattedNumberMatches | tests/automotive/mobly_tests/utilities/spectatio_utils.py:416-426 | a number shown as `(area) exchange-line` matches its bare digits |
| CallUtils.NonDigitExpectationAlwaysRaises | tests/automotive/mobly_tests/utilities/spectatio_utils.py:416-474 | an expected number containing a non-digit makes all three number checks raise, whatever is shown |
| CallUtils.VerifyAscendingSortingOrder | tests/automotive/mobly_tests/utilities/spectatio_utils.py:397-405 | raises exactly when the list is not in non-decreasing order |
| CallUtils.ValidateThreePreferenceButtons | tests/automotive/mobly_tests/utilities/spectatio_utils.py:205-231 | true exactly when all three statuses equal `bluetooth_enabled`; queries bluetooth, phone and media in order and stops at the first mismatch |
| CallUtils.IsContactInFavorites | tests/automotive/mobly_tests/utilities/spectatio_utils.py:280-283 | raises exactly when the expectation is the string `'True'` or `'False'` and differs from the reply |
| CallUtils.FavoritesCheckWithBooleanReply | tests/automotive/mobly_tests/utilities/spectatio_utils.py:280-283 | against a boolean reply, the expectations `'True'` and `'False'` always raise and any other never does |
| CallUtils.IsOngoingCallDisplayedOnHome | tests/automotive/mobly_tests/utilities/spectatio_utils.py:442-452 | raises exactly when expectation and reply differ |
| CallUtils.UpdateDeviceTimezone | tests/automotive/mobly_tests/utilities/spectatio_utils.py:364-374 | raises exactly when the requested time zone does not occur in the one read back |
| CallUtils.VerifySearchResultsContainTargetSearch | tests/automotive/mobly_tests/utilities/spectatio_utils.py:493-501 | raises exactly when the expected text does not occur in the first search result |
| CallUtils.ContainmentAcceptsSurroundingText | tests/automotive/mobly_tests/utilities/spectatio_utils.py:364-374 | a read-back that embeds the expected text, with anything around it, passes both containment checks |

## Left out

- The exact shell command strings, `adb push`/`install`/`getprop`, and the decoding of shell output from UTF-8. A command is a `Device.Command` value, and the output is text.
- `time.sleep` delays, logging, and the wall-clock timing in `connect_to_wifi_sta_till_success`. They have no functional effect to state.
- `connect_to_wifi_sta_till_success`, `connect_to_wifi`, `disconnect_from_wifi`: they call the `ad.nearby` Wi-Fi snippet, which is not part of this model.
- `disable_gms_auto_updates` and `enable_gms_auto_updates`: they call `GmsAutoUpdatesUtil`, which is not part of this model.
- `install_apk` and `get_hardware`: each is a single foreign call with nothing to state.
- `enable_bluetooth_multiplex`, `enable_wifi_aware`, `enable_dfs_scc`, `disable_wlan_deny_list`, `enable_ble_scan_throttling_during_2g_transfer` and `disable_redaction`: each only fixes the arguments of `check_and_try_to_write_ph_flag`, which is modelled.
- The value of `nc_constants.INVALID_INT`: `nc_constants` is not part of this model, and the value is assumed to be -1. `Extraction.GetIntBetweenPrefixPostfix`, `Extraction.GetFromStatus`, the three Wi-Fi getter functions and their `Read*` methods return it. The `Option`-valued `Extraction.ExtractInt` states the same behaviour without the sentinel, so it stays exact even when a genuine -1 is read.
- Errors other than `AdbError`: a shell time-out (`AdbTimeoutError`) and a `ValueError` from `int(ad.build_info['build_version_sdk'])`. The SDK level is an `int` in the model.
- Python's full `int()` grammar (underscores between digits, Unicode digits), and Unicode semantics for `\D`, `str.isdigit` and `str.strip`. The model uses ASCII digits with an optional sign, and `strip` removes only ASCII whitespace.
- The pass-through methods of `CallUtils` (`open_*`, `press_*`, `click_*`, `has_*`, `is_*_enabled` and similar). Each forwards one call to the device's snippet API. The values the modelled comparisons fetch with such calls are parameters.
- CallUtils.VerifyDialingNumber and CallUtils.VerifyUserPhoneNumber take the fetched number as text. The source applies `str()` to the RPC result first, so a `None` reply becomes `'None'` and filters to `''`. The model assumes the snippet returns a string, where `str()` is the identity. The expected numbers are also taken as strings.
- `validate_three_preference_buttons` only logs `expected_check_status` and `expected_status`. They are not modelled.
- `tests/automotive/health/settings/tests/src/android/platform/scenario/settings/OpenHotAppMicrobenchmark.java`: a JUnit rule holder with no logic.
- Setup.DoSetCountryCodeRun and Setup.SetCountryCodeRun have no partner lemmas beyond `Setup.CountryCodeNeedsRoot` and the methods proved equal to them. No lemma relates the order of the country-code commands to the outcome beyond the generic retry lemmas.
