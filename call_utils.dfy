/** The comparisons behind the verification helpers of `CallUtils`. Each
    helper fetches one value from the device over RPC and raises
    `CallUtilsError` when it does not match what the test expects; here the
    fetched value is a parameter and the helper's verdict is the result. */
module CallUtils {
  import opened Strings
  import opened Sorting

  /** A helper's verdict: it returns normally, or raises `CallUtilsError`
      with the given message. */
  datatype Verdict = Pass | CallUtilsError(message: string)

  /** A value as Python compares it: a boolean never equals a string. */
  datatype PyValue = PyBool(b: bool) | PyStr(s: string)

  /** `verify_dialing_number`: every non-digit of the dialing number shown is
      dropped, and what remains must be the expected number. */
  function VerifyDialingNumber(dialingNumber: string, expected: string): (v: Verdict)
    ensures v.CallUtilsError? <==> DigitsOnly(dialingNumber) != expected
  {
    if DigitsOnly(dialingNumber) != expected
    then CallUtilsError("Actual and Expected dialing numbers don't match.")
    else Pass
  }

  /** `verify_user_phone_number`: the same rule, applied to the user's phone
      number. */
  function VerifyUserPhoneNumber(userPhoneNumber: string, expected: string): (v: Verdict)
    ensures v.CallUtilsError? <==> DigitsOnly(userPhoneNumber) != expected
  {
    if DigitsOnly(userPhoneNumber) != expected
    then CallUtilsError("Actual and Expected dialing numbers don't match.")
    else Pass
  }

  /** `verify_last_dialed_number`: the digits of the latest call history
      entry, in order, must be the expected number. */
  function VerifyLastDialedNumber(recentCall: string, expected: string): (v: Verdict)
    ensures v.CallUtilsError? <==> DigitsOnly(recentCall) != expected
  {
    if DigitsOnly(recentCall) != expected
    then CallUtilsError("Actual and Expected last dialed numbers don't match.")
    else Pass
  }

  /** A number shown with the usual punctuation, `(650) 555-0100`, matches
      its bare digits. */
  lemma FormattedNumberMatches(area: string, exchange: string, line: string)
    requires AllDigits(area) && AllDigits(exchange) && AllDigits(line)
    ensures VerifyDialingNumber("(" + area + ") " + exchange + "-" + line, area + exchange + line) == Pass
  {
    var y := "(" + area;
    assert DigitsOnly(y) == area by {
      DigitsOnlyAppend("(", area);
      DigitsOnlyIdentity(area);
    }
    var x := y + ") " + exchange;
    assert DigitsOnly(x) == area + exchange by {
      DigitsOnlyAppend(y + ") ", exchange);
      DigitsOnlyAppend(y, ") ");
      DigitsOnlyIdentity(exchange);
    }
    assert DigitsOnly(x + "-" + line) == area + exchange + line by {
      DigitsOnlyAppend(x + "-", line);
      DigitsOnlyAppend(x, "-");
      DigitsOnlyIdentity(line);
    }
  }

  /** An expected number holding anything but digits can never match: the
      number-comparing helpers then raise whatever the device shows. */
  lemma NonDigitExpectationAlwaysRaises(shown: string, expected: string)
    requires !AllDigits(expected)
    ensures VerifyDialingNumber(shown, expected).CallUtilsError?
    ensures VerifyUserPhoneNumber(shown, expected).CallUtilsError?
    ensures VerifyLastDialedNumber(shown, expected).CallUtilsError?
  {
  }

  /** `verify_ascending_sorting_order`: raises exactly when the list differs
      from `sorted()` of itself. */
  function VerifyAscendingSortingOrder(order: seq<string>): (v: Verdict)
    ensures v.CallUtilsError? <==> !NonDecreasing(order)
  {
    SortedIsFixedPoint(order);
    if order != Sort(order)
    then CallUtilsError("Actual and Expected sorting orders don't match.")
    else Pass
  }

  /** The result of `validate_three_preference_buttons`, with the number of
      preference buttons it queried. */
  datatype PreferenceCheck = PreferenceCheck(valid: bool, queried: nat)

  /** `validate_three_preference_buttons`: queries the Bluetooth, phone and
      media preferences in that order and stops at the first whose status is
      not `bluetoothEnabled`. */
  function ValidateThreePreferenceButtons(bluetoothEnabled: bool, bluetoothChecked: bool, phoneEnabled: bool, mediaEnabled: bool): (r: PreferenceCheck)
    ensures var answers := [bluetoothChecked, phoneEnabled, mediaEnabled];
      && 1 <= r.queried <= 3
      && (r.valid <==> bluetoothChecked == bluetoothEnabled && phoneEnabled == bluetoothEnabled && mediaEnabled == bluetoothEnabled)
      && (forall k :: 0 <= k < r.queried - 1 ==> answers[k] == bluetoothEnabled)
      && (r.valid ==> r.queried == 3)
      && (!r.valid ==> answers[r.queried - 1] != bluetoothEnabled)
  {
    if bluetoothChecked != bluetoothEnabled then PreferenceCheck(false, 1)
    else if phoneEnabled != bluetoothEnabled then PreferenceCheck(false, 2)
    else if mediaEnabled != bluetoothEnabled then PreferenceCheck(false, 3)
    else PreferenceCheck(true, 3)
  }

  /** `is_contact_in_favorites`: only the expectations `'True'` and `'False'`
      are checked, each against the reply as Python compares values. */
  function IsContactInFavorites(expected: PyValue, actual: PyValue): (v: Verdict)
    ensures v.CallUtilsError? <==> (expected == PyStr("True") || expected == PyStr("False")) && expected != actual
  {
    if expected == PyStr("True") && expected != actual then CallUtilsError("Contact not added to favorites")
    else if expected == PyStr("False") && expected != actual then CallUtilsError("Contact not removed from favorites")
    else Pass
  }

  /** Were the device to answer with a boolean, the expectations `'True'`
      and `'False'` would never be met, and any other expectation is never
      checked. */
  lemma FavoritesCheckWithBooleanReply(expected: PyValue, b: bool)
    ensures IsContactInFavorites(expected, PyBool(b)).CallUtilsError? <==> expected == PyStr("True") || expected == PyStr("False")
  {
  }

  /** `is_ongoing_call_displayed_on_home`: the second reply of the device
      (the first is discarded) must equal the expectation. */
  function IsOngoingCallDisplayedOnHome(expected: PyValue, actual: PyValue): (v: Verdict)
    ensures v.CallUtilsError? <==> expected != actual
  {
    if expected != actual then CallUtilsError("Ongoing call not displayed on home") else Pass
  }

  /** `update_device_timezone`: the time zone read back after setting it must
      contain the one requested. */
  function UpdateDeviceTimezone(expectedTimezone: string, actualTimezone: string): (v: Verdict)
    ensures v.CallUtilsError? <==> !exists i :: OccursAt(actualTimezone, expectedTimezone, i)
  {
    if !Contains(actualTimezone, expectedTimezone)
    then CallUtilsError("Time Zone did not set properly.")
    else Pass
  }

  /** `verify_search_results_contain_target_search`: the first search result
      must contain the expected text. */
  function VerifySearchResultsContainTargetSearch(expectedSearchResult: string, actualSearchResult: string): (v: Verdict)
    ensures v.CallUtilsError? <==> !exists i :: OccursAt(actualSearchResult, expectedSearchResult, i)
  {
    if !Contains(actualSearchResult, expectedSearchResult)
    then CallUtilsError("Actual search result does not contain Expected.")
    else Pass
  }

  /** A result that shows the expected text with anything around it passes
      both containment checks. */
  lemma ContainmentAcceptsSurroundingText(before: string, expected: string, after: string)
    ensures UpdateDeviceTimezone(expected, before + expected + after) == Pass
    ensures VerifySearchResultsContainTargetSearch(expected, before + expected + after) == Pass
  {
    ContainsEmbedded(before, expected, after);
  }
}
