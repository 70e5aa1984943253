/** Reading a number out of a status dump: `get_int_between_prefix_postfix`
    and the three Wi-Fi getters built on it. */
module Extraction {
  import opened Strings
  import opened Integers
  import opened Device

  /** `nc_constants.INVALID_INT`, the value returned when no number is found. */
  const INVALID_INT: int := -1

  /** Python's slice `s[start:stop]` for indices within `s`: empty when the
      start is not below the stop. */
  function Slice(s: string, start: nat, stop: nat): (r: string)
    requires start <= |s| && stop <= |s|
    ensures start <= stop ==> r == s[start..stop]
    ensures stop <= start ==> r == []
  {
    if start <= stop then s[start..stop] else []
  }

  /** The text the source hands to `int()`, before stripping: the slice
      between the end of the last `prefix` and the start of the last
      `postfix`, when the last `prefix` lies at a positive index and the
      last `postfix` starts after it. */
  function Interior(s: string, prefix: string, postfix: string): (r: Option<string>)
    ensures r.Some? <==> 0 < RFind(s, prefix) < RFind(s, postfix)
  {
    var left := RFind(s, prefix);
    var right := RFind(s, postfix);
    if left > 0 && right > left then Some(Slice(s, left + |prefix|, right)) else None
  }

  lemma InteriorBetween(s: string, prefix: string, postfix: string, left: int, right: int)
    requires RFind(s, prefix) == left && RFind(s, postfix) == right && 0 < left < right
    ensures left + |prefix| <= |s| && right <= |s|
    ensures Interior(s, prefix, postfix) == Some(Slice(s, left + |prefix|, right))
  {
  }

  /** The number between the delimiters, or `None` where the source falls
      back to `INVALID_INT`. */
  function ExtractInt(s: string, prefix: string, postfix: string): (r: Option<int>)
    ensures r.Some? <==> Interior(s, prefix, postfix).Some? && IsIntLiteral(Strip(Interior(s, prefix, postfix).value))
  {
    match Interior(s, prefix, postfix)
    case None => None
    case Some(t) => ParseInt(Strip(t))
  }

  /** `get_int_between_prefix_postfix`: never raises; every failure yields
      `INVALID_INT`. */
  function GetIntBetweenPrefixPostfix(s: string, prefix: string, postfix: string): (r: int)
    ensures RFind(s, prefix) <= 0 ==> r == INVALID_INT
    ensures RFind(s, postfix) <= RFind(s, prefix) ==> r == INVALID_INT
    ensures Interior(s, prefix, postfix).Some? && !IsIntLiteral(Strip(Interior(s, prefix, postfix).value)) ==> r == INVALID_INT
    ensures Interior(s, prefix, postfix).Some? && IsIntLiteral(Strip(Interior(s, prefix, postfix).value)) ==>
      Some(r) == ParseInt(Strip(Interior(s, prefix, postfix).value))
  {
    match ExtractInt(s, prefix, postfix)
    case None => INVALID_INT
    case Some(n) => n
  }

  /** A number written out in decimal between the last `prefix` and the last
      `postfix`, padded with any whitespace, is read back exactly, whatever
      earlier occurrences of either delimiter the text holds. */
  lemma ReadsNumberBetweenLastDelimiters(a: string, prefix: string, w1: string, n: int, w2: string, postfix: string, b: string)
    requires a != [] && AllSpace(w1) && AllSpace(w2)
    requires RFind(a + prefix + w1 + FormatInt(n) + w2 + postfix + b, prefix) == |a|
    requires RFind(a + prefix + w1 + FormatInt(n) + w2 + postfix + b, postfix) == |a + prefix + w1 + FormatInt(n) + w2|
    ensures GetIntBetweenPrefixPostfix(a + prefix + w1 + FormatInt(n) + w2 + postfix + b, prefix, postfix) == n
  {
    var digits := FormatInt(n);
    var s := a + prefix + w1 + digits + w2 + postfix + b;
    var start := |a + prefix|;
    var stop := |a + prefix + w1 + digits + w2|;
    assert Interior(s, prefix, postfix) == Some(w1 + digits + w2) by {
      assert s[start..stop] == w1 + digits + w2;
    }
    assert Strip(w1 + digits + w2) == digits by {
      FormatIntEnds(n);
      StripSurrounded(w1, digits, w2);
    }
    ParseFormatRoundTrip(n);
  }

  /** Any integer literal `int()` accepts (a sign, leading zeros), padded
      with whitespace between the last `prefix` and the last `postfix`, is
      read as `int()` reads it. */
  lemma ReadsLiteralBetweenLastDelimiters(a: string, prefix: string, w1: string, lit: string, w2: string, postfix: string, b: string)
    requires a != [] && AllSpace(w1) && AllSpace(w2) && IsIntLiteral(lit)
    requires RFind(a + prefix + w1 + lit + w2 + postfix + b, prefix) == |a|
    requires RFind(a + prefix + w1 + lit + w2 + postfix + b, postfix) == |a + prefix + w1 + lit + w2|
    ensures Some(GetIntBetweenPrefixPostfix(a + prefix + w1 + lit + w2 + postfix + b, prefix, postfix)) == ParseInt(lit)
  {
    var s := a + prefix + w1 + lit + w2 + postfix + b;
    var start := |a + prefix|;
    var stop := |a + prefix + w1 + lit + w2|;
    assert Interior(s, prefix, postfix) == Some(w1 + lit + w2) by {
      assert s[start..stop] == w1 + lit + w2;
    }
    assert Strip(w1 + lit + w2) == lit by {
      var d := Unsigned(lit);
      assert IsDigit(d[|d| - 1]) && d[|d| - 1] == lit[|lit| - 1];
      assert !IsSpace(lit[0]) by {
        if lit[0] != '+' && lit[0] != '-' {
          assert d == lit && IsDigit(d[0]);
        }
      }
      StripSurrounded(w1, lit, w2);
    }
  }

  /** The quirk of the guard `left_index > 0`: when the last `prefix` opens
      the text, nothing is read, although the very same text behind any
      non-empty head is read from the same interior. */
  lemma PrefixAtStartIgnored(s: string, prefix: string, postfix: string, head: string)
    requires RFind(s, prefix) == 0 && RFind(s, postfix) > 0
    requires head != []
    ensures GetIntBetweenPrefixPostfix(s, prefix, postfix) == INVALID_INT
    ensures Interior(head + s, prefix, postfix) == Some(Slice(s, |prefix|, RFind(s, postfix)))
  {
    var stop := RFind(s, postfix);
    assert |prefix| <= |s| && stop <= |s|;
    assert RFind(head + s, prefix) == |head| by {
      RFindAfterPrepend(head, s, prefix);
    }
    assert RFind(head + s, postfix) == |head| + stop by {
      RFindAfterPrepend(head, s, postfix);
    }
    InteriorBetween(head + s, prefix, postfix, |head|, |head| + stop);
    assert Slice(head + s, |head| + |prefix|, |head| + stop) == Slice(s, |prefix|, stop) by {
      if |prefix| <= stop {
        assert (head + s)[|head| + |prefix|..|head| + stop] == s[|prefix|..stop];
      }
    }
  }

  /** `dump_wifi_sta_status` / `dump_wifi_p2p_status`: the stripped output,
      with a failed dump mapped to the empty string. */
  function DumpedStatus(reply: Reply): (status: string)
    ensures reply.AdbError? ==> status == []
    ensures reply.Output? ==> status == Strip(reply.text)
  {
    match reply
    case AdbError => []
    case Output(text) => Strip(text)
  }

  /** No delimiter can be found in an empty status, so the getters' early
      return on an empty status gives what the extraction would give anyway. */
  lemma EmptyStatusHasNoNumber(prefix: string, postfix: string)
    ensures GetIntBetweenPrefixPostfix([], prefix, postfix) == INVALID_INT
  {
    assert RFind([], prefix) <= 0;
  }

  /** A getter: `INVALID_INT` for an empty or failed dump, otherwise the
      number between the given delimiters. */
  function GetFromStatus(dump: Reply, prefix: string, postfix: string): (r: int)
    ensures dump.AdbError? ==> r == INVALID_INT
    ensures DumpedStatus(dump) == [] ==> r == INVALID_INT
    ensures r == GetIntBetweenPrefixPostfix(DumpedStatus(dump), prefix, postfix)
  {
    var status := DumpedStatus(dump);
    if status == [] then
      EmptyStatusHasNoNumber(prefix, postfix);
      INVALID_INT
    else GetIntBetweenPrefixPostfix(status, prefix, postfix)
  }

  /** `get_wifi_sta_frequency`, from the answer to `cmd wifi status | grep WifiInfo`. */
  function GetWifiStaFrequency(staDump: Reply): (r: int)
    ensures staDump.AdbError? ==> r == INVALID_INT
    ensures r == GetIntBetweenPrefixPostfix(DumpedStatus(staDump), "Frequency:", "MHz")
  {
    GetFromStatus(staDump, "Frequency:", "MHz")
  }

  /** `get_wifi_p2p_frequency`, from the answer to `dumpsys wifip2p`. */
  function GetWifiP2pFrequency(p2pDump: Reply): (r: int)
    ensures p2pDump.AdbError? ==> r == INVALID_INT
    ensures r == GetIntBetweenPrefixPostfix(DumpedStatus(p2pDump), "channelFrequency=", ", groupRole=GroupOwner")
  {
    GetFromStatus(p2pDump, "channelFrequency=", ", groupRole=GroupOwner")
  }

  /** `get_wifi_sta_max_link_speed`, from the answer to `cmd wifi status | grep WifiInfo`. */
  function GetWifiStaMaxLinkSpeed(staDump: Reply): (r: int)
    ensures staDump.AdbError? ==> r == INVALID_INT
    ensures r == GetIntBetweenPrefixPostfix(DumpedStatus(staDump), "Max Supported Tx Link speed:", "Mbps")
  {
    GetFromStatus(staDump, "Max Supported Tx Link speed:", "Mbps")
  }

  // ---------------------------------------------------------------------
  // The same reads, on a device

  /** `dump_wifi_sta_status`: one shell call whose `AdbError` is caught. */
  method DumpWifiStaStatus(ad: Device) returns (status: string)
    modifies ad
    ensures ad.issued == old(ad.issued) + [DumpWifiStatus]
    ensures status == DumpedStatus(ad.respond(ad.issued))
  {
    var reply := ad.Shell(DumpWifiStatus);
    match reply {
      case AdbError => status := [];
      case Output(text) => status := Strip(text);
    }
  }

  /** `dump_wifi_p2p_status`: one shell call whose `AdbError` is caught. */
  method DumpWifiP2pStatus(ad: Device) returns (status: string)
    modifies ad
    ensures ad.issued == old(ad.issued) + [DumpWifiP2p]
    ensures status == DumpedStatus(ad.respond(ad.issued))
  {
    var reply := ad.Shell(DumpWifiP2p);
    match reply {
      case AdbError => status := [];
      case Output(text) => status := Strip(text);
    }
  }

  /** `get_wifi_sta_frequency` on a device: one dump, then the extraction. */
  method ReadWifiStaFrequency(ad: Device) returns (r: int)
    modifies ad
    ensures ad.issued == old(ad.issued) + [DumpWifiStatus]
    ensures r == GetWifiStaFrequency(ad.respond(ad.issued))
  {
    var status := DumpWifiStaStatus(ad);
    if status == [] {
      return INVALID_INT;
    }
    r := GetIntBetweenPrefixPostfix(status, "Frequency:", "MHz");
  }

  /** `get_wifi_p2p_frequency` on a device: one dump, then the extraction. */
  method ReadWifiP2pFrequency(ad: Device) returns (r: int)
    modifies ad
    ensures ad.issued == old(ad.issued) + [DumpWifiP2p]
    ensures r == GetWifiP2pFrequency(ad.respond(ad.issued))
  {
    var status := DumpWifiP2pStatus(ad);
    if status == [] {
      return INVALID_INT;
    }
    r := GetIntBetweenPrefixPostfix(status, "channelFrequency=", ", groupRole=GroupOwner");
  }

  /** `get_wifi_sta_max_link_speed` on a device: one dump, then the extraction. */
  method ReadWifiStaMaxLinkSpeed(ad: Device) returns (r: int)
    modifies ad
    ensures ad.issued == old(ad.issued) + [DumpWifiStatus]
    ensures r == GetWifiStaMaxLinkSpeed(ad.respond(ad.issued))
  {
    var status := DumpWifiStaStatus(ad);
    if status == [] {
      return INVALID_INT;
    }
    r := GetIntBetweenPrefixPostfix(status, "Max Supported Tx Link speed:", "Mbps");
  }
}
