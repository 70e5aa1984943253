/** The parts of Python's string semantics the utilities rely on: `sub in s`,
    `s.rfind(sub)`, `s.strip()` and the digit tests behind `re.sub(r'\D', '', s)`
    and `''.join(c for c in s if c.isdigit())`, all restricted to ASCII. */
module Strings {

  /** `sub` occurs in `s` starting at index `i`. */
  predicate OccursAt(s: string, sub: string, i: int)
  {
    0 <= i && i + |sub| <= |s| && s[i..i + |sub|] == sub
  }

  lemma ShiftOccurrence(s: string, sub: string, j: int)
    requires s != [] && 0 <= j
    ensures OccursAt(s[1..], sub, j) <==> OccursAt(s, sub, j + 1)
  {
    if 0 <= j && j + |sub| <= |s| - 1 {
      assert s[1..][j..j + |sub|] == s[j + 1..j + 1 + |sub|];
    }
  }

  /** Python's `sub in s`. */
  function Contains(s: string, sub: string): (r: bool)
    ensures r <==> exists i :: OccursAt(s, sub, i)
    decreases |s|
  {
    if |sub| > |s| then false
    else if s[..|sub|] == sub then assert OccursAt(s, sub, 0); true
    else
      var rest := Contains(s[1..], sub);
      assert rest ==> exists i :: OccursAt(s, sub, i) by {
        if rest {
          var j :| OccursAt(s[1..], sub, j);
          ShiftOccurrence(s, sub, j);
        }
      }
      assert (exists i :: OccursAt(s, sub, i)) ==> rest by {
        if exists i :: OccursAt(s, sub, i) {
          var i :| OccursAt(s, sub, i);
          assert i != 0;
          ShiftOccurrence(s, sub, i - 1);
        }
      }
      rest
  }

  /** The highest index `i <= top` at which `sub` occurs in `s`, or -1. */
  function RFindAtOrBelow(s: string, sub: string, top: int): (r: int)
    ensures r == -1 || 0 <= r <= top
    ensures r >= 0 ==> OccursAt(s, sub, r)
    ensures forall j :: r < j <= top ==> !OccursAt(s, sub, j)
    decreases top + 1
  {
    if top < 0 then -1
    else if OccursAt(s, sub, top) then top
    else RFindAtOrBelow(s, sub, top - 1)
  }

  /** Python's `s.rfind(sub)`: the highest index at which `sub` occurs in `s`,
      or -1 when it does not occur (an empty `sub` is found at `|s|`). */
  function RFind(s: string, sub: string): (r: int)
    ensures r == -1 || 0 <= r <= |s| - |sub|
    ensures r >= 0 ==> OccursAt(s, sub, r)
    ensures forall j :: r < j ==> !OccursAt(s, sub, j)
  {
    RFindAtOrBelow(s, sub, |s| - |sub|)
  }

  /** `s.rfind(sub)` is -1 exactly when `sub in s` is false. */
  lemma RFindMissesIffAbsent(s: string, sub: string)
    ensures RFind(s, sub) < 0 <==> !Contains(s, sub)
  {
    if Contains(s, sub) {
      var i :| OccursAt(s, sub, i);
      assert i <= |s| - |sub|;
    }
  }

  /** Python's `str.isspace` on the ASCII range: tab, line feed, vertical tab,
      form feed, carriage return, the four separators 0x1C to 0x1F and space. */
  predicate IsSpace(c: char)
  {
    c == ' ' || 9 <= c as int <= 13 || 28 <= c as int <= 31
  }

  predicate AllSpace(s: string)
  {
    forall k :: 0 <= k < |s| ==> IsSpace(s[k])
  }

  /** `s` with its leading whitespace removed. */
  function LeftStrip(s: string): (r: string)
    ensures |r| <= |s| && r == s[|s| - |r|..]
    ensures AllSpace(s[..|s| - |r|])
    ensures r == [] || !IsSpace(r[0])
  {
    if s != [] && IsSpace(s[0]) then
      var r := LeftStrip(s[1..]);
      assert s[..|s| - |r|] == [s[0]] + s[1..][..|s| - 1 - |r|];
      r
    else s
  }

  /** `s` with its trailing whitespace removed. */
  function RightStrip(s: string): (r: string)
    ensures |r| <= |s| && r == s[..|r|]
    ensures AllSpace(s[|r|..])
    ensures r == [] || !IsSpace(r[|r| - 1])
  {
    if s != [] && IsSpace(s[|s| - 1]) then
      var r := RightStrip(s[..|s| - 1]);
      assert s[|r|..] == s[..|s| - 1][|r|..] + [s[|s| - 1]];
      r
    else s
  }

  /** Python's `s.strip()`: `s` without its leading and trailing whitespace.
      `StripSpan` characterises the result. */
  function Strip(s: string): (r: string)
    ensures |r| <= |s|
    ensures r == [] || (!IsSpace(r[0]) && !IsSpace(r[|r| - 1]))
    ensures r == [] <==> AllSpace(s)
  {
    var t := LeftStrip(s);
    var r := RightStrip(t);
    assert r == [] ==> AllSpace(s) by {
      if r == [] {
        assert t[|r|..] == t;
        assert t == [];
        assert s[..|s| - |t|] == s;
      }
    }
    r
  }

  /** Text is found wherever it is embedded. */
  lemma ContainsEmbedded(a: string, t: string, b: string)
    ensures Contains(a + t + b, t)
  {
    assert (a + t + b)[|a|..|a| + |t|] == t;
    assert OccursAt(a + t + b, t, |a|);
  }

  /** Text put in front of `s` shifts every occurrence in `s` by its length. */
  lemma OccursAfterPrepend(a: string, s: string, sub: string, i: int)
    requires 0 <= i
    ensures OccursAt(a + s, sub, |a| + i) <==> OccursAt(s, sub, i)
  {
    if i + |sub| <= |s| {
      assert (a + s)[|a| + i..|a| + i + |sub|] == s[i..i + |sub|];
    }
  }

  /** The last occurrence in `s` is still the last one once text is put in
      front of `s`, shifted by the length of that text. */
  lemma RFindAfterPrepend(a: string, s: string, sub: string)
    requires RFind(s, sub) >= 0
    ensures RFind(a + s, sub) == |a| + RFind(s, sub)
  {
    var k := RFind(s, sub);
    OccursAfterPrepend(a, s, sub, k);
    var r := RFind(a + s, sub);
    if r > |a| + k {
      OccursAfterPrepend(a, s, sub, r - |a|);
    }
  }

  lemma {:induction false} LeftStripSpan(u: string, lo: int)
    requires 0 <= lo < |u| && !IsSpace(u[lo])
    requires forall k :: 0 <= k < lo ==> IsSpace(u[k])
    ensures LeftStrip(u) == u[lo..]
  {
    if lo > 0 {
      var v := u[1..];
      forall k | 0 <= k < lo - 1 ensures IsSpace(v[k]) {
        assert v[k] == u[k + 1];
      }
      assert v[lo - 1] == u[lo];
      LeftStripSpan(v, lo - 1);
      assert v[lo - 1..] == u[lo..];
    }
  }

  lemma RightStripAt(t: string, n: int)
    requires 0 < n <= |t| && !IsSpace(t[n - 1])
    requires forall j :: n <= j < |t| ==> IsSpace(t[j])
    ensures RightStrip(t) == t[..n]
  {
    var r := RightStrip(t);
    var m := |r|;
    forall j | m <= j < |t| ensures IsSpace(t[j]) {
      assert t[m..][j - m] == t[j];
    }
    assert 0 < m ==> t[m - 1] == r[m - 1];
    assert m == n;
  }

  /** `Strip` keeps exactly the span from the first to the last non-space
      character. */
  lemma StripSpan(u: string, lo: int, hi: int)
    requires 0 <= lo < hi <= |u|
    requires forall k :: 0 <= k < lo ==> IsSpace(u[k])
    requires forall k :: hi <= k < |u| ==> IsSpace(u[k])
    requires !IsSpace(u[lo]) && !IsSpace(u[hi - 1])
    ensures Strip(u) == u[lo..hi]
  {
    var t := u[lo..];
    assert LeftStrip(u) == t by {
      LeftStripSpan(u, lo);
    }
    assert RightStrip(t) == u[lo..hi] by {
      forall j | hi - lo <= j < |t| ensures IsSpace(t[j]) {
        assert t[j] == u[lo + j];
      }
      assert t[hi - lo - 1] == u[hi - 1];
      RightStripAt(t, hi - lo);
      assert t[..hi - lo] == u[lo..hi];
    }
    assert Strip(u) == RightStrip(LeftStrip(u));
  }

  /** Stripping text padded with whitespace on both sides gives back the text,
      provided the text itself neither starts nor ends with whitespace. */
  lemma StripSurrounded(w1: string, t: string, w2: string)
    requires AllSpace(w1) && AllSpace(w2)
    requires t != [] && !IsSpace(t[0]) && !IsSpace(t[|t| - 1])
    ensures Strip(w1 + t + w2) == t
  {
    var u := w1 + t + w2;
    var e := |w1| + |t|;
    assert u[|w1|] == t[0];
    assert u[e - 1] == t[|t| - 1];
    assert u[|w1|..e] == t;
    forall k | 0 <= k < |w1| ensures IsSpace(u[k]) {
      assert u[k] == w1[k];
    }
    forall k | e <= k < |u| ensures IsSpace(u[k]) {
      assert u[k] == w2[k - e];
    }
    StripSpan(u, |w1|, e);
  }

  /** An ASCII decimal digit: what both `\d` and `str.isdigit` accept on ASCII. */
  predicate IsDigit(c: char)
  {
    '0' <= c <= '9'
  }

  predicate AllDigits(s: string)
  {
    forall k :: 0 <= k < |s| ==> IsDigit(s[k])
  }

  /** The digits of `s`, in order: both `re.sub(r'\D', '', s)` and
      `''.join(c for c in s if c.isdigit())`. */
  function DigitsOnly(s: string): (r: string)
    ensures AllDigits(r)
    ensures |r| <= |s|
  {
    if s == [] then []
    else (if IsDigit(s[0]) then [s[0]] else []) + DigitsOnly(s[1..])
  }

  /** Filtering distributes over concatenation: what the filter keeps from
      `a + b` is what it keeps from `a` followed by what it keeps from `b`. */
  lemma {:induction false} DigitsOnlyAppend(a: string, b: string)
    ensures DigitsOnly(a + b) == DigitsOnly(a) + DigitsOnly(b)
  {
    if a != [] {
      assert (a + b)[0] == a[0];
      assert (a + b)[1..] == a[1..] + b;
      DigitsOnlyAppend(a[1..], b);
    } else {
      assert a + b == b;
    }
  }

  /** The filter changes nothing exactly when every character is a digit. */
  lemma {:induction false} DigitsOnlyIdentity(s: string)
    ensures DigitsOnly(s) == s <==> AllDigits(s)
  {
    if s != [] {
      DigitsOnlyIdentity(s[1..]);
      if !IsDigit(s[0]) {
        assert |DigitsOnly(s)| <= |s[1..]| < |s|;
      }
    }
  }

  /** A non-digit separator anywhere in the input is dropped. */
  lemma SeparatorIgnored(a: string, c: char, b: string)
    requires !IsDigit(c)
    ensures DigitsOnly(a + [c] + b) == DigitsOnly(a + b)
  {
    DigitsOnlyAppend(a + [c], b);
    DigitsOnlyAppend(a, [c]);
    DigitsOnlyAppend(a, b);
    assert DigitsOnly([c]) == [];
  }

  /** Filtering twice is filtering once. */
  lemma DigitsOnlyIdempotent(s: string)
    ensures DigitsOnly(DigitsOnly(s)) == DigitsOnly(s)
  {
    DigitsOnlyIdentity(DigitsOnly(s));
  }
}
