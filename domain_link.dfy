/**
  The domain id in a link of the domain table: the search for the pattern
  `domain_id=(\d+)` written out as a left-to-right scan, followed by the
  conversion of the captured digits to an integer.
*/
module DomainLink {
  import opened Wrappers

  const Key: string := "domain_id="

  predicate IsDigit(c: char)
  {
    '0' <= c <= '9'
  }

  ghost predicate AllDigits(s: string)
  {
    forall i | 0 <= i < |s| :: IsDigit(s[i])
  }

  /** The pattern matches at `i`: the key followed by at least one digit. */
  ghost predicate MatchAt(s: string, i: int)
  {
    0 <= i && i + |Key| < |s| && s[i..i + |Key|] == Key && IsDigit(s[i + |Key|])
  }

  /** The length of the longest run of digits starting at `j` (what the greedy `\d+` takes). */
  function DigitRun(s: string, j: nat): (n: nat)
    requires j <= |s|
    ensures j + n <= |s| && AllDigits(s[j..j + n])
    ensures j + n == |s| || !IsDigit(s[j + n])
    decreases |s| - j
  {
    if j < |s| && IsDigit(s[j]) then
      var n := DigitRun(s, j + 1);
      assert s[j..j + 1 + n] == [s[j]] + s[j + 1..j + 1 + n];
      1 + n
    else 0
  }

  /** Python's `int(d)` on a string of ASCII digits. */
  function DigitsValue(d: string): nat
    requires AllDigits(d)
  {
    if d == [] then 0
    else DigitsValue(d[..|d| - 1]) * 10 + (d[|d| - 1] as int - '0' as int)
  }

  /**
    The value captured by a match at `i`.
  */
  ghost function CapturedAt(s: string, i: nat): nat
    requires MatchAt(s, i)
  {
    var j := i + |Key|;
    DigitsValue(s[j..j + DigitRun(s, j)])
  }

  /** `i` is the leftmost match at or after `from`. */
  ghost predicate FirstMatchFrom(s: string, from: nat, i: int)
  {
    from <= i && MatchAt(s, i) && forall k | from <= k < i :: !MatchAt(s, k)
  }

  /** The scan from position `from` on. */
  function SearchFrom(s: string, from: nat): Option<nat>
    requires from <= |s|
    decreases |s| - from
  {
    if from + |Key| >= |s| then None
    else if s[from..from + |Key|] == Key && IsDigit(s[from + |Key|]) then
      var j := from + |Key|;
      Some(DigitsValue(s[j..j + DigitRun(s, j)]))
    else
      SearchFrom(s, from + 1)
  }

  /** The scan finds nothing exactly when nothing matches, and otherwise the leftmost match. */
  lemma {:induction false} SearchFromSpec(s: string, from: nat)
    requires from <= |s|
    ensures SearchFrom(s, from).None? <==> forall i | from <= i :: !MatchAt(s, i)
    ensures SearchFrom(s, from).Some? ==>
      exists i :: FirstMatchFrom(s, from, i) && SearchFrom(s, from).value == CapturedAt(s, i)
    decreases |s| - from
  {
    if from + |Key| >= |s| {
    } else if s[from..from + |Key|] == Key && IsDigit(s[from + |Key|]) {
      assert FirstMatchFrom(s, from, from);
    } else {
      assert !MatchAt(s, from);
      SearchFromSpec(s, from + 1);
      if SearchFrom(s, from + 1).Some? {
        var i :| FirstMatchFrom(s, from + 1, i) && SearchFrom(s, from + 1).value == CapturedAt(s, i);
        assert FirstMatchFrom(s, from, i);
      }
    }
  }

  /**
    `re.search(r'domain_id=(\d+)', href)` and `int(m.group(1))`: None when the
    pattern matches nowhere, otherwise the value of the digits captured by the
    leftmost match.
  */
  function FindDomainId(href: string): (r: Option<nat>)
    ensures r.None? <==> forall i :: !MatchAt(href, i)
    ensures r.Some? ==> exists i :: FirstMatchFrom(href, 0, i) && r.value == CapturedAt(href, i)
  {
    SearchFromSpec(href, 0);
    SearchFrom(href, 0)
  }

  /** The decimal digits of `n`, without leading zeros. */
  function ShowNat(n: nat): (d: string)
    ensures |d| > 0 && AllDigits(d)
  {
    var c := ('0' as int + n % 10) as char;
    if n < 10 then [c] else ShowNat(n / 10) + [c]
  }

  /** Reading back the digits of `n` gives `n`. */
  lemma {:induction false} DigitsValueShowNat(n: nat)
    ensures DigitsValue(ShowNat(n)) == n
  {
    var d := ShowNat(n);
    if n >= 10 {
      assert d[..|d| - 1] == ShowNat(n / 10);
      DigitsValueShowNat(n / 10);
    }
  }

  /** Leading zeros do not change the value. */
  lemma {:induction false} DigitsValueLeadingZero(d: string)
    requires AllDigits(d)
    ensures DigitsValue("0" + d) == DigitsValue(d)
  {
    if d != [] {
      var z := "0" + d;
      assert z[..|z| - 1] == "0" + d[..|d| - 1];
      DigitsValueLeadingZero(d[..|d| - 1]);
    }
  }

  /** A maximal run of digits is the run DigitRun measures. */
  lemma DigitRunOf(s: string, j: nat, d: string)
    requires j + |d| <= |s| && s[j..j + |d|] == d && AllDigits(d)
    requires j + |d| == |s| || !IsDigit(s[j + |d|])
    ensures DigitRun(s, j) == |d|
  {
  }

  lemma FirstMatchUnique(s: string, from: nat, i: int, i': int)
    requires FirstMatchFrom(s, from, i) && FirstMatchFrom(s, from, i')
    ensures i == i'
  {
  }

  /** The search returns the capture of the leftmost match. */
  lemma FindFirst(s: string, p: nat)
    requires FirstMatchFrom(s, 0, p)
    ensures FindDomainId(s) == Some(CapturedAt(s, p))
  {
    var r := FindDomainId(s);
    var i :| FirstMatchFrom(s, 0, i) && r.value == CapturedAt(s, i);
    FirstMatchUnique(s, 0, i, p);
  }

  /** The capture at a match is the value of the maximal digit run after the key. */
  lemma CapturedDigits(s: string, p: nat, d: string)
    requires MatchAt(s, p)
    requires p + |Key| + |d| <= |s|
    requires s[p + |Key|..p + |Key| + |d|] == d && AllDigits(d)
    requires p + |Key| + |d| == |s| || !IsDigit(s[p + |Key| + |d|])
    ensures CapturedAt(s, p) == DigitsValue(d)
  {
    DigitRunOf(s, p + |Key|, d);
  }

  /** A match at `p`, with no match before it, determines the result of the search. */
  lemma FindAt(s: string, p: nat, d: string)
    requires forall k | 0 <= k < p :: !MatchAt(s, k)
    requires p + |Key| + |d| <= |s| && s[p..p + |Key|] == Key
    requires s[p + |Key|..p + |Key| + |d|] == d && |d| > 0 && AllDigits(d)
    requires p + |Key| + |d| == |s| || !IsDigit(s[p + |Key| + |d|])
    ensures FindDomainId(s) == Some(DigitsValue(d))
  {
    assert s[p + |Key|] == d[0];
    assert FirstMatchFrom(s, 0, p);
    FindFirst(s, p);
    CapturedDigits(s, p, d);
  }

  /**
    A link that carries `domain_id=` and the digits of `n`, not followed by a
    further digit and not preceded by an earlier match, yields `n`.
  */
  lemma LinkRoundTrip(prefix: string, n: nat, suffix: string)
    requires forall k | 0 <= k < |prefix| :: !MatchAt(prefix + Key + ShowNat(n) + suffix, k)
    requires suffix == [] || !IsDigit(suffix[0])
    ensures FindDomainId(prefix + Key + ShowNat(n) + suffix) == Some(n)
  {
    var d := ShowNat(n);
    var s := prefix + Key + d + suffix;
    var p := |prefix|;
    var j := p + |Key|;
    assert s[p..j] == Key;
    assert s[j..j + |d|] == d;
    assert j + |d| == |s| || s[j + |d|] == suffix[0];
    FindAt(s, p, d);
    DigitsValueShowNat(n);
  }
}
