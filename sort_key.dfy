/**
 * The sort key of window.rs: the value of the last maximal run of decimal
 * digits in a path, parsed as a `u32`, or 0 when there is no run or the
 * parse overflows. The regex `\d+` is replaced by a direct scan for ASCII
 * digits.
 */
module SortKey {
  import opened Basics

  /** `u32::MAX`. */
  const U32_MAX: nat := 0xFFFF_FFFF

  predicate IsDigit(c: char) {
    '0' <= c <= '9'
  }

  function DigitValue(c: char): (d: nat)
    requires IsDigit(c)
    ensures d < 10
  {
    c as int - '0' as int
  }

  function DigitChar(d: nat): (c: char)
    requires d < 10
    ensures IsDigit(c) && DigitValue(c) == d
  {
    ('0' as int + d) as char
  }

  predicate AllDigits(s: string) {
    forall i :: 0 <= i < |s| ==> IsDigit(s[i])
  }

  predicate NoDigits(s: string) {
    forall i :: 0 <= i < |s| ==> !IsDigit(s[i])
  }

  /**
   * `s[lo..hi]` is the last maximal run of digits of `s`: a non-empty run of
   * digits, not preceded by a digit, with no digit anywhere after it.
   */
  predicate IsLastRun(s: string, lo: nat, hi: nat) {
    && lo < hi <= |s|
    && AllDigits(s[lo..hi])
    && (lo == 0 || !IsDigit(s[lo - 1]))
    && NoDigits(s[hi..])
  }

  /** The end of the last digit at or before position `hi`, or 0 when `s[..hi]` has none. */
  function DigitEnd(s: string, hi: nat): (j: nat)
    requires hi <= |s|
    ensures j <= hi
    ensures NoDigits(s[j..hi])
    ensures j > 0 ==> IsDigit(s[j - 1])
    decreases hi
  {
    if hi == 0 then 0
    else if IsDigit(s[hi - 1]) then hi
    else
      var j := DigitEnd(s, hi - 1);
      assert s[j..hi] == s[j..hi - 1] + [s[hi - 1]];
      j
  }

  /** The start of the run of digits that ends at `hi`. */
  function RunStart(s: string, hi: nat): (lo: nat)
    requires hi <= |s|
    ensures lo <= hi
    ensures AllDigits(s[lo..hi])
    ensures lo == 0 || !IsDigit(s[lo - 1])
    decreases hi
  {
    if hi > 0 && IsDigit(s[hi - 1]) then
      var lo := RunStart(s, hi - 1);
      assert s[lo..hi] == s[lo..hi - 1] + [s[hi - 1]];
      lo
    else hi
  }

  /** Bounds of the last maximal digit run, as `find_iter(path).last()` yields them. */
  function LastDigitRun(s: string): (r: Option<(nat, nat)>)
    ensures r.Some? ==> IsLastRun(s, r.value.0, r.value.1)
    ensures r.None? <==> NoDigits(s)
  {
    var hi := DigitEnd(s, |s|);
    if hi == 0 then
      assert s[0..|s|] == s;
      None
    else
      Some((RunStart(s, hi), hi))
  }

  /** Value of a digit string read in base 10, most significant digit first. */
  function DigitsValue(d: string): nat
    requires AllDigits(d)
  {
    if d == [] then 0
    else DigitsValue(d[..|d| - 1]) * 10 + DigitValue(d[|d| - 1])
  }

  /** `str::parse::<u32>` on a non-empty digit string: the value, or an error on overflow. */
  function ParseU32(d: string): Option<nat>
    requires AllDigits(d)
  {
    var v := DigitsValue(d);
    if v <= U32_MAX then Some(v) else None
  }

  /** A run of `z` zero digits. */
  function Zeros(z: nat): (d: string)
    ensures |d| == z && AllDigits(d)
  {
    seq(z, _ => '0')
  }

  lemma {:induction false} ZerosValue(z: nat)
    ensures DigitsValue(Zeros(z)) == 0
  {
    if z > 0 {
      assert Zeros(z)[..z - 1] == Zeros(z - 1);
      ZerosValue(z - 1);
    }
  }

  /** Leading zeros do not change the value of a digit string. */
  lemma {:induction false} LeadingZerosValue(z: nat, d: string)
    requires AllDigits(d)
    ensures AllDigits(Zeros(z) + d)
    ensures DigitsValue(Zeros(z) + d) == DigitsValue(d)
    decreases |d|
  {
    var s := Zeros(z) + d;
    assert forall i :: 0 <= i < |s| ==> s[i] == if i < z then Zeros(z)[i] else d[i - z];
    if |d| == 0 {
      assert s == Zeros(z);
      ZerosValue(z);
    } else {
      assert s[..|s| - 1] == Zeros(z) + d[..|d| - 1];
      LeadingZerosValue(z, d[..|d| - 1]);
    }
  }

  /**
   * Parsing the decimal rendering of `n`, after any number of leading zeros,
   * gives back `n` when it fits in a `u32` and fails otherwise.
   */
  lemma ParseU32Decimal(z: nat, n: nat)
    ensures AllDigits(Zeros(z) + Decimal(n))
    ensures ParseU32(Zeros(z) + Decimal(n)) == if n <= U32_MAX then Some(n) else None
  {
    LeadingZerosValue(z, Decimal(n));
  }

  /** The decimal rendering of `n`, without leading zeros. */
  function Decimal(n: nat): (d: string)
    ensures |d| > 0 && AllDigits(d)
    ensures d[0] == '0' ==> n == 0
    ensures DigitsValue(d) == n
  {
    if n < 10 then [DigitChar(n)]
    else
      var d := Decimal(n / 10) + [DigitChar(n % 10)];
      assert d[..|d| - 1] == Decimal(n / 10);
      d
  }

  /** The key passed to `sort_by_key` in window.rs. */
  function Key(path: string): (k: nat)
    ensures k <= U32_MAX
    ensures NoDigits(path) ==> k == 0
  {
    match LastDigitRun(path)
    case None => 0
    case Some((lo, hi)) =>
      match ParseU32(path[lo..hi])
      case None => 0
      case Some(v) => v
  }

  lemma DigitInRun(s: string, lo: nat, hi: nat, j: nat)
    requires lo <= j < hi <= |s| && AllDigits(s[lo..hi])
    ensures IsDigit(s[j])
  {
    assert s[lo..hi][j - lo] == s[j];
  }

  lemma NoDigitAfter(s: string, hi: nat, j: nat)
    requires hi <= j < |s| && NoDigits(s[hi..])
    ensures !IsDigit(s[j])
  {
    assert s[hi..][j - hi] == s[j];
  }

  /** Every digit of `s` lies before the end of its last run. */
  lemma DigitsEndByLastRun(s: string, lo: nat, hi: nat, j: nat)
    requires IsLastRun(s, lo, hi) && j < |s| && IsDigit(s[j])
    ensures j < hi
  {
    if hi <= j {
      NoDigitAfter(s, hi, j);
    }
  }

  /** A non-digit before the end of the last run lies before its start. */
  lemma NonDigitBeforeLastRun(s: string, lo: nat, hi: nat, j: nat)
    requires IsLastRun(s, lo, hi) && j < hi && !IsDigit(s[j])
    ensures j < lo
  {
    if lo <= j {
      DigitInRun(s, lo, hi, j);
    }
  }

  /** At most one run is the last maximal run. */
  lemma LastRunUnique(s: string, lo: nat, hi: nat, lo': nat, hi': nat)
    requires IsLastRun(s, lo, hi) && IsLastRun(s, lo', hi')
    ensures lo == lo' && hi == hi'
  {
    DigitInRun(s, lo', hi', hi' - 1);
    DigitsEndByLastRun(s, lo, hi, hi' - 1);
    DigitInRun(s, lo, hi, hi - 1);
    DigitsEndByLastRun(s, lo', hi', hi - 1);
    if lo' > 0 {
      NonDigitBeforeLastRun(s, lo, hi, lo' - 1);
    }
    if lo > 0 {
      NonDigitBeforeLastRun(s, lo', hi', lo - 1);
    }
  }

  /** `LastDigitRun` finds exactly the last maximal run. */
  lemma LastDigitRunSpec(s: string, lo: nat, hi: nat)
    ensures LastDigitRun(s) == Some((lo, hi)) <==> IsLastRun(s, lo, hi)
  {
    if IsLastRun(s, lo, hi) {
      DigitInRun(s, lo, hi, lo);
      var r := LastDigitRun(s);
      LastRunUnique(s, lo, hi, r.value.0, r.value.1);
    }
  }

  /** The key of a path is the parsed value of its last digit run, or 0 on overflow. */
  lemma KeyOfLastRun(s: string, lo: nat, hi: nat)
    requires IsLastRun(s, lo, hi)
    ensures DigitsValue(s[lo..hi]) <= U32_MAX ==> Key(s) == DigitsValue(s[lo..hi])
    ensures DigitsValue(s[lo..hi]) > U32_MAX ==> Key(s) == 0
  {
    LastDigitRunSpec(s, lo, hi);
  }

  /**
   * A path whose last digits spell the number `n` (the digits not preceded by
   * another digit and followed by none) has key `n`, or 0 when `n` overflows `u32`.
   */
  lemma KeyOfNumberedPath(prefix: string, n: nat, suffix: string)
    requires prefix == [] || !IsDigit(prefix[|prefix| - 1])
    requires NoDigits(suffix)
    ensures n <= U32_MAX ==> Key(prefix + Decimal(n) + suffix) == n
    ensures n > U32_MAX ==> Key(prefix + Decimal(n) + suffix) == 0
  {
    var d := Decimal(n);
    var s := prefix + d + suffix;
    var lo, hi := |prefix|, |prefix| + |d|;
    assert s[lo..hi] == d;
    assert s[hi..] == suffix;
    assert lo > 0 ==> s[lo - 1] == prefix[|prefix| - 1];
    assert IsLastRun(s, lo, hi);
    KeyOfLastRun(s, lo, hi);
  }

  /** Digit-less paths, such as a cover image, have key 0. */
  lemma KeyOfCover()
    ensures Key("cover.png") == 0
  {
  }

  /** Numeric, not lexicographic: `img2` has key 2 ... */
  lemma KeyOfImg2()
    ensures Key("img2.png") == 2
  {
    var s := "img2.png";
    assert s[3..4] == "2" && s[4..] == ".png";
    KeyOfLastRun(s, 3, 4);
  }

  /** ... and `img10` has key 10, so `img2` sorts before `img10`. */
  lemma KeyOfImg10()
    ensures Key("img10.png") == 10
  {
    assert Decimal(10) == "10";
    KeyOfNumberedPath("img", 10, ".png");
    assert "img" + "10" + ".png" == "img10.png";
  }

  /** Only the last run counts, even when a directory name holds digits. */
  lemma KeyOfLastRunOnly()
    ensures Key("Pictures/2/img10.png") == 10
  {
    assert Decimal(10) == "10";
    KeyOfNumberedPath("Pictures/2/img", 10, ".png");
    assert "Pictures/2/img" + "10" + ".png" == "Pictures/2/img10.png";
  }

  /** Leading zeros are accepted by the parse: `img007` has key 7. */
  lemma KeyOfLeadingZeros()
    ensures Key("img007.png") == 7
  {
    var s := "img007.png";
    assert s[3..6] == Zeros(2) + Decimal(7);
    assert s[6..] == ".png" && IsLastRun(s, 3, 6);
    ParseU32Decimal(2, 7);
    KeyOfLastRun(s, 3, 6);
  }

  /** `u32::MAX` itself parses; one more overflows the parse and gives key 0. */
  lemma KeyAtOverflow()
    ensures Key("img" + Decimal(U32_MAX) + ".png") == U32_MAX
    ensures Key("img" + Decimal(U32_MAX + 1) + ".png") == 0
  {
    assert "img"[2] == 'g' && NoDigits(".png");
    KeyOfNumberedPath("img", U32_MAX, ".png");
    KeyOfNumberedPath("img", U32_MAX + 1, ".png");
  }
}
