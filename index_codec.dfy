/**
 * The array-index codec of section 15.4 of ECMA-262 5.1: a property name is an
 * array index iff it is the canonical decimal rendering of an unsigned 32-bit
 * integer other than 2^32 - 1. The value 2^32 - 1 (`uint.MaxValue`) doubles as
 * the "not an index" sentinel.
 */
module ArrayIndex {

  import opened Options

  /** `uint.MaxValue`: the sentinel returned for every non-index name. */
  const NotAnIndex: nat := 0xFFFF_FFFF

  /** One more than the largest unsigned 32-bit integer. */
  const Uint32Bound: nat := 0x1_0000_0000

  predicate IsDigit(c: char) {
    '0' <= c <= '9'
  }

  function DigitValue(c: char): (d: nat)
    requires IsDigit(c)
    ensures d < 10
  {
    c as int - '0' as int
  }

  function DigitChar(d: nat): (c: char)
    requires d < 10
    ensures IsDigit(c) && DigitValue(c) == d
  {
    ('0' as int + d) as char
  }

  predicate AllDigits(s: string) {
    forall i :: 0 <= i < |s| ==> IsDigit(s[i])
  }

  /** Canonical decimal text: non-empty, only digits, no leading zero unless it is "0". */
  predicate IsCanonical(s: string) {
    |s| > 0 && AllDigits(s) && (s[0] == '0' ==> |s| == 1)
  }

  /** The value of a digit string, read left to right. */
  function DecimalValue(s: string): nat
    requires AllDigits(s)
  {
    if s == [] then 0 else DecimalValue(s[..|s| - 1]) * 10 + DigitValue(s[|s| - 1])
  }

  /** Canonical decimal text of a natural number (what ToString gives for a uint). */
  function DecimalString(n: nat): (s: string)
    ensures |s| > 0 && AllDigits(s)
  {
    if n < 10 then [DigitChar(n)] else DecimalString(n / 10) + [DigitChar(n % 10)]
  }

  /** The reference definition of "p is an array index". */
  predicate IsArrayIndex(p: string) {
    IsCanonical(p) && DecimalValue(p) < NotAnIndex
  }

  /** The index that an array-index name denotes, or the sentinel. */
  function IndexOf(p: string): nat {
    if IsArrayIndex(p) then DecimalValue(p) else NotAnIndex
  }

  lemma {:induction false} DecimalValueOfString(n: nat)
    ensures DecimalValue(DecimalString(n)) == n
  {
    var s := DecimalString(n);
    if n >= 10 {
      DecimalValueOfString(n / 10);
      assert s[..|s| - 1] == DecimalString(n / 10);
    }
  }

  lemma {:induction false} DecimalStringIsCanonical(n: nat)
    ensures IsCanonical(DecimalString(n))
    ensures n > 0 ==> DecimalString(n)[0] != '0'
  {
    if n >= 10 {
      DecimalStringIsCanonical(n / 10);
    }
  }

  /** A digit string without a leading zero denotes at least 10^(|s|-1), so it is positive. */
  lemma {:induction false} LeadingDigitPositive(s: string)
    requires |s| > 0 && AllDigits(s) && s[0] != '0'
    ensures DecimalValue(s) > 0
  {
    if |s| > 1 {
      LeadingDigitPositive(s[..|s| - 1]);
    }
  }

  lemma {:induction false} StringOfDecimalValue(s: string)
    requires IsCanonical(s)
    ensures DecimalString(DecimalValue(s)) == s
  {
    if |s| > 1 {
      var init := s[..|s| - 1];
      assert IsCanonical(init);
      LeadingDigitPositive(init);
      StringOfDecimalValue(init);
      var v := DecimalValue(s);
      assert v / 10 == DecimalValue(init) && v % 10 == DigitValue(s[|s| - 1]);
    }
  }

  /**
   * The codec round trip in both directions: every index in [0, 2^32 - 2]
   * renders to an index name that reads back as itself, and every index name
   * is the rendering of the index it reads as.
   */
  lemma IndexRoundTrip(n: nat, p: string)
    ensures n < NotAnIndex ==> IsArrayIndex(DecimalString(n)) && IndexOf(DecimalString(n)) == n
    ensures IsArrayIndex(p) ==> DecimalString(IndexOf(p)) == p
  {
    DecimalValueOfString(n);
    DecimalStringIsCanonical(n);
    if IsArrayIndex(p) {
      StringOfDecimalValue(p);
    }
  }

  /** Extending a digit string never decreases its value. */
  lemma {:induction false} PrefixValueBound(s: string, i: nat)
    requires AllDigits(s) && i <= |s|
    ensures AllDigits(s[..i]) && DecimalValue(s[..i]) <= DecimalValue(s)
  {
    if i < |s| {
      var init := s[..|s| - 1];
      assert AllDigits(init);
      PrefixValueBound(init, i);
      assert init[..i] == s[..i];
      assert DecimalValue(init) <= DecimalValue(s);
    } else {
      assert s[..i] == s;
    }
  }

  lemma PrefixStep(s: string, i: nat)
    requires i < |s| && AllDigits(s[..i + 1])
    ensures DecimalValue(s[..i + 1]) == DecimalValue(s[..i]) * 10 + DigitValue(s[i])
  {
    assert s[..i + 1][..i] == s[..i];
  }

  /**
   * ParseArrayIndex as the source runs it, for a non-empty name: read the
   * first digit, refuse a leading zero of a longer name, then accumulate
   * digits and give up as soon as the running value reaches `uint.MaxValue`.
   */
  method ParseNonEmpty(p: string) returns (r: nat)
    requires |p| > 0
    ensures r == IndexOf(p)
    ensures r != NotAnIndex <==> IsArrayIndex(p)
  {
    var d := p[0] as int - '0' as int;
    if d < 0 || d > 9 {
      return NotAnIndex;
    }
    if d == 0 && |p| > 1 {
      return NotAnIndex;
    }
    var result: nat := d;
    assert p[..1] == [p[0]];
    var i := 1;
    while i < |p|
      invariant 1 <= i <= |p|
      invariant AllDigits(p[..i]) && result == DecimalValue(p[..i])
      invariant result < NotAnIndex
    {
      d := p[i] as int - '0' as int;
      if d < 0 || d > 9 {
        assert !AllDigits(p);
        return NotAnIndex;
      }
      assert p[..i + 1] == p[..i] + [p[i]];
      PrefixStep(p, i);
      result := result * 10 + d;
      if result >= NotAnIndex {
        if AllDigits(p) {
          PrefixValueBound(p, i + 1);
        }
        return NotAnIndex;
      }
      i := i + 1;
    }
    assert p[..i] == p;
    r := result;
  }

  /**
   * ParseArrayIndex with the empty name mapped to the sentinel (see
   * ParseAsWritten for what the source does with it).
   */
  method ParseArrayIndex(p: string) returns (r: nat)
    ensures r == IndexOf(p)
    ensures r != NotAnIndex <==> IsArrayIndex(p)
    ensures r != NotAnIndex ==> r < NotAnIndex && p == DecimalString(r)
  {
    if |p| == 0 {
      r := NotAnIndex;
    } else {
      r := ParseNonEmpty(p);
    }
    if r != NotAnIndex {
      IndexRoundTrip(r, p);
    }
  }

  /**
   * ParseArrayIndex as written: it reads `p[0]` before any length test, so
   * the empty name raises an index-out-of-range exception (None here);
   * every other name runs the digit loop.
   */
  method ParseAsWritten(p: string) returns (r: Option<nat>)
    ensures r.None? <==> p == ""
    ensures r.Some? ==> r.value == IndexOf(p)
  {
    if |p| == 0 {
      r := None;
    } else {
      var v := ParseNonEmpty(p);
      r := Some(v);
    }
  }

  /**
   * The empty property name is the input on which the source crashes, while
   * the corrected codec reports it as no index.
   */
  method EmptyNameCrashes() returns (asWritten: Option<nat>, corrected: nat)
    ensures asWritten == None && corrected == NotAnIndex
  {
    asWritten := ParseAsWritten("");
    corrected := ParseArrayIndex("");
  }

  lemma DecimalValueSnoc(s: string, c: char)
    requires AllDigits(s) && IsDigit(c)
    ensures AllDigits(s + [c]) && DecimalValue(s + [c]) == DecimalValue(s) * 10 + DigitValue(c)
  {
    assert (s + [c])[..|s|] == s;
  }

  /** Concrete names from section 15.4: leading zeros and non-digits are refused. */
  lemma ShortExamples()
    ensures IsArrayIndex("0") && IndexOf("0") == 0
    ensures IsArrayIndex("10") && IndexOf("10") == 10
    ensures !IsArrayIndex("01") && !IsArrayIndex("1a") && !IsArrayIndex("")
  {
    DecimalValueSnoc("1", '0');
    assert "1" + ['0'] == "10";
    assert !IsDigit("1a"[1]);
  }

  lemma RenderFirstDigits()
    ensures DecimalString(42949) == "42949"
  {
  }

  /** The largest index is 2^32 - 2; its successor 2^32 - 1 is the sentinel, not an index. */
  lemma LargestIndexExample()
    ensures IsArrayIndex("4294967294") && IndexOf("4294967294") == 4294967294
    ensures !IsArrayIndex("4294967295")
  {
    RenderFirstDigits();
    assert DecimalString(429496) == DecimalString(42949) + ['6'];
    assert DecimalString(4294967) == DecimalString(429496) + ['7'];
    assert DecimalString(42949672) == DecimalString(4294967) + ['2'];
    assert DecimalString(429496729) == DecimalString(42949672) + ['9'];
    assert DecimalString(4294967294) == DecimalString(429496729) + ['4'];
    assert DecimalString(4294967295) == DecimalString(429496729) + ['5'];
    assert DecimalString(4294967294) == "4294967294";
    assert DecimalString(4294967295) == "4294967295";
    DecimalValueOfString(4294967294);
    DecimalValueOfString(4294967295);
    DecimalStringIsCanonical(4294967294);
  }
}
