/** Identifier allocation: String.format("BUG-%04d", n) and
    String.format("COMMENT-%04d", n), and their inverse. */
module Ids {
  import opened Errors

  const BugPrefix: string := "BUG-"
  const CommentPrefix: string := "COMMENT-"

  /** The minimum field width of %04d. */
  const Width: nat := 4

  predicate IsDigit(c: char) {
    '0' <= c <= '9'
  }

  predicate IsDigits(s: string) {
    forall i :: 0 <= i < |s| ==> IsDigit(s[i])
  }

  function DigitChar(d: nat): (c: char)
    requires d < 10
    ensures IsDigit(c)
  {
    ('0' as int + d) as char
  }

  function DigitValue(c: char): (d: nat)
    requires IsDigit(c)
    ensures d < 10
  {
    c as int - '0' as int
  }

  /** The decimal digits of n, most significant first, without leading zeros. */
  function Decimal(n: nat): (s: string)
    ensures 1 <= |s| && IsDigits(s)
    decreases n
  {
    if n < 10 then [DigitChar(n)] else Decimal(n / 10) + [DigitChar(n % 10)]
  }

  /** The number a digit string denotes; leading zeros count for nothing. */
  function DigitsValue(s: string): nat
    requires IsDigits(s)
  {
    if s == [] then 0 else DigitsValue(s[..|s| - 1]) * 10 + DigitValue(s[|s| - 1])
  }

  function Zeros(k: nat): (z: string)
    ensures |z| == k && IsDigits(z)
  {
    seq(k, _ => '0')
  }

  /** The zero flag of %0Nd: left-pad with '0' up to width characters. */
  function ZeroPad(s: string, width: nat): (r: string)
    ensures |r| == if |s| < width then width else |s|
    ensures r == Zeros(|r| - |s|) + s
  {
    if |s| < width then Zeros(width - |s|) + s else s
  }

  /** String.format(prefix + "%04d", n) for a non-negative n. */
  function FormatId(prefix: string, n: nat): (id: string)
    ensures prefix <= id && |id| >= |prefix| + Width
    ensures IsDigits(id[|prefix|..])
  {
    var digits := ZeroPad(Decimal(n), Width);
    assert (prefix + digits)[|prefix|..] == digits;
    prefix + digits
  }

  /** Reads back the counter value from an identifier, if it has the form. */
  function ParseId(prefix: string, id: string): Option<nat>
  {
    if prefix <= id && |id| > |prefix| && IsDigits(id[|prefix|..])
    then Some(DigitsValue(id[|prefix|..]))
    else None
  }

  lemma {:induction false} DecimalRoundTrip(n: nat)
    ensures DigitsValue(Decimal(n)) == n
    decreases n
  {
    if n >= 10 {
      var s := Decimal(n);
      DecimalRoundTrip(n / 10);
      assert s[..|s| - 1] == Decimal(n / 10);
    }
  }

  lemma {:induction false} ZerosValue(k: nat)
    ensures DigitsValue(Zeros(k)) == 0
  {
    if k > 0 {
      assert Zeros(k)[..k - 1] == Zeros(k - 1);
      ZerosValue(k - 1);
    }
  }

  lemma {:induction false} LeadingZerosValue(k: nat, s: string)
    requires IsDigits(s)
    ensures IsDigits(Zeros(k) + s) && DigitsValue(Zeros(k) + s) == DigitsValue(s)
    decreases |s|
  {
    var z := Zeros(k) + s;
    if s == [] {
      assert z == Zeros(k);
      ZerosValue(k);
    } else {
      assert z[..|z| - 1] == Zeros(k) + s[..|s| - 1];
      LeadingZerosValue(k, s[..|s| - 1]);
    }
  }

  /** Parsing a formatted identifier gives back the counter value. */
  lemma ParseFormatRoundTrip(prefix: string, n: nat)
    ensures ParseId(prefix, FormatId(prefix, n)) == Some(n)
  {
    var d := Decimal(n);
    var padded := ZeroPad(d, Width);
    var id := FormatId(prefix, n);
    assert id[|prefix|..] == padded;
    LeadingZerosValue(|padded| - |d|, d);
    DecimalRoundTrip(n);
  }

  /** Distinct counter values give distinct identifiers, and the converse. */
  lemma FormatIdInjective(prefix: string, m: nat, n: nat)
    ensures FormatId(prefix, m) == FormatId(prefix, n) <==> m == n
  {
    ParseFormatRoundTrip(prefix, m);
    ParseFormatRoundTrip(prefix, n);
  }

  /** The widths come out as %04d writes them. */
  lemma FormatIdExamples()
    ensures FormatId(BugPrefix, 1) == "BUG-0001"
    ensures FormatId(CommentPrefix, 42) == "COMMENT-0042"
    ensures FormatId(BugPrefix, 12345) == "BUG-12345"
  {
    assert Decimal(1) == "1";
    assert Zeros(3) == "000";
    assert Decimal(42) == "42";
    assert Zeros(2) == "00";
    assert Decimal(12345) == "12345";
  }
}
