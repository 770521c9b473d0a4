/** The detail screen's number label, `String.format(Locale.US, "#%03d", id)`, and the
    inverse reading of such a label. Ids are non-negative. */
module NumberFormat {
  import opened Wrappers

  predicate IsDigit(c: char)
  {
    '0' <= c <= '9'
  }

  predicate AllDigits(s: string)
  {
    forall i :: 0 <= i < |s| ==> IsDigit(s[i])
  }

  function DigitChar(d: nat): (c: char)
    requires d < 10
    ensures IsDigit(c)
  {
    ('0' as int + d) as char
  }

  function DigitValue(c: char): (d: nat)
    requires IsDigit(c)
    ensures d < 10 && DigitChar(d) == c
  {
    c as int - '0' as int
  }

  /** The value of a string of decimal digits, most significant first. */
  function ValueOf(s: string): (v: nat)
    requires AllDigits(s)
  {
    if s == [] then 0 else ValueOf(s[..|s| - 1]) * 10 + DigitValue(s[|s| - 1])
  }

  /** `%d` for a non-negative int: the decimal digits of `n` without leading zeros. */
  function Decimal(n: nat): (r: string)
    ensures |r| >= 1
    ensures AllDigits(r)
    ensures n < 10 <==> |r| == 1
    ensures n < 100 <==> |r| <= 2
    ensures n < 1000 <==> |r| <= 3
  {
    if n < 10 then [DigitChar(n)] else Decimal(n / 10) + [DigitChar(n % 10)]
  }

  function Zeros(k: nat): (r: string)
    ensures |r| == k && AllDigits(r)
  {
    seq(k, _ => '0')
  }

  /** The `03` flag: zeros on the left up to a width of three. */
  function PadLeft3(s: string): (r: string)
  {
    if |s| >= 3 then s else Zeros(3 - |s|) + s
  }

  /** `String.format(Locale.US, "#%03d", id)`. */
  function FormatNumber(id: nat): (r: string)
    ensures |r| >= 4 && r[0] == '#'
    ensures AllDigits(r[1..])
    ensures id <= 999 <==> |r| == 4
  {
    "#" + PadLeft3(Decimal(id))
  }

  /** Reads a `#`-prefixed decimal label back into its number. */
  function ParseNumber(s: string): (r: Option<nat>)
    ensures r.Some? <==> |s| >= 2 && s[0] == '#' && AllDigits(s[1..])
  {
    if |s| >= 2 && s[0] == '#' && AllDigits(s[1..]) then Some(ValueOf(s[1..])) else None
  }

  lemma {:induction false} ValueOfDecimal(n: nat)
    ensures ValueOf(Decimal(n)) == n
  {
    if n >= 10 {
      ValueOfDecimal(n / 10);
      var d := Decimal(n);
      assert d[..|d| - 1] == Decimal(n / 10);
    }
  }

  /** A leading zero does not change the value. */
  lemma {:induction false} ValueOfLeadingZero(s: string)
    requires AllDigits(s)
    ensures AllDigits(['0'] + s)
    ensures ValueOf(['0'] + s) == ValueOf(s)
  {
    var z := ['0'] + s;
    assert forall i :: 0 < i < |z| ==> z[i] == s[i - 1];
    if s != [] {
      var init := s[..|s| - 1];
      ValueOfLeadingZero(init);
      assert z[..|z| - 1] == ['0'] + init;
    }
  }

  lemma {:induction false} ValueOfZeros(k: nat, s: string)
    requires AllDigits(s)
    ensures AllDigits(Zeros(k) + s)
    ensures ValueOf(Zeros(k) + s) == ValueOf(s)
  {
    if k > 0 {
      ValueOfZeros(k - 1, s);
      ValueOfLeadingZero(Zeros(k - 1) + s);
      assert Zeros(k) + s == ['0'] + (Zeros(k - 1) + s);
    } else {
      assert Zeros(k) + s == s;
    }
  }

  /** Reading the label back gives the id: the label loses nothing. */
  lemma FormatParseRoundTrip(id: nat)
    ensures ParseNumber(FormatNumber(id)) == Some(id)
  {
    var d := Decimal(id);
    ValueOfDecimal(id);
    if |d| < 3 {
      ValueOfZeros(3 - |d|, d);
    }
    assert FormatNumber(id)[1..] == PadLeft3(d);
  }

  /** Different ids get different labels, so no two entries share a preference key. */
  lemma FormatInjective(a: nat, b: nat)
    requires a != b
    ensures FormatNumber(a) != FormatNumber(b)
  {
    FormatParseRoundTrip(a);
    FormatParseRoundTrip(b);
  }

  lemma PadShort(a: char, b: char)
    ensures PadLeft3([a]) == ['0', '0', a]
    ensures PadLeft3([a, b]) == ['0', a, b]
  {
  }

  lemma DecimalTwoDigits(n: nat)
    requires 10 <= n < 100
    ensures Decimal(n) == [DigitChar(n / 10), DigitChar(n % 10)]
  {
  }

  lemma DecimalThreeDigits(n: nat)
    requires 100 <= n < 1000
    ensures Decimal(n) == [DigitChar(n / 100), DigitChar(n / 10 % 10), DigitChar(n % 10)]
  {
    var m := n / 10;
    assert 10 <= m < 100;
    assert m / 10 == n / 100;
    DecimalTwoDigits(m);
  }

  /** For ids up to 999 the label is `#` and exactly three digits: hundreds, tens, units. */
  lemma ThreeDigitLabel(id: nat)
    requires id <= 999
    ensures FormatNumber(id) == ['#', DigitChar(id / 100), DigitChar(id / 10 % 10), DigitChar(id % 10)]
  {
    if id < 10 {
      assert Decimal(id) == [DigitChar(id)];
      PadShort(DigitChar(id), '0');
      assert id / 100 == 0 && id / 10 % 10 == 0 && id % 10 == id;
    } else if id < 100 {
      DecimalTwoDigits(id);
      PadShort(DigitChar(id / 10), DigitChar(id % 10));
      assert id / 100 == 0 && id / 10 % 10 == id / 10;
    } else {
      DecimalThreeDigits(id);
    }
  }

  /** The labels shown for entries 7 and 150. */
  lemma LabelExamples()
    ensures FormatNumber(7) == "#007"
    ensures FormatNumber(150) == "#150"
  {
    ThreeDigitLabel(7);
    ThreeDigitLabel(150);
  }

  lemma SplitThreeDigits(a: nat, b: nat, c: nat)
    requires a < 10 && b < 10 && c < 10
    ensures var v := (a * 10 + b) * 10 + c; v / 100 == a && v / 10 % 10 == b && v % 10 == c
  {
  }

  /** Every `#` plus three digits is the label of the number those digits spell. */
  lemma ParseFormatRoundTrip(s: string)
    requires |s| == 4 && s[0] == '#' && AllDigits(s[1..])
    ensures ParseNumber(s).Some? && ParseNumber(s).value <= 999
    ensures FormatNumber(ParseNumber(s).value) == s
  {
    var t := s[1..];
    assert t[..2] == [s[1], s[2]] && t[..2][..1] == [s[1]] && [s[1]][..0] == [];
    assert ValueOf([s[1]]) == DigitValue(s[1]);
    assert ValueOf([s[1], s[2]]) == DigitValue(s[1]) * 10 + DigitValue(s[2]);
    var v := ValueOf(t);
    assert v == (DigitValue(s[1]) * 10 + DigitValue(s[2])) * 10 + DigitValue(s[3]);
    SplitThreeDigits(DigitValue(s[1]), DigitValue(s[2]), DigitValue(s[3]));
    ThreeDigitLabel(v);
  }
}
