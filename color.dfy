/** The terminal colours of the JSON printer: the ANSI foreground colour
    codes and the wrapper that sets a colour in bold before a text and
    resets all attributes after it. */
module Ansi {
  const ColorBlack: int := 30
  const ColorRed: int := 31
  const ColorGreen: int := 32
  const ColorYellow: int := 33
  const ColorBlue: int := 34
  const ColorMagenta: int := 35
  const ColorCyan: int := 36
  const ColorWhite: int := 37

  /** The eight codes, in declaration order. */
  const Codes: seq<int> := [ColorBlack, ColorRed, ColorGreen, ColorYellow, ColorBlue, ColorMagenta, ColorCyan, ColorWhite]

  /** The constants count up by one from black at 30. */
  lemma ColorsConsecutive()
    ensures |Codes| == 8
    ensures forall i :: 0 <= i < |Codes| ==> Codes[i] == ColorBlack + i
    ensures ColorBlack == 30 && ColorWhite == 37
  {
  }

  const Esc: char := 27 as char

  /** The decimal digit of `d`. */
  function Digit(d: nat): char
    requires d < 10
  {
    ('0' as int + d) as char
  }

  predicate IsDigit(c: char) {
    '0' <= c <= '9'
  }

  /** `%d` of a natural number: its decimal digits, most significant first,
      with no leading zero. */
  function Decimal(n: nat): string
    decreases n
  {
    if n < 10 then [Digit(n)] else Decimal(n / 10) + [Digit(n % 10)]
  }

  /** The decimal form is a non-empty string of digits with no leading zero. */
  lemma {:induction false} DecimalDigits(n: nat)
    ensures var r := Decimal(n);
      |r| > 0 && (forall i :: 0 <= i < |r| ==> IsDigit(r[i])) && (|r| > 1 ==> r[0] != '0')
    decreases n
  {
    if n >= 10 {
      DecimalDigits(n / 10);
      var r := Decimal(n);
      assert r[0] == Decimal(n / 10)[0];
    }
  }

  /** The number a string of decimal digits denotes. */
  function DigitsValue(ds: string): int
    decreases |ds|
  {
    if |ds| == 0 then 0
    else DigitsValue(ds[..|ds| - 1]) * 10 + (ds[|ds| - 1] as int - '0' as int)
  }

  /** The digits of `n` denote `n`. */
  lemma {:induction false} DecimalValue(n: nat)
    ensures DigitsValue(Decimal(n)) == n
    decreases n
  {
    if n >= 10 {
      DecimalValue(n / 10);
      var r := Decimal(n);
      assert r[..|r| - 1] == Decimal(n / 10);
    }
  }

  /** Distinct numbers print differently. */
  lemma DecimalInjective(m: nat, n: nat)
    requires Decimal(m) == Decimal(n)
    ensures m == n
  {
    DecimalValue(m);
    DecimalValue(n);
  }

  /** `%d` of an `int`: a minus sign before the digits of a negative number. */
  function Itoa(c: int): (r: string)
    ensures |r| > 0
  {
    if c < 0 then "-" + Decimal(-c) else Decimal(c)
  }

  /** The escape sequence that starts colour `c` in bold. */
  function Start(c: int): string {
    [Esc, '['] + Itoa(c) + ";1m"
  }

  /** The escape sequence that resets all attributes. */
  const Reset: string := [Esc, '[', '0', 'm']

  /** `Color`: `s` between the start of colour `c` and the reset. */
  function Color(s: string, c: int): string {
    Start(c) + s + Reset
  }

  /** A coloured string is the colour start, then `s` unchanged, then the
      reset, and nothing else. */
  lemma ColorParts(s: string, c: int)
    ensures var r := Color(s, c);
      && |r| == |Start(c)| + |s| + |Reset|
      && r[..|Start(c)|] == Start(c)
      && r[|Start(c)|..|r| - |Reset|] == s
      && r[|r| - |Reset|..] == Reset
  {
    var r := Color(s, c);
    assert r[..|Start(c)|] == Start(c);
    assert r[|Start(c)|..|r| - |Reset|] == s;
  }

  /** In a coloured string, the digits of the colour run from index 2 up to
      the `;` that follows them. */
  lemma ColorDigits(s: string, c: int, j: nat)
    requires c >= 0 && 2 <= j <= 2 + |Decimal(c)|
    ensures j < |Color(s, c)|
    ensures j < 2 + |Decimal(c)| ==> IsDigit(Color(s, c)[j])
    ensures j == 2 + |Decimal(c)| ==> Color(s, c)[j] == ';'
  {
    var r := Color(s, c);
    DecimalDigits(c);
    assert r[..|Start(c)|] == [Esc, '['] + Decimal(c) + ";1m";
    assert r[j] == r[..|Start(c)|][j];
  }

  /** The digits of the colour sit at indices 2 onwards. */
  lemma ColorDigitsSlice(s: string, c: int)
    requires c >= 0
    ensures 2 + |Decimal(c)| <= |Color(s, c)|
    ensures Color(s, c)[2..2 + |Decimal(c)|] == Decimal(c)
  {
    var r := Color(s, c);
    assert r == [Esc, '['] + Decimal(c) + (";1m" + s + Reset);
  }

  /** Two colourings that agree have colour codes of the same length. */
  lemma SameDigitCount(s1: string, c1: int, s2: string, c2: int)
    requires Color(s1, c1) == Color(s2, c2)
    requires c1 >= 0 && c2 >= 0
    ensures |Decimal(c1)| == |Decimal(c2)|
  {
    var n1, n2 := |Decimal(c1)|, |Decimal(c2)|;
    if n1 < n2 {
      ColorDigits(s1, c1, 2 + n1);
      ColorDigits(s2, c2, 2 + n1);
      assert false;
    } else if n2 < n1 {
      ColorDigits(s2, c2, 2 + n2);
      ColorDigits(s1, c1, 2 + n2);
      assert false;
    }
  }

  /** The text and the colour can be read back from a coloured string. */
  lemma ColorInjective(s1: string, c1: int, s2: string, c2: int)
    requires Color(s1, c1) == Color(s2, c2)
    requires c1 >= 0 && c2 >= 0
    ensures s1 == s2 && c1 == c2
  {
    SameDigitCount(s1, c1, s2, c2);
    ColorDigitsSlice(s1, c1);
    ColorDigitsSlice(s2, c2);
    DecimalInjective(c1, c2);
    ColorParts(s1, c1);
    ColorParts(s2, c2);
  }

  /** The colour start of the printer's three colours. */
  lemma ExampleStart()
    ensures Start(ColorRed) == [Esc] + "[31;1m"
    ensures Start(ColorGreen) == [Esc] + "[32;1m"
    ensures Start(ColorBlue) == [Esc] + "[34;1m"
  {
    assert Decimal(31) == Decimal(3) + [Digit(1)] == "31";
    assert Decimal(32) == Decimal(3) + [Digit(2)] == "32";
    assert Decimal(34) == Decimal(3) + [Digit(4)] == "34";
  }
}
