/**
 * Ordinal formatting used in split titles: `toRoman` with its clamping
 * quirks. The conversion loop is proved equal to the standard
 * place-by-place numeral, which a subtractive-notation decoder reads back
 * as the number; above 3999 the decimal rendering is used.
 */
module Roman {
  import opened Sequences

  type Positive = x: int | x >= 1 witness 1

  /** The conversion table, largest value first: the seven symbols and the six subtractive pairs. */
  const Values: seq<Positive> := [1000, 900, 500, 400, 100, 90, 50, 40, 10, 9, 5, 4, 1]
  const Numerals: seq<string> := ["M", "CM", "D", "CD", "C", "XC", "L", "XL", "X", "IX", "V", "IV", "I"]

  function SymbolValue(c: char): nat {
    match c
    case 'I' => 1
    case 'V' => 5
    case 'X' => 10
    case 'L' => 50
    case 'C' => 100
    case 'D' => 500
    case 'M' => 1000
    case _ => 0
  }

  predicate IsSymbol(c: char) {
    SymbolValue(c) > 0
  }

  predicate AllSymbols(s: string) {
    forall i :: 0 <= i < |s| ==> IsSymbol(s[i])
  }

  /**
   * Reference reading of a numeral: a symbol counts negatively when the
   * symbol right after it is larger, positively otherwise.
   */
  function RomanValue(s: string): int
    decreases |s|
  {
    if |s| == 0 then 0
    else
      (if |s| >= 2 && SymbolValue(s[0]) < SymbolValue(s[1]) then -(SymbolValue(s[0]) as int) else SymbolValue(s[0]) as int)
      + RomanValue(s[1..])
  }

  /**
   * The conversion loop from table entry `k` on: emit entry `k` while its
   * value still fits into `n`, then move on to the next smaller entry.
   */
  function Convert(n: nat, k: nat): string
    requires k <= |Values|
    decreases |Values| - k, n
  {
    if k == |Values| then ""
    else if n >= Values[k] then Numerals[k] + Convert(n - Values[k], k)
    else Convert(n, k + 1)
  }

  /** `k` copies of one symbol. */
  function Repeat(c: char, k: nat): string {
    seq(k, i => c)
  }

  /**
   * Standard notation of one decimal digit from the symbols for one, five
   * and ten units of its place: I, II, III, IV, V, VI, VII, VIII, IX.
   */
  function Digit(d: nat, one: char, five: char, ten: char): string
    requires d < 10
  {
    if d == 9 then [one, ten]
    else if d >= 5 then [five] + Repeat(one, d - 5)
    else if d == 4 then [one, five]
    else Repeat(one, d)
  }

  /**
   * Reference numeral, written place by place: thousands as repeated M,
   * then hundreds, tens and units by the standard digit rule.
   */
  function Canonical(n: nat): string
    requires n <= 3999
  {
    Repeat('M', n / 1000)
    + Digit(n / 100 % 10, 'C', 'D', 'M')
    + Digit(n / 10 % 10, 'X', 'L', 'C')
    + Digit(n % 10, 'I', 'V', 'X')
  }

  /** Decimal rendering of a natural number. */
  function Decimal(n: nat): string
    decreases n
  {
    if n < 10 then [DigitChar(n)] else Decimal(n / 10) + [DigitChar(n % 10)]
  }

  function DigitChar(d: nat): char
    requires d < 10
  {
    ('0' as int + d) as char
  }

  predicate IsDigit(c: char) {
    '0' <= c <= '9'
  }

  predicate AllDigits(s: string) {
    forall i :: 0 <= i < |s| ==> IsDigit(s[i])
  }

  /** Reference reading of a string of decimal digits. */
  function DecimalValue(s: string): nat
    decreases |s|
  {
    if |s| == 0 then 0
    else DecimalValue(s[..|s| - 1]) * 10 + (if IsDigit(s[|s| - 1]) then s[|s| - 1] as int - '0' as int else 0)
  }

  /**
   * `toRoman(n)`: "I" for every n <= 0, standard subtractive notation on
   * 1..3999, and the decimal string of n above 3999.
   */
  function ToRoman(n: int): (s: string)
    ensures n <= 0 ==> s == "I"
    ensures 1 <= n <= 3999 ==> s == Canonical(n)
    ensures 1 <= n <= 3999 ==> |s| > 0 && AllSymbols(s) && RomanValue(s) == n
    ensures n > 3999 ==> |s| > 0 && AllDigits(s) && s[0] != '0' && DecimalValue(s) == n
  {
    if n <= 0 then "I"
    else if n > 3999 then
      DecimalRoundTrip(n);
      Decimal(n)
    else
      ConvertCanonical(n);
      CanonicalValue(n);
      Convert(n, 0)
  }

  // ---------------------------------------------------------------------------
  // The conversion loop writes the standard numeral

  /** Emitting a one-symbol entry `m` times, then moving on to the next entry. */
  lemma {:induction false} Run(k: nat, c: char, m: nat, r: nat)
    requires k < |Values| && Numerals[k] == [c] && r < Values[k]
    ensures Convert(m * Values[k] + r, k) == Repeat(c, m) + Convert(r, k + 1)
    decreases m
  {
    if m == 0 {
      assert Repeat(c, 0) == [];
    } else {
      assert m * Values[k] + r - Values[k] == (m - 1) * Values[k] + r;
      Run(k, c, m - 1, r);
      assert Repeat(c, m) == [c] + Repeat(c, m - 1);
      ConcatAssoc([c], Repeat(c, m - 1), Convert(r, k + 1));
    }
  }

  /** The places below the thousands: first table entry, unit, and the symbols for one, five and ten units. */
  predicate Place(b: nat, unit: nat, one: char, five: char, ten: char) {
    || (b == 1 && unit == 100 && one == 'C' && five == 'D' && ten == 'M')
    || (b == 5 && unit == 10 && one == 'X' && five == 'L' && ten == 'C')
    || (b == 9 && unit == 1 && one == 'I' && five == 'V' && ten == 'X')
  }

  /** A place owns four consecutive entries: nine, five, four and one units. */
  lemma PlaceEntries(b: nat, unit: nat, one: char, five: char, ten: char)
    requires Place(b, unit, one, five, ten)
    ensures b + 4 <= |Values|
    ensures Values[b] == 9 * unit && Numerals[b] == [one, ten]
    ensures Values[b + 1] == 5 * unit && Numerals[b + 1] == [five]
    ensures Values[b + 2] == 4 * unit && Numerals[b + 2] == [one, five]
    ensures Values[b + 3] == unit && Numerals[b + 3] == [one]
    ensures SymbolValue(one) == unit && SymbolValue(five) == 5 * unit && SymbolValue(ten) == 10 * unit
  {
  }

  /** Over a place's four entries the loop writes that place's digit. */
  lemma PlaceConvert(b: nat, unit: nat, one: char, five: char, ten: char, d: nat, rest: nat)
    requires Place(b, unit, one, five, ten) && d < 10 && rest < unit
    ensures b + 4 <= |Values|
    ensures Convert(d * unit + rest, b) == Digit(d, one, five, ten) + Convert(rest, b + 4)
  {
    PlaceEntries(b, unit, one, five, ten);
    var x := d * unit + rest;
    if d == 9 {
      assert Convert(x, b) == [one, ten] + Convert(rest, b);
      assert Convert(rest, b) == Convert(rest, b + 1) == Convert(rest, b + 2) == Convert(rest, b + 3) == Convert(rest, b + 4);
    } else if d >= 5 {
      var y := (d - 5) * unit + rest;
      assert x - 5 * unit == y;
      assert Convert(x, b) == Convert(x, b + 1) == [five] + Convert(y, b + 1);
      assert Convert(y, b + 1) == Convert(y, b + 2) == Convert(y, b + 3);
      Run(b + 3, one, d - 5, rest);
      ConcatAssoc([five], Repeat(one, d - 5), Convert(rest, b + 4));
    } else if d == 4 {
      assert x - 4 * unit == rest;
      assert Convert(x, b) == Convert(x, b + 1) == Convert(x, b + 2) == [one, five] + Convert(rest, b + 2);
      assert Convert(rest, b + 2) == Convert(rest, b + 3) == Convert(rest, b + 4);
    } else {
      assert Convert(x, b) == Convert(x, b + 1) == Convert(x, b + 2) == Convert(x, b + 3);
      Run(b + 3, one, d, rest);
    }
  }

  /** Quotient and remainder by a power of ten are the only ones that fit. */
  lemma QuotientUnique(n: nat, d: nat, q: nat, r: nat)
    requires (d == 10 || d == 100 || d == 1000) && n == d * q + r && r < d
    ensures n / d == q && n % d == r
  {
  }

  /** The decimal digits of n agree with those of its last three and last two digits. */
  lemma PlaceDigits(n: nat)
    ensures n % 1000 / 100 == n / 100 % 10 && n % 1000 / 10 % 10 == n / 10 % 10 && n % 1000 % 10 == n % 10
    ensures n % 100 / 10 == n / 10 % 10 && n % 100 % 10 == n % 10
    ensures n == n / 1000 * 1000 + n / 100 % 10 * 100 + n / 10 % 10 * 10 + n % 10
  {
    var q, o := n / 10, n % 10;
    var p, te := q / 10, q % 10;
    var t, h := p / 10, p % 10;
    var r := n % 1000;
    QuotientUnique(n, 1000, t, 100 * h + 10 * te + o);
    QuotientUnique(r, 100, h, 10 * te + o);
    QuotientUnique(r, 10, 10 * h + te, o);
    QuotientUnique(10 * h + te, 10, h, te);
    QuotientUnique(n, 100, p, 10 * te + o);
    QuotientUnique(10 * te + o, 10, te, o);
  }

  /** Over the last four entries the loop writes the units digit. */
  lemma OnesConvert(o: nat)
    requires o < 10
    ensures Convert(o, 9) == Digit(o, 'I', 'V', 'X')
  {
    PlaceConvert(9, 1, 'I', 'V', 'X', o, 0);
    assert Convert(0, 13) == [];
  }

  /** From the tens entries on, the loop writes the tens and units digits. */
  lemma TensConvert(r: nat)
    requires r < 100
    ensures Convert(r, 5) == Digit(r / 10, 'X', 'L', 'C') + Digit(r % 10, 'I', 'V', 'X')
  {
    PlaceConvert(5, 10, 'X', 'L', 'C', r / 10, r % 10);
    OnesConvert(r % 10);
  }

  /** From the hundreds entries on, the loop writes the last three digits. */
  lemma HundredsConvert(r: nat)
    requires r < 1000
    ensures Convert(r, 1) == Digit(r / 100, 'C', 'D', 'M') + Digit(r / 10 % 10, 'X', 'L', 'C') + Digit(r % 10, 'I', 'V', 'X')
  {
    PlaceDigits(r);
    PlaceConvert(1, 100, 'C', 'D', 'M', r / 100, r % 100);
    TensConvert(r % 100);
    ConcatAssoc(Digit(r / 100, 'C', 'D', 'M'), Digit(r / 10 % 10, 'X', 'L', 'C'), Digit(r % 10, 'I', 'V', 'X'));
  }

  /** The conversion loop produces exactly the standard place-by-place numeral. */
  lemma ConvertCanonical(n: nat)
    requires n <= 3999
    ensures Convert(n, 0) == Canonical(n)
  {
    var t, r := n / 1000, n % 1000;
    assert n == t * Values[0] + r;
    Run(0, 'M', t, r);
    PlaceDigits(n);
    HundredsConvert(r);
    var a, b := Repeat('M', t), Digit(n / 100 % 10, 'C', 'D', 'M');
    var c, e := Digit(n / 10 % 10, 'X', 'L', 'C'), Digit(n % 10, 'I', 'V', 'X');
    ConcatAssoc(a, b + c, e);
    ConcatAssoc(a, b, c);
  }

  // ---------------------------------------------------------------------------
  // The standard numeral reads back as the number

  /** Every symbol of `s` is worth at least `v`. */
  predicate AtLeast(s: string, v: nat) {
    forall i :: 0 <= i < |s| ==> SymbolValue(s[i]) >= v
  }

  /** Appending a numeral whose first symbol is not larger than our last symbol adds the values. */
  lemma {:induction false} ValueOfConcat(a: string, b: string)
    requires |a| > 0
    requires |b| == 0 || SymbolValue(a[|a| - 1]) >= SymbolValue(b[0])
    ensures RomanValue(a + b) == RomanValue(a) + RomanValue(b)
  {
    if |a| == 1 {
      assert (a + b)[1..] == b;
    } else {
      assert (a + b)[1..] == a[1..] + b;
      assert (a + b)[1] == a[1];
      ValueOfConcat(a[1..], b);
    }
  }

  /** A repeated symbol reads as that many times its value. */
  lemma {:induction false} RepeatValue(c: char, m: nat)
    ensures RomanValue(Repeat(c, m)) == m * SymbolValue(c)
    decreases m
  {
    if m > 0 {
      assert Repeat(c, m)[1..] == Repeat(c, m - 1);
      RepeatValue(c, m - 1);
    }
  }

  /**
   * A digit's numeral reads as digit times unit, uses no symbol below the
   * unit, and starts with a symbol worth at most five units.
   */
  lemma DigitValue(b: nat, unit: nat, one: char, five: char, ten: char, d: nat)
    requires Place(b, unit, one, five, ten) && d < 10
    ensures RomanValue(Digit(d, one, five, ten)) == d * unit
    ensures AtLeast(Digit(d, one, five, ten), unit)
    ensures |Digit(d, one, five, ten)| > 0 ==> SymbolValue(Digit(d, one, five, ten)[0]) <= 5 * unit
  {
    PlaceEntries(b, unit, one, five, ten);
    var s := Digit(d, one, five, ten);
    if d == 9 || d == 4 {
      assert s[1..] == [s[1]];
    } else if d >= 5 {
      RepeatValue(one, d - 5);
      ValueOfConcat([five], Repeat(one, d - 5));
    } else {
      RepeatValue(one, d);
    }
  }

  /** Joining a higher part to a lower one adds their values. */
  lemma JoinValue(a: string, b: string, lo: nat, hi: nat)
    requires lo <= hi && AtLeast(a, hi) && AtLeast(b, lo)
    requires |b| > 0 ==> SymbolValue(b[0]) <= hi
    ensures RomanValue(a + b) == RomanValue(a) + RomanValue(b)
    ensures AtLeast(a + b, lo)
  {
    if |a| == 0 {
      assert a + b == b;
    } else {
      ValueOfConcat(a, b);
    }
    forall i | 0 <= i < |a + b|
      ensures SymbolValue((a + b)[i]) >= lo
    {
      if i < |a| { assert (a + b)[i] == a[i]; } else { assert (a + b)[i] == b[i - |a|]; }
    }
  }

  /** Thousands and hundreds of the standard numeral read as their value. */
  lemma UpperValue(n: nat)
    requires n <= 3999
    ensures var s := Repeat('M', n / 1000) + Digit(n / 100 % 10, 'C', 'D', 'M');
      RomanValue(s) == n / 1000 * 1000 + n / 100 % 10 * 100 && AtLeast(s, 100)
  {
    RepeatValue('M', n / 1000);
    DigitValue(1, 100, 'C', 'D', 'M', n / 100 % 10);
    JoinValue(Repeat('M', n / 1000), Digit(n / 100 % 10, 'C', 'D', 'M'), 100, 1000);
  }

  /** The standard numeral of n uses only Roman symbols and reads back as n. */
  lemma CanonicalValue(n: nat)
    requires n <= 3999
    ensures AllSymbols(Canonical(n)) && RomanValue(Canonical(n)) == n
    ensures n >= 1 ==> |Canonical(n)| > 0
  {
    var upper := Repeat('M', n / 1000) + Digit(n / 100 % 10, 'C', 'D', 'M');
    var tens, ones := Digit(n / 10 % 10, 'X', 'L', 'C'), Digit(n % 10, 'I', 'V', 'X');
    PlaceDigits(n);
    UpperValue(n);
    DigitValue(5, 10, 'X', 'L', 'C', n / 10 % 10);
    DigitValue(9, 1, 'I', 'V', 'X', n % 10);
    JoinValue(upper, tens, 10, 100);
    JoinValue(upper + tens, ones, 1, 10);
  }

  lemma {:induction false} DecimalRoundTrip(n: nat)
    ensures |Decimal(n)| > 0 && AllDigits(Decimal(n))
    ensures DecimalValue(Decimal(n)) == n
    ensures n > 0 ==> Decimal(n)[0] != '0'
    decreases n
  {
    if n >= 10 {
      var p := Decimal(n / 10);
      DecimalRoundTrip(n / 10);
      var s := p + [DigitChar(n % 10)];
      assert s[..|s| - 1] == p;
      assert s[0] == p[0];
    }
  }

  /** Distinct ordinals in 1..3999 render as distinct numerals. */
  lemma ToRomanInjective(a: int, b: int)
    requires 1 <= a <= 3999 && 1 <= b <= 3999
    requires a != b
    ensures ToRoman(a) != ToRoman(b)
  {
  }
}
