/**
 * Java's 64-bit `long`: its range, two's-complement wrap-around, and
 * `Long.parseLong` as a partial decimal parser.
 */
module JavaLong {
  import opened Wrappers

  const MinLong: int := -0x8000_0000_0000_0000
  const MaxLong: int := 0x7FFF_FFFF_FFFF_FFFF
  const TwoTo64: int := 0x1_0000_0000_0000_0000

  /** The values a Java `long` can hold. */
  type Long = x: int | MinLong <= x <= MaxLong

  /** Two's-complement reduction of an exact integer into the `long` range. */
  function Wrap(x: int): (r: Long)
    ensures (r - x) % TwoTo64 == 0
    ensures MinLong <= x <= MaxLong ==> r == x
  {
    var m := x % TwoTo64;
    if m > MaxLong then m - TwoTo64 else m
  }

  // ---------------------------------------------------------------------
  // Long.parseLong (decimal, optional sign, no surrounding blanks)
  // ---------------------------------------------------------------------

  predicate IsDigit(c: char) {
    '0' <= c <= '9'
  }

  predicate AllDigits(s: string) {
    forall i :: 0 <= i < |s| ==> IsDigit(s[i])
  }

  /** The value of a run of decimal digits, most significant first (0 for no digits). */
  function DigitsValue(s: string): (v: nat)
    requires AllDigits(s)
    ensures |s| >= 1 && s[0] == '0' ==> v == DigitsValue(s[1..])
  {
    if s == [] then 0
    else
      var init := s[..|s| - 1];
      assert |s| >= 2 ==> s[1..][..|s| - 2] == init[1..];
      DigitsValue(init) * 10 + ((s[|s| - 1] as int) - ('0' as int))
  }

  /**
   * `Long.parseLong(s)`: an optional '-' or '+', then at least one decimal digit,
   * and the value must fit in a `long`; every other string is rejected (the
   * `NumberFormatException` of the source).
   */
  function ParseLong(s: string): (r: Option<Long>)
    ensures s == [] ==> r.None?
    // No sign: accepted exactly when all digits with a value that fits.
    ensures |s| >= 1 && s[0] != '-' && s[0] != '+' ==>
              r == if AllDigits(s) && DigitsValue(s) <= MaxLong then Some(DigitsValue(s)) else None
    // '+': at least one digit follows, and the value fits.
    ensures |s| >= 1 && s[0] == '+' ==>
              r == if |s| >= 2 && AllDigits(s[1..]) && DigitsValue(s[1..]) <= MaxLong
                   then Some(DigitsValue(s[1..])) else None
    // '-': at least one digit follows, and the negated value fits (down to Long.MIN_VALUE).
    ensures |s| >= 1 && s[0] == '-' ==>
              r == if |s| >= 2 && AllDigits(s[1..]) && DigitsValue(s[1..]) <= -MinLong
                   then Some(0 - (DigitsValue(s[1..]) as int)) else None
  {
    if s == [] then None
    else
      var negative := s[0] == '-';
      var body := if s[0] == '-' || s[0] == '+' then s[1..] else s;
      if body == [] || !AllDigits(body) then None
      else
        var v: int := if negative then 0 - (DigitsValue(body) as int) else DigitsValue(body);
        if MinLong <= v <= MaxLong then Some(v) else None
  }

  /** Decimal digits of a natural number, without leading zeros. */
  function Decimal(n: nat): (s: string)
    ensures |s| >= 1 && AllDigits(s)
  {
    if n < 10 then [('0' as int + n) as char]
    else Decimal(n / 10) + [('0' as int + n % 10) as char]
  }

  /** `Long.toString(n)`: the canonical decimal form of a `long`. */
  function LongToString(n: Long): (s: string)
    ensures |s| >= 1
    ensures n < 0 <==> s[0] == '-'
  {
    if n < 0 then "-" + Decimal(-(n as int)) else Decimal(n)
  }

  lemma {:induction false} DecimalValue(n: nat)
    ensures DigitsValue(Decimal(n)) == n
  {
    if n >= 10 {
      var d := Decimal(n / 10);
      var s := Decimal(n);
      DecimalValue(n / 10);
      assert s[..|s| - 1] == d;
    }
  }

  /** Every `long` survives printing and re-parsing: parseLong(toString(n)) == n. */
  lemma {:induction false} ParseLongToString(n: Long)
    ensures ParseLong(LongToString(n)) == Some(n)
  {
    var s := LongToString(n);
    if n < 0 {
      DecimalValue(-(n as int));
      assert s[1..] == Decimal(-(n as int));
    } else {
      DecimalValue(n);
    }
  }
}
