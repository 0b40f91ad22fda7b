/** Numbers as text: the verbs %05d, %08x and %X of fmt, and the readers strconv.Atoi,
    strconv.ParseInt and big.Int.SetString. */
module Numerals {
  import opened Wire
  import opened ModArith

  const ZERO: byte := 48       // '0'
  const LOWER_A: byte := 97    // 'a'
  const UPPER_A: byte := 65    // 'A'
  const PLUS: byte := 43
  const MINUS: byte := 45

  const INT_LIMIT := 0x8000_0000_0000_0000

  /** The bytes of a text in ASCII. */
  ghost function Ascii(text: string): (b: bytes)
    ensures |b| == |text|
  {
    seq(|text|, i requires 0 <= i < |text| => text[i] as int % 0x100)
  }

  /** A digit, with the letter that stands for ten. */
  function Digit(d: nat, ten: byte): (c: byte)
    requires d < 16 && (ten == LOWER_A || ten == UPPER_A)
  {
    if d < 10 then ZERO + d else ten + (d - 10)
  }

  function DigitValue(c: byte): Option<nat> {
    if ZERO <= c < ZERO + 10 then Some(c - ZERO)
    else if LOWER_A <= c < LOWER_A + 26 then Some(c - LOWER_A + 10)
    else if UPPER_A <= c < UPPER_A + 26 then Some(c - UPPER_A + 10)
    else None
  }

  function Numeral(n: nat, base: nat, ten: byte): (b: bytes)
    requires 2 <= base <= 16 && (ten == LOWER_A || ten == UPPER_A)
    ensures |b| >= 1
  {
    if n < base then [Digit(n, ten)] else Numeral(n / base, base, ten) + [Digit(n % base, ten)]
  }

  /** Zeros in front, up to a width. */
  function Padded(b: bytes, width: nat): (r: bytes)
    ensures |r| == if |b| < width then width else |b|
    decreases width - |b|
  {
    if |b| < width then Padded([ZERO] + b, width) else b
  }

  /** The value of a text of digits below the base; None for anything else, the empty text included. */
  function Unsigned(b: bytes, base: nat): Option<nat> {
    if b == [] then None else
    var last := DigitValue(b[|b| - 1]);
    if last.None? || last.value >= base then None
    else if |b| == 1 then last
    else
      match Unsigned(b[..|b| - 1], base)
      case None => None
      case Some(v) => Some(v * base + last.value)
  }

  function Signed(negative: bool, v: nat): int {
    if negative then 0 - v else v
  }

  /** ParseInt, and Atoi for base 10: an optional sign and a value of 64 bits. */
  function ParseInt(b: bytes, base: nat): Option<int> {
    var signed := b != [] && (b[0] == PLUS || b[0] == MINUS);
    match Unsigned(if signed then b[1..] else b, base)
    case None => None
    case Some(v) =>
      var n := Signed(signed && b[0] == MINUS, v);
      if -INT_LIMIT <= n < INT_LIMIT then Some(n) else None
  }

  predicate IsDigit(c: byte, base: nat) {
    DigitValue(c).Some? && DigitValue(c).value < base
  }

  lemma {:induction false} NumeralReads(n: nat, base: nat, ten: byte)
    requires 2 <= base <= 16 && (ten == LOWER_A || ten == UPPER_A)
    ensures Unsigned(Numeral(n, base, ten), base) == Some(n)
    ensures forall c <- Numeral(n, base, ten) :: IsDigit(c, base)
  {
    if n >= base {
      var q, d := n / base, n % base;
      QuotientSmaller(n, base);
      NumeralReads(q, base, ten);
      hide Unsigned, Digit, DigitValue;
      DigitReads(d, ten);
      OneMore(Numeral(q, base, ten), q, Digit(d, ten), d, base);
    } else {
      DigitReads(n, ten);
    }
  }

  lemma QuotientSmaller(n: nat, base: nat)
    requires base >= 2 && n >= base
    ensures n / base < n && n / base * base + n % base == n
  {
  }

  lemma DigitReads(d: nat, ten: byte)
    requires d < 16 && (ten == LOWER_A || ten == UPPER_A)
    ensures DigitValue(Digit(d, ten)) == Some(d)
  {
  }

  lemma OneMore(b: bytes, q: nat, c: byte, d: nat, base: nat)
    requires b != [] && Unsigned(b, base) == Some(q) && DigitValue(c) == Some(d) && d < base
    ensures Unsigned(b + [c], base) == Some(q * base + d)
  {
  }

  lemma {:induction false} ZeroInFront(b: bytes, base: nat)
    requires base >= 2 && b != []
    ensures Unsigned([ZERO] + b, base) == Unsigned(b, base)
  {
    var z := [ZERO] + b;
    if |b| > 1 {
      ZeroInFront(b[..|b| - 1], base);
      assert z[..|z| - 1] == [ZERO] + b[..|b| - 1];
    } else {
      assert z[..1] == [ZERO];
    }
  }

  lemma {:induction false} PaddedReads(b: bytes, width: nat, base: nat)
    requires base >= 2 && b != []
    ensures Unsigned(Padded(b, width), base) == Unsigned(b, base)
    ensures (forall c <- b :: IsDigit(c, base)) ==> (forall c <- Padded(b, width) :: IsDigit(c, base))
    decreases width - |b|
  {
    if |b| < width {
      ZeroInFront(b, base);
      PaddedReads([ZERO] + b, width, base);
    }
  }

  lemma {:induction false} NumeralLength(n: nat, base: nat, ten: byte, k: nat)
    requires 2 <= base <= 16 && (ten == LOWER_A || ten == UPPER_A) && k >= 1
    ensures |Numeral(n, base, ten)| <= k <==> n < Pow(base, k)
  {
    if k == 1 {
      assert Pow(base, 1) == base;
    } else if n < base {
      PowPositive(base, k - 1);
    } else {
      NumeralLength(n / base, base, ten, k - 1);
      DivBound(n, base, Pow(base, k - 1));
    }
  }

  lemma {:induction false} PowPositive(base: nat, k: nat)
    requires base >= 1
    ensures Pow(base, k) >= 1 && base * Pow(base, k) >= base
  {
    if k > 0 {
      PowPositive(base, k - 1);
    }
  }

  lemma DivBound(n: nat, base: nat, p: nat)
    requires base > 0
    ensures n / base < p <==> n < base * p
  {
    var q := n / base;
    if q < p {
      assert base * (q + 1) <= base * p;
    } else {
      assert base * p <= base * q;
    }
  }

  /** A padded numeral reads back, whatever its width, exactly when it is a signed 64-bit number. */
  lemma FormattedReads(n: nat, base: nat, ten: byte, width: nat)
    requires 2 <= base <= 16 && (ten == LOWER_A || ten == UPPER_A)
    ensures var b := Padded(Numeral(n, base, ten), width);
            ParseInt(b, base) == (if n < INT_LIMIT then Some(n) else None) && forall c <- b :: IsDigit(c, base)
  {
    NumeralReads(n, base, ten);
    PaddedReads(Numeral(n, base, ten), width, base);
    var b := Padded(Numeral(n, base, ten), width);
    assert IsDigit(b[0], base);
  }
}
