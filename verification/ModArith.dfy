/** Arithmetic on big integers modulo m: the functions of bn_utils.go over math/big, with the
    laws of congruences, powers, greatest common divisors and inverses the protocol needs. */
module ModArith {
  import opened Wire

  // ------------------------------------------------------------ congruence

  ghost predicate Cong(a: int, b: int, m: nat)
    requires m > 0
  {
    (a - b) % m == 0
  }

  lemma MultipleSize(d: int, m: nat)
    ensures d >= 1 ==> d * m >= m
    ensures d <= -1 ==> d * m + m <= 0
  {
  }

  lemma ModUnique(a: int, m: nat, k: int, r: int)
    requires m > 0 && a == k * m + r && 0 <= r < m
    ensures a % m == r
  {
    var d := k - a / m;
    assert a == (a / m) * m + a % m;
    assert d * m == a % m - r;
    MultipleSize(d, m);
  }

  lemma MultipleMod(k: int, m: nat)
    requires m > 0
    ensures (k * m) % m == 0
  {
    ModUnique(k * m, m, k, 0);
  }

  /** Congruent numbers differ by a multiple of the modulus. */
  lemma CongMultiple(a: int, b: int, m: nat) returns (k: int)
    requires m > 0 && Cong(a, b, m)
    ensures a == b + k * m
  {
    k := (a - b) / m;
    assert a - b == ((a - b) / m) * m + (a - b) % m;
  }

  lemma CongFromMultiple(a: int, b: int, k: int, m: nat)
    requires m > 0 && a == b + k * m
    ensures Cong(a, b, m)
  {
    MultipleMod(k, m);
  }

  lemma CongMod(a: int, m: nat)
    requires m > 0
    ensures Cong(a, a % m, m) && Cong(a % m, a, m)
  {
    CongFromMultiple(a, a % m, a / m, m);
    CongFromMultiple(a % m, a, -(a / m), m);
  }

  lemma CongIffSameMod(a: int, b: int, m: nat)
    requires m > 0
    ensures Cong(a, b, m) <==> a % m == b % m
  {
    if Cong(a, b, m) {
      var k := CongMultiple(a, b, m);
      assert a == (k + b / m) * m + b % m;
      ModUnique(a, m, k + b / m, b % m);
    } else if a % m == b % m {
      assert a == b + (a / m - b / m) * m;
      CongFromMultiple(a, b, a / m - b / m, m);
    }
  }

  lemma CongTrans(a: int, b: int, c: int, m: nat)
    requires m > 0 && Cong(a, b, m) && Cong(b, c, m)
    ensures Cong(a, c, m)
  {
    CongIffSameMod(a, b, m);
    CongIffSameMod(b, c, m);
    CongIffSameMod(a, c, m);
  }

  lemma CongAdd(a: int, b: int, c: int, d: int, m: nat)
    requires m > 0 && Cong(a, b, m) && Cong(c, d, m)
    ensures Cong(a + c, b + d, m)
  {
    var k := CongMultiple(a, b, m);
    var l := CongMultiple(c, d, m);
    CongFromMultiple(a + c, b + d, k + l, m);
  }

  lemma CongScale(t: int, a: int, b: int, m: nat)
    requires m > 0 && Cong(a, b, m)
    ensures Cong(t * a, t * b, m)
  {
    var k := CongMultiple(a, b, m);
    assert t * a == t * b + (t * k) * m;
    CongFromMultiple(t * a, t * b, t * k, m);
  }

  lemma CongMul(a: int, b: int, c: int, d: int, m: nat)
    requires m > 0 && Cong(a, b, m) && Cong(c, d, m)
    ensures Cong(a * c, b * d, m)
  {
    CongScale(c, a, b, m);
    CongScale(b, c, d, m);
    CongTrans(a * c, b * c, b * d, m);
  }

  /** A factor of a product may be reduced before multiplying. */
  lemma MulModReduce(a: int, b: int, m: nat)
    requires m > 0
    ensures ((a % m) * b) % m == (a * b) % m
    ensures (a * (b % m)) % m == (a * b) % m
    ensures ((a % m) * (b % m)) % m == (a * b) % m
  {
    CongMod(a, m);
    CongMod(b, m);
    CongScale(b, a % m, a, m);
    CongScale(a, b % m, b, m);
    CongMul(a % m, a, b % m, b, m);
    CongIffSameMod((a % m) * b, a * b, m);
    CongIffSameMod(a * (b % m), a * b, m);
    CongIffSameMod((a % m) * (b % m), a * b, m);
  }

  // ------------------------------------------------------------ powers

  function Pow(b: nat, e: nat): (r: nat)
    decreases e
  {
    if e == 0 then 1 else b * Pow(b, e - 1)
  }

  lemma {:induction false} PowAdd(b: nat, m: nat, n: nat)
    ensures Pow(b, m + n) == Pow(b, m) * Pow(b, n)
    decreases m
  {
    if m > 0 {
      PowAdd(b, m - 1, n);
      assert Pow(b, m + n) == b * (Pow(b, m - 1) * Pow(b, n));
    }
  }

  lemma {:induction false} PowMul(b: nat, m: nat, n: nat)
    ensures m * n >= 0 && Pow(Pow(b, m), n) == Pow(b, m * n)
    decreases n
  {
    if n > 0 {
      PowMul(b, m, n - 1);
      assert m * n == m + m * (n - 1);
      PowAdd(b, m, m * (n - 1));
    } else {
      assert m * n == 0;
    }
  }

  lemma {:induction false} OnePow(n: nat)
    ensures Pow(1, n) == 1
  {
    if n > 0 {
      OnePow(n - 1);
    }
  }

  lemma {:induction false} PowReduce(b: nat, e: nat, m: nat)
    requires m > 0
    ensures Pow(b % m, e) % m == Pow(b, e) % m
    decreases e
  {
    if e > 0 {
      PowReduce(b, e - 1, m);
      MulModReduce(b % m, Pow(b % m, e - 1), m);
      MulModReduce(b % m, Pow(b, e - 1), m);
      MulModReduce(b, Pow(b, e - 1), m);
    }
  }

  // ------------------------------------------------------------ bn_utils.go

  function ModExp(g: nat, x: nat, m: nat): (r: nat)
    requires m > 0
    ensures r < m
  {
    Pow(g, x) % m
  }

  function MulMod(l: int, r: int, m: nat): (v: nat)
    requires m > 0
    ensures v < m
  {
    (l * r) % m
  }

  function SubMod(l: int, r: int, m: nat): (v: nat)
    requires m > 0
    ensures v < m
  {
    (l - r) % m
  }

  datatype Bezout = Bezout(g: nat, x: int, y: int)

  /** The extended Euclidean algorithm behind big.Int.ModInverse. */
  function ExtGcd(a: nat, b: nat): (r: Bezout)
    ensures a * r.x + b * r.y == r.g
    ensures a + b > 0 ==> r.g > 0
    decreases b
  {
    if b == 0 then Bezout(a, 1, 0) else
    var s := ExtGcd(b, a % b);
    BezoutStep(a, b, s);
    Bezout(s.g, s.y, s.x - (a / b) * s.y)
  }

  lemma BezoutStep(a: nat, b: nat, s: Bezout)
    requires b > 0 && b * s.x + (a % b) * s.y == s.g
    ensures a * s.y + b * (s.x - (a / b) * s.y) == s.g
  {
  }

  lemma {:induction false} GcdDivides(a: nat, b: nat)
    requires a + b > 0
    ensures a % ExtGcd(a, b).g == 0 && b % ExtGcd(a, b).g == 0
    decreases b
  {
    var g := ExtGcd(a, b).g;
    if b == 0 {
      MultipleMod(1, a);
    } else {
      assert g == ExtGcd(b, a % b).g;
      GcdDivides(b, a % b);
      DividesCombination(a, b, g);
    }
  }

  lemma DividesCombination(a: nat, b: nat, g: nat)
    requires b > 0 && g > 0 && b % g == 0 && (a % b) % g == 0
    ensures a % g == 0
  {
    var r := a % b;
    var k := CongMultiple(b, 0, g);
    var l := CongMultiple(r, 0, g);
    var t := a / b;
    assert a == t * b + r;
    assert t * (k * g) == (t * k) * g;
    assert a == (t * k + l) * g;
    MultipleMod(t * k + l, g);
  }

  /** big.Int.ModInverse: the inverse of a modulo m, or nil when there is none. */
  function ModInverse(a: nat, m: nat): (r: Option<nat>)
    requires m > 1
    ensures r.Some? ==> r.value < m && (a * r.value) % m == 1
    ensures r.None? ==> forall x: nat :: MulMod(a, x, m) != 1
  {
    var b := ExtGcd(a, m);
    if b.g == 1 then
      InverseFromBezout(a, m, b);
      Some(b.x % m)
    else
      NoInverse(a, m);
      None
  }

  lemma InverseFromBezout(a: nat, m: nat, b: Bezout)
    requires m > 1 && a * b.x + m * b.y == 1
    ensures (a * (b.x % m)) % m == 1
  {
    MulModReduce(a, b.x, m);
    assert a * b.x == (-b.y) * m + 1;
    ModUnique(a * b.x, m, -b.y, 1);
  }

  lemma NoInverse(a: nat, m: nat)
    requires m > 1 && ExtGcd(a, m).g != 1
    ensures forall x: nat :: MulMod(a, x, m) != 1
  {
    var g := ExtGcd(a, m).g;
    GcdDivides(a, m);
    forall x: nat
      ensures MulMod(a, x, m) != 1
    {
      if MulMod(a, x, m) == 1 {
        CommonFactorOfInvertible(a, x, m, g);
        assert false;
      }
    }
  }

  lemma CommonFactorOfInvertible(a: nat, x: nat, m: nat, g: nat)
    requires m > 1 && g > 0 && a % g == 0 && m % g == 0 && (a * x) % m == 1
    ensures g == 1
  {
    var k := CongMultiple(a, 0, g);
    var l := CongMultiple(m, 0, g);
    var t := (a * x) / m;
    assert a * x == t * m + 1;
    SwapFactors(k, g, x);
    SwapFactors(l, g, t);
    assert (k * x - l * t) * g == 1;
    FactorOfOne(k * x - l * t, g);
  }

  lemma SwapFactors(a: int, b: int, c: int)
    ensures (a * b) * c == (a * c) * b
  {
  }

  lemma FactorOfOne(k: int, g: nat)
    requires k * g == 1
    ensures g == 1
  {
  }

  lemma InverseUnique(a: nat, x: nat, y: nat, m: nat)
    requires m > 1 && x < m && y < m && (a * x) % m == 1 && (a * y) % m == 1
    ensures x == y
  {
    // x = x(ay) = y(ax) = y
    MulModReduce(x, a * y, m);
    MulModReduce(y, a * x, m);
    assert x * (a * y) == y * (a * x);
    ModUnique(x, m, 0, x);
    ModUnique(y, m, 0, y);
  }

  /** divMod: None stands for the nil inverse that the multiplication would dereference. */
  function DivMod(l: nat, r: nat, m: nat): (v: Option<nat>)
    requires m > 1
    ensures v.Some? ==> v.value < m
  {
    match ModInverse(r, m)
    case None => None
    case Some(i) => Some(MulMod(l, i, m))
  }

  /** Division is the inverse of multiplication wherever it is defined. */
  lemma DivModCancels(l: nat, r: nat, m: nat)
    requires m > 1 && DivMod(l, r, m).Some?
    ensures MulMod(DivMod(l, r, m).value, r, m) == l % m
  {
    var i := ModInverse(r, m).value;
    MulModReduce(l * i, r, m);
    assert (l * i) * r == l * (r * i);
    MulModReduce(l, r * i, m);
  }

  // ------------------------------------------------------------ primes

  ghost predicate Divides(d: nat, n: nat) {
    d > 0 && n % d == 0
  }

  ghost predicate IsPrime(n: nat) {
    n >= 2 && forall d: nat :: Divides(d, n) ==> d == 1 || d == n
  }

  /** Modulo a prime, exactly the multiples of the prime have no inverse. */
  lemma PrimeInverse(a: nat, m: nat)
    requires IsPrime(m)
    ensures ModInverse(a, m).Some? <==> a % m != 0
  {
    var g := ExtGcd(a, m).g;
    GcdDivides(a, m);
    assert Divides(g, m);
    if a % m == 0 {
      if ModInverse(a, m).Some? {
        var i := ModInverse(a, m).value;
        MulModReduce(a, i, m);
        assert false;
      }
    }
  }

  lemma ZeroFactor(a: int, b: int, m: nat)
    requires m > 0 && a % m == 0
    ensures (a * b) % m == 0
  {
    var k := CongMultiple(a, 0, m);
    SwapFactors(k, m, b);
    MultipleMod(k * b, m);
  }

  /** Euclid's lemma. */
  lemma PrimeDividesProduct(a: int, b: int, m: nat)
    requires IsPrime(m)
    ensures (a * b) % m == 0 <==> a % m == 0 || b % m == 0
  {
    if a % m == 0 {
      ZeroFactor(a, b, m);
    } else if b % m == 0 {
      ZeroFactor(b, a, m);
      assert b * a == a * b;
    } else if (a * b) % m == 0 {
      PrimeFactorNonzero(a, b, m);
    }
  }

  lemma PrimeFactorNonzero(a: int, b: int, m: nat)
    requires IsPrime(m) && a % m != 0 && (a * b) % m == 0
    ensures b % m == 0
  {
    var r := a % m;
    assert (r * b) % m == 0 by { MulModReduce(a, b, m); }
    assert r % m != 0 by { ModUnique(r, m, 0, r); }
    PrimeInverse(r, m);
    CancelInvertible(r, ModInverse(r, m).value, b, m);
  }

  lemma CancelInvertible(a: nat, i: nat, b: int, m: nat)
    requires m > 1 && (a * i) % m == 1 && (a * b) % m == 0
    ensures b % m == 0
  {
    // b = (a i) b = (a b) i = 0
    MulModReduce(a * i, b, m);
    SwapFactors(a, i, b);
    MulModReduce(a * b, i, m);
  }
}
