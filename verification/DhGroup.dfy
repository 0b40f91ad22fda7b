/** The Diffie-Hellman group of dh.go: g1 = 2 generates the subgroup of prime order q
    modulo the safe prime p = 2q + 1 (section 2 of RFC 3526). */
module DhGroup {
  import opened Wire
  import opened ModArith

  const G1: nat := 2

  datatype Group = Group(p: nat, q: nat) {

    /** What the constants of dh.go satisfy.  p takes 192 bytes there. */
    ghost predicate Valid() {
      && IsPrime(p) && IsPrime(q) && p == 2 * q + 1
      && Pow(G1, q) % p == 1
      && |NatBytes(p)| <= 192
    }

    predicate IsGroupElement(n: nat) {
      G1 <= n <= p - 2
    }

    function Exp(g: nat, x: nat): (r: nat)
      requires p > 0
      ensures r < p
    {
      ModExp(g, x, p)
    }

    /** The power of the generator with exponent k, for any integer k. */
    ghost function Gen(k: int): (r: nat)
      requires p > 0 && q > 0
      ensures r < p
    {
      Pow(G1, k % q) % p
    }
  }

  lemma SafePrimeSize(gr: Group)
    requires gr.Valid()
    ensures gr.q >= 3 && gr.p >= 7
  {
  }

  lemma GenCong(gr: Group, a: int, b: int)
    requires gr.Valid() && Cong(a, b, gr.q)
    ensures gr.Gen(a) == gr.Gen(b)
  {
    CongIffSameMod(a, b, gr.q);
  }

  lemma WholeTurns(gr: Group, t: nat)
    requires gr.Valid()
    ensures gr.q * t >= 0 && Pow(G1, gr.q * t) % gr.p == 1
  {
    PowMul(G1, gr.q, t);
    PowReduce(Pow(G1, gr.q), t, gr.p);
    OnePow(t);
    ModUnique(1, gr.p, 0, 1);
  }

  /** Exponents of the generator only matter modulo q. */
  lemma GenPower(gr: Group, n: nat)
    requires gr.Valid()
    ensures gr.Exp(G1, n) == gr.Gen(n)
  {
    hide Pow;
    var t, r := n / gr.q, n % gr.q;
    WholeTurns(gr, t);
    var turns := gr.q * t;
    DivisionParts(n, gr.q);
    PowAdd(G1, turns, r);
    TurnsVanish(Pow(G1, turns), Pow(G1, r), gr.p);
  }

  lemma DivisionParts(n: nat, q: nat)
    requires q > 0
    ensures n == q * (n / q) + n % q
  {
  }

  lemma TurnsVanish(a: nat, b: nat, p: nat)
    requires p > 1 && a % p == 1
    ensures (a * b) % p == b % p
  {
    MulModReduce(a, b, p);
  }

  lemma GenZeroOne(gr: Group)
    requires gr.Valid()
    ensures gr.Gen(0) == 1 && gr.Gen(1) == G1
  {
    SafePrimeSize(gr);
    ModUnique(0, gr.q, 0, 0);
    ModUnique(1, gr.q, 0, 1);
    ModUnique(1, gr.p, 0, 1);
    ModUnique(2, gr.p, 0, 2);
    assert Pow(G1, 1) == 2;
  }

  lemma GenAdd(gr: Group, a: int, b: int)
    requires gr.Valid()
    ensures MulMod(gr.Gen(a), gr.Gen(b), gr.p) == gr.Gen(a + b)
  {
    var p, q := gr.p, gr.q;
    MulModReduce(Pow(G1, a % q), Pow(G1, b % q), p);
    PowAdd(G1, a % q, b % q);
    GenPower(gr, a % q + b % q);
    CongMod(a, q);
    CongMod(b, q);
    CongAdd(a % q, a, b % q, b, q);
    GenCong(gr, a % q + b % q, a + b);
  }

  lemma GenExp(gr: Group, a: int, e: nat)
    requires gr.Valid()
    ensures gr.Exp(gr.Gen(a), e) == gr.Gen(a * e)
  {
    var p, q := gr.p, gr.q;
    var r := a % q;
    PowReduce(Pow(G1, r), e, p);
    PowMul(G1, r, e);
    GenPower(gr, r * e);
    CongMod(a, q);
    CongScale(e, r, a, q);
    assert e * r == r * e && e * a == a * e;
    GenCong(gr, r * e, a * e);
  }

  /** The generator has order q. */
  lemma GenIsOne(gr: Group, a: int)
    requires gr.Valid()
    ensures gr.Gen(a) == 1 <==> a % gr.q == 0
  {
    GenZeroOne(gr);
    var r := a % gr.q;
    CongMod(a, gr.q);
    GenCong(gr, a, r);
    if r != 0 && gr.Gen(r) == 1 {
      ModUnique(r, gr.q, 0, r);
      PrimeInverse(r, gr.q);
      var i := ModInverse(r, gr.q).value;
      // g = g^(r i) = 1^i = 1
      GenExp(gr, r, i);
      OnePow(i);
      ModUnique(1, gr.p, 0, 1);
      CongIffSameMod(r * i, 1, gr.q);
      ModUnique(1, gr.q, 0, 1);
      GenCong(gr, r * i, 1);
      assert false;
    }
  }

  lemma GenEqual(gr: Group, a: int, b: int)
    requires gr.Valid()
    ensures gr.Gen(a) == gr.Gen(b) <==> Cong(a, b, gr.q)
  {
    if Cong(a, b, gr.q) {
      GenCong(gr, a, b);
    } else if gr.Gen(a) == gr.Gen(b) {
      GenAdd(gr, a, -b);
      GenAdd(gr, b, -b);
      GenZeroOne(gr);
      GenIsOne(gr, a - b);
      assert false;
    }
  }

  lemma GenDivide(gr: Group, a: int, b: int)
    requires gr.Valid()
    ensures DivMod(gr.Gen(a), gr.Gen(b), gr.p) == Some(gr.Gen(a - b))
  {
    GenAdd(gr, b, -b);
    GenZeroOne(gr);
    assert MulMod(gr.Gen(b), gr.Gen(-b), gr.p) == 1;
    var i := ModInverse(gr.Gen(b), gr.p);
    assert i.Some?;
    InverseUnique(gr.Gen(b), i.value, gr.Gen(-b), gr.p);
    GenAdd(gr, a, -b);
  }

  /** A power of the generator passes the range check exactly when it is not 1: being in a
      subgroup of odd order, it is never 0 or p - 1. */
  lemma GenIsGroupElement(gr: Group, a: int)
    requires gr.Valid()
    ensures gr.IsGroupElement(gr.Gen(a)) <==> a % gr.q != 0
  {
    var g := gr.Gen(a);
    SafePrimeSize(gr);
    GenIsOne(gr, a);
    assert g != 0 by {
      GenAdd(gr, a, -a);
      GenZeroOne(gr);
      MultipleMod(0, gr.p);
    }
    GenNotMinusOne(gr, a);
  }

  lemma MinusOneSquared(p: nat)
    requires p > 1
    ensures MulMod(p - 1, p - 1, p) == 1
  {
    assert (p - 1) * (p - 1) == (p - 2) * p + 1;
    ModUnique((p - 1) * (p - 1), p, p - 2, 1);
  }

  lemma GenNotMinusOne(gr: Group, a: int)
    requires gr.Valid()
    ensures gr.Gen(a) != gr.p - 1
  {
    SafePrimeSize(gr);
    MinusOneSquared(gr.p);
    GenAdd(gr, a, a);
    GenIsOne(gr, a + a);
    GenIsOne(gr, a);
    assert (2 * a) % gr.q == 0 <==> a % gr.q == 0 by {
      PrimeDividesProduct(2, a, gr.q);
      ModUnique(2, gr.q, 0, 2);
    }
    assert 2 * a == a + a;
  }

  /** Residues of group elements are invertible, so divisions by them are defined. */
  lemma GroupElementInvertible(gr: Group, l: nat, n: nat)
    requires gr.Valid() && gr.IsGroupElement(n)
    ensures DivMod(l, n, gr.p).Some?
  {
    ModUnique(n, gr.p, 0, n);
    PrimeInverse(n, gr.p);
  }

  lemma GenPositive(gr: Group, k: int)
    requires gr.Valid()
    ensures 0 < gr.Gen(k) < gr.p
  {
    SafePrimeSize(gr);
    GenIsGroupElement(gr, k);
    GenIsOne(gr, k);
  }

  lemma NonzeroInvertible(gr: Group, l: nat, v: nat)
    requires gr.Valid() && 0 < v < gr.p
    ensures v % gr.p != 0 && DivMod(l, v, gr.p).Some?
  {
    ModUnique(v, gr.p, 0, v);
    PrimeInverse(v, gr.p);
  }

  /** The assumptions on the group are met by a small safe prime. */
  lemma SmallGroup()
    ensures Group(7, 3).Valid()
  {
  }
}
