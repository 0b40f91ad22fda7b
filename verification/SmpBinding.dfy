/** What verification rejects: beside the right answer modulo q only one that makes the hash collide
    at the very values computed from the two answers.  So changing an answer of an honest message is
    noticed, up to such a collision.  And what the proofs prove: answers to two challenges for one
    commitment give the exponents. */
module SmpBinding {
  import opened Wire
  import opened ModArith
  import opened DhGroup
  import opened Crypto
  import opened Smp

  /** A collision of SHA-256: the texts hashed for two lists of numbers are different byte strings with
      the same hash. */
  ghost predicate Collide(c: Primitives, ix: byte, vs: seq<nat>, ws: seq<nat>) {
    [ix] + Mpis(vs) != [ix] + Mpis(ws) && c.sha256([ix] + Mpis(vs)) == c.sha256([ix] + Mpis(ws))
  }

  ghost predicate Residues(gr: Group, vs: seq<nat>) {
    forall v <- vs :: v < gr.p
  }

  /** Lists of residues have the same challenge exactly when they are equal or collide. */
  lemma SameChallenge(e: Env, ix: byte, vs: seq<nat>, ws: seq<nat>)
    requires e.Valid() && Residues(e.group, vs) && Residues(e.group, ws)
    ensures Challenge(e.crypto, ix, vs) == Challenge(e.crypto, ix, ws) <==> vs == ws || Collide(e.crypto, ix, vs, ws)
  {
    hide Mpis, Challenge, FitsMpi, IsPrime;
    ResiduesFit(e.group, vs);
    ResiduesFit(e.group, ws);
    ChallengesAgree(e.crypto, ix, vs, ix, ws);
    ChallengeTexts(ix, vs, ix, ws);
  }

  lemma ResiduesFit(gr: Group, vs: seq<nat>)
    requires gr.Valid() && Residues(gr, vs)
    ensures forall v <- vs :: FitsMpi(v)
  {
    forall v <- vs
      ensures FitsMpi(v)
    {
      NatBytesMonotone(v, gr.p);
    }
  }

  lemma CancelRight(gr: Group, a: nat, b: nat, x: nat)
    requires gr.Valid() && a < gr.p && b < gr.p && 0 < x < gr.p && MulMod(a, x, gr.p) == MulMod(b, x, gr.p)
    ensures a == b
  {
    NonzeroInvertible(gr, 1, x);
    var i := ModInverse(x, gr.p).value;
    ModUnique(a, gr.p, 0, a);
    ModUnique(b, gr.p, 0, b);
    CancelProduct(a, x, i, gr.p);
    CancelProduct(b, x, i, gr.p);
  }

  lemma CancelProduct(a: nat, x: nat, i: nat, p: nat)
    requires p > 1 && (x * i) % p == 1
    ensures MulMod(MulMod(a, x, p), i, p) == a % p
  {
    MulModReduce(a * x, i, p);
    assert (a * x) * i == a * (x * i);
    MulModReduce(a, x * i, p);
  }

  /** Powers of a generator of order q agree exactly when the exponents do modulo q. */
  lemma SamePower(gr: Group, t: int, d: nat, d': nat)
    requires gr.Valid() && t % gr.q != 0 && gr.Exp(gr.Gen(t), d) == gr.Exp(gr.Gen(t), d')
    ensures d % gr.q == d' % gr.q
  {
    hide Group.Gen, Group.Exp, IsPrime, Cong;
    GenExp(gr, t, d);
    GenExp(gr, t, d');
    GenEqual(gr, t * d, t * d');
    CancelFactor(t, d, d', gr.q);
  }

  lemma CancelFactor(t: int, d: int, d': int, q: nat)
    requires q > 0 && IsPrime(q) && t % q != 0 && Cong(t * d, t * d', q)
    ensures d % q == d' % q
  {
    assert q >= 2;
    hide IsPrime;
    assert t * d - t * d' == t * (d - d');
    PrimeDividesProduct(t, d - d', q);
    CongIffSameMod(d, d', q);
  }

  /** The numbers verifyZKP hashes for an answer d. */
  ghost function ZkpHashed(gr: Group, gen: nat, c: nat, d: nat): seq<nat>
    requires gr.p > 0
  {
    [MulMod(gr.Exp(G1, d), gr.Exp(gen, c), gr.p)]
  }

  /** The numbers verifyZKP2 and verifyZKP3 hash for answers d5 and d6. */
  ghost function CommitmentHashed(gr: Group, g2: nat, g3: nat, pc: nat, qc: nat, cp: nat, d5: nat, d6: nat): seq<nat>
    requires gr.p > 0
  {
    [MulMod(gr.Exp(g3, d5), gr.Exp(pc, cp), gr.p), MulMod(gr.Exp(G1, d5) * gr.Exp(g2, d6), gr.Exp(qc, cp), gr.p)]
  }

  /** The numbers verifyZKP4 hashes for an answer d7. */
  ghost function EqualLogsHashed(gr: Group, g3x: nat, qaqb: nat, rx: nat, cr: nat, d7: nat): seq<nat>
    requires gr.p > 0
  {
    [MulMod(gr.Exp(G1, d7), gr.Exp(g3x, cr), gr.p), MulMod(gr.Exp(qaqb, d7), gr.Exp(rx, cr), gr.p)]
  }

  /** The same answer modulo q, or another one whose numbers collide with those of the first. */
  ghost predicate Passes(e: Env, ix: byte, same: bool, hashed: seq<nat>, hashed': seq<nat>) {
    same || Collide(e.crypto, ix, hashed, hashed')
  }

  lemma PowerCong(gr: Group, t: int, d: nat, d': nat)
    requires gr.Valid() && d % gr.q == d' % gr.q
    ensures gr.Exp(gr.Gen(t), d) == gr.Exp(gr.Gen(t), d')
  {
    hide Group.Gen, Group.Exp, Cong;
    GenExp(gr, t, d);
    GenExp(gr, t, d');
    CongIffSameMod(d, d', gr.q);
    CongScale(t, d, d', gr.q);
    GenCong(gr, t * d, t * d');
  }

  /** One answer modulo q for each hashed number: the algebra behind verifyZKP. */
  lemma ZkpHashedOnce(gr: Group, k: int, c: nat, d: nat, d': nat)
    requires gr.Valid()
    ensures ZkpHashed(gr, gr.Gen(k), c, d) == ZkpHashed(gr, gr.Gen(k), c, d') <==> d % gr.q == d' % gr.q
  {
    hide Group.Gen, Group.Exp, MulMod;
    GenExp(gr, k, c);
    GenPositive(gr, k * c);
    GenZeroOne(gr);
    OneIsNotZero(gr);
    var x := gr.Exp(gr.Gen(k), c);
    if d % gr.q == d' % gr.q {
      PowerCong(gr, 1, d, d');
    } else if MulMod(gr.Exp(G1, d), x, gr.p) == MulMod(gr.Exp(G1, d'), x, gr.p) {
      CancelRight(gr, gr.Exp(G1, d), gr.Exp(G1, d'), x);
      SamePower(gr, 1, d, d');
    }
  }

  lemma OneIsNotZero(gr: Group)
    requires gr.Valid()
    ensures 1 % gr.q != 0
  {
    SafePrimeSize(gr);
    ModUnique(1, gr.q, 0, 1);
  }

  lemma ShiftCong(a: int, b: int, z: int, q: nat)
    requires q > 0
    ensures Cong(a + z, b + z, q) <==> Cong(a, b, q)
  {
    assert (a + z) - (b + z) == a - b;
  }

  /** The answers that hash to the same numbers, for generators with exponents u and t. */
  ghost predicate SameAnswers(q: nat, u: int, t: int, d5: nat, d6: nat, d5': nat, d6': nat)
    requires q > 0
  {
    Cong(t * d5, t * d5', q) && Cong(d5 + u * d6, d5' + u * d6', q)
  }

  /** For non-trivial generators these are the equal ones modulo q. */
  lemma SameAnswersEqual(gr: Group, u: int, t: int, d5: nat, d6: nat, d5': nat, d6': nat)
    requires gr.Valid() && u % gr.q != 0 && t % gr.q != 0
    ensures SameAnswers(gr.q, u, t, d5, d6, d5', d6') <==> d5 % gr.q == d5' % gr.q && d6 % gr.q == d6' % gr.q
  {
    hide IsPrime, Cong;
    var q := gr.q;
    CongIffSameMod(d5, d5', q);
    CongIffSameMod(d6, d6', q);
    if d5 % q == d5' % q && d6 % q == d6' % q {
      CongScale(t, d5, d5', q);
      CongScale(u, d6, d6', q);
      CongAdd(d5, d5', u * d6, u * d6', q);
    } else if SameAnswers(q, u, t, d5, d6, d5', d6') {
      CancelFactor(t, d5, d5', q);
      CongScale(-1, d5, d5', q);
      CongAdd(d5 + u * d6, d5' + u * d6', -1 * d5, -1 * d5', q);
      assert d5 + u * d6 + -1 * d5 == u * d6 && d5' + u * d6' + -1 * d5' == u * d6';
      CancelFactor(u, d6, d6', q);
    }
  }

  lemma CommitmentHashedIs(gr: Group, u: int, t: int, pc: int, qc: int, cp: nat, d5: nat, d6: nat)
    requires gr.Valid()
    ensures CommitmentHashed(gr, gr.Gen(u), gr.Gen(t), gr.Gen(pc), gr.Gen(qc), cp, d5, d6)
            == [gr.Gen(t * d5 + pc * cp), gr.Gen(d5 + u * d6 + qc * cp)]
  {
    hide Group.Gen, Group.Exp, MulMod;
    GenPower(gr, d5);
    GenExp(gr, t, d5);
    GenExp(gr, pc, cp);
    GenAdd(gr, t * d5, pc * cp);
    GenExp(gr, u, d6);
    GenExp(gr, qc, cp);
    GenAdd3(gr, d5, u * d6, qc * cp);
  }

  lemma CommitmentHashedOnce(gr: Group, u: int, t: int, pc: int, qc: int, cp: nat, d5: nat, d6: nat, d5': nat, d6': nat)
    requires gr.Valid()
    ensures CommitmentHashed(gr, gr.Gen(u), gr.Gen(t), gr.Gen(pc), gr.Gen(qc), cp, d5, d6)
            == CommitmentHashed(gr, gr.Gen(u), gr.Gen(t), gr.Gen(pc), gr.Gen(qc), cp, d5', d6')
            <==> SameAnswers(gr.q, u, t, d5, d6, d5', d6')
  {
    hide Group.Gen, Group.Exp, MulMod, Cong, CommitmentHashed;
    CommitmentHashedIs(gr, u, t, pc, qc, cp, d5, d6);
    CommitmentHashedIs(gr, u, t, pc, qc, cp, d5', d6');
    GenEqual(gr, t * d5 + pc * cp, t * d5' + pc * cp);
    ShiftCong(t * d5, t * d5', pc * cp, gr.q);
    GenEqual(gr, d5 + u * d6 + qc * cp, d5' + u * d6' + qc * cp);
    ShiftCong(d5 + u * d6, d5' + u * d6', qc * cp, gr.q);
  }

  lemma EqualLogsHashedOnce(gr: Group, g3x: int, w: int, rx: nat, cr: nat, d7: nat, d7': nat)
    requires gr.Valid()
    ensures EqualLogsHashed(gr, gr.Gen(g3x), gr.Gen(w), rx, cr, d7) == EqualLogsHashed(gr, gr.Gen(g3x), gr.Gen(w), rx, cr, d7')
            <==> d7 % gr.q == d7' % gr.q
  {
    hide Group.Gen, Group.Exp, MulMod;
    var vs, ws := EqualLogsHashed(gr, gr.Gen(g3x), gr.Gen(w), rx, cr, d7), EqualLogsHashed(gr, gr.Gen(g3x), gr.Gen(w), rx, cr, d7');
    ZkpHashedOnce(gr, g3x, cr, d7, d7');
    if d7 % gr.q == d7' % gr.q {
      PowerCong(gr, w, d7, d7');
      assert vs[0] == ZkpHashed(gr, gr.Gen(g3x), cr, d7)[0] == ZkpHashed(gr, gr.Gen(g3x), cr, d7')[0] == ws[0];
    }
  }

  // ------------------------------------------------------------ verification

  /** Beside an answer that verifies, another one does exactly when it is the same modulo q or its
      number collides with that of the first. */
  lemma ZkpBinding(e: Env, k: int, c: nat, ix: byte, d: nat, d': nat)
    requires e.Valid() && VerifyZkp(e, d, e.group.Gen(k), c, ix)
    ensures VerifyZkp(e, d', e.group.Gen(k), c, ix)
            <==> Passes(e, ix, d % e.group.q == d' % e.group.q,
                        ZkpHashed(e.group, e.group.Gen(k), c, d), ZkpHashed(e.group, e.group.Gen(k), c, d'))
  {
    hide Group.Gen, Group.Exp, MulMod, Challenge, Collide, IsPrime;
    ZkpHashedOnce(e.group, k, c, d, d');
    SameChallenge(e, ix, ZkpHashed(e.group, e.group.Gen(k), c, d), ZkpHashed(e.group, e.group.Gen(k), c, d'));
  }

  lemma CommitmentBinding(e: Env, u: int, t: int, pc: int, qc: int, cp: nat, ix: byte, d5: nat, d6: nat, d5': nat, d6': nat)
    requires e.Valid()
    requires var gr := e.group; VerifyCommitment(e, gr.Gen(u), gr.Gen(t), d5, d6, gr.Gen(pc), gr.Gen(qc), cp, ix)
    ensures var gr := e.group;
            VerifyCommitment(e, gr.Gen(u), gr.Gen(t), d5', d6', gr.Gen(pc), gr.Gen(qc), cp, ix)
            <==> Passes(e, ix, SameAnswers(gr.q, u, t, d5, d6, d5', d6'),
                        CommitmentHashed(gr, gr.Gen(u), gr.Gen(t), gr.Gen(pc), gr.Gen(qc), cp, d5, d6),
                        CommitmentHashed(gr, gr.Gen(u), gr.Gen(t), gr.Gen(pc), gr.Gen(qc), cp, d5', d6'))
  {
    hide Group.Gen, Group.Exp, MulMod, Challenge, Collide, IsPrime, SameAnswers;
    var gr := e.group;
    CommitmentHashedOnce(gr, u, t, pc, qc, cp, d5, d6, d5', d6');
    SameChallenge(e, ix, CommitmentHashed(gr, gr.Gen(u), gr.Gen(t), gr.Gen(pc), gr.Gen(qc), cp, d5, d6),
                  CommitmentHashed(gr, gr.Gen(u), gr.Gen(t), gr.Gen(pc), gr.Gen(qc), cp, d5', d6'));
  }

  lemma EqualLogsBinding(e: Env, g3x: int, w: int, rx: nat, cr: nat, ix: byte, d7: nat, d7': nat)
    requires e.Valid() && VerifyEqualLogs(e, cr, e.group.Gen(g3x), d7, e.group.Gen(w), rx, ix)
    ensures var gr := e.group;
            VerifyEqualLogs(e, cr, gr.Gen(g3x), d7', gr.Gen(w), rx, ix)
            <==> Passes(e, ix, d7 % gr.q == d7' % gr.q,
                        EqualLogsHashed(gr, gr.Gen(g3x), gr.Gen(w), rx, cr, d7), EqualLogsHashed(gr, gr.Gen(g3x), gr.Gen(w), rx, cr, d7'))
  {
    hide Group.Gen, Group.Exp, MulMod, Challenge, Collide, IsPrime;
    var gr := e.group;
    EqualLogsHashedOnce(gr, g3x, w, rx, cr, d7, d7');
    SameChallenge(e, ix, EqualLogsHashed(gr, gr.Gen(g3x), gr.Gen(w), rx, cr, d7), EqualLogsHashed(gr, gr.Gen(g3x), gr.Gen(w), rx, cr, d7'));
  }

  // ------------------------------------------------------------ what two answers give away

  ghost predicate Differ(gr: Group, c: nat, c': nat)
    requires gr.q > 0
  {
    c % gr.q != c' % gr.q
  }

  /** An inverse of the difference of two challenges. */
  ghost function DifferenceInverse(gr: Group, c: nat, c': nat): (w: nat)
    requires gr.Valid() && Differ(gr, c, c')
    ensures Cong((c' - c) * w, 1, gr.q)
  {
    DifferenceInvertible(gr, c, c');
    ModInverse((c' - c) % gr.q, gr.q).value
  }

  lemma DifferenceInvertible(gr: Group, c: nat, c': nat)
    requires gr.Valid() && Differ(gr, c, c')
    ensures gr.q > 1 && ModInverse((c' - c) % gr.q, gr.q).Some?
    ensures Cong((c' - c) * ModInverse((c' - c) % gr.q, gr.q).value, 1, gr.q)
  {
    SafePrimeSize(gr);
    var q, r := gr.q, (c' - c) % gr.q;
    CongIffSameMod(c', c, q);
    ModUnique(r, q, 0, r);
    PrimeInverse(r, q);
    var w := ModInverse(r, q).value;
    hide IsPrime, ModInverse;
    CongMod(c' - c, q);
    CongScale(w, c' - c, r, q);
    CongMod(r * w, q);
    Commutes(w, c' - c);
    Commutes(w, r);
    CongTrans((c' - c) * w, r * w, 1, q);
  }

  lemma Commutes(a: int, b: int)
    ensures a * b == b * a
  {
  }

  /** The quotient of the differences, modulo q: computed from two answers and their challenges. */
  ghost function Extracted(gr: Group, c: nat, c': nat, d: nat, d': nat): nat
    requires gr.Valid() && Differ(gr, c, c')
  {
    (DifferenceInverse(gr, c, c') * (d - d')) % gr.q
  }

  lemma ExtractedCong(gr: Group, c: nat, c': nat, d: nat, d': nat)
    requires gr.Valid() && Differ(gr, c, c')
    ensures Cong(DifferenceInverse(gr, c, c') * (d - d'), Extracted(gr, c, c', d, d'), gr.q)
  {
    hide Cong, DifferenceInverse, IsPrime;
    CongMod(DifferenceInverse(gr, c, c') * (d - d'), gr.q);
  }

  /** An exponent k that occurs with two multipliers is the quotient of the rest. */
  lemma Solves(gr: Group, k: int, c: nat, c': nat, a: int, a': int)
    requires gr.Valid() && Differ(gr, c, c') && Cong(a + k * c, a' + k * c', gr.q)
    ensures Cong(k, DifferenceInverse(gr, c, c') * (a - a'), gr.q)
  {
    hide *;
    var q, w, n := gr.q, DifferenceInverse(gr, c, c'), c' - c;
    PositiveQ(gr);
    Rearranged(k, c, c', a, a', q);
    CongScale(w, k * n, a - a', q);
    CongScale(k, n * w, 1, q);
    Reordered(k, n, w);
    CongFlip(w * (k * n), k, q);
    CongTrans(k, w * (k * n), w * (a - a'), q);
  }

  lemma PositiveQ(gr: Group)
    requires gr.Valid()
    ensures gr.q > 0
  {
  }

  lemma Reordered(k: int, n: int, w: int)
    ensures k * (n * w) == w * (k * n) && k * 1 == k
  {
  }

  lemma CongFlip(a: int, b: int, q: nat)
    requires q > 0 && Cong(a, b, q)
    ensures Cong(b, a, q)
  {
    CongIffSameMod(a, b, q);
    CongIffSameMod(b, a, q);
  }

  lemma Rearranged(k: int, c: int, c': int, a: int, a': int, q: nat)
    requires q > 0 && Cong(a + k * c, a' + k * c', q)
    ensures Cong(k * (c' - c), a - a', q)
  {
    var n := CongMultiple(a + k * c, a' + k * c', q);
    assert k * (c' - c) == k * c' - k * c;
    assert (-n) * q == -(n * q);
    CongFromMultiple(k * (c' - c), a - a', -n, q);
  }

  lemma GenReduced(gr: Group, k: int, x: nat)
    requires gr.Valid() && Cong(k, x, gr.q)
    ensures gr.Gen(k) == gr.Exp(G1, x)
  {
    hide Group.Gen, Group.Exp;
    GenCong(gr, k, x);
    GenPower(gr, x);
  }

  /** Two answers to two challenges for one commitment give the exponent. */
  lemma ZkpExtracts(gr: Group, k: int, c: nat, c': nat, d: nat, d': nat)
    requires gr.Valid() && Differ(gr, c, c') && ZkpHashed(gr, gr.Gen(k), c, d) == ZkpHashed(gr, gr.Gen(k), c', d')
    ensures gr.Gen(k) == gr.Exp(G1, Extracted(gr, c, c', d, d'))
  {
    hide Group.Gen, Group.Exp, MulMod, Cong, Extracted, DifferenceInverse, IsPrime, Differ;
    assert ZkpHashed(gr, gr.Gen(k), c, d)[0] == ZkpHashed(gr, gr.Gen(k), c', d')[0];
    GenPower(gr, d);
    GenPower(gr, d');
    GenExp(gr, k, c);
    GenExp(gr, k, c');
    GenAdd(gr, d, k * c);
    GenAdd(gr, d', k * c');
    GenEqual(gr, d + k * c, d' + k * c');
    Solves(gr, k, c, c', d, d');
    ExtractedCong(gr, c, c', d, d');
    CongTrans(k, DifferenceInverse(gr, c, c') * (d - d'), Extracted(gr, c, c', d, d'), gr.q);
    GenReduced(gr, k, Extracted(gr, c, c', d, d'));
  }

  /** The same for a commitment: they give the one exponent of P and the two of Q, so P and Q are built
      from the generators as a commitment is. */
  lemma CommitmentExtracts(gr: Group, u: int, t: int, pc: int, qc: int, cp: nat, cp': nat, d5: nat, d6: nat, d5': nat, d6': nat)
    requires gr.Valid() && Differ(gr, cp, cp')
    requires CommitmentHashed(gr, gr.Gen(u), gr.Gen(t), gr.Gen(pc), gr.Gen(qc), cp, d5, d6)
             == CommitmentHashed(gr, gr.Gen(u), gr.Gen(t), gr.Gen(pc), gr.Gen(qc), cp', d5', d6')
    ensures var r, y := Extracted(gr, cp, cp', d5, d5'), Extracted(gr, cp, cp', d6, d6');
            && gr.Gen(pc) == gr.Exp(gr.Gen(t), r)
            && gr.Gen(qc) == MulMod(gr.Exp(G1, r), gr.Exp(gr.Gen(u), y), gr.p)
  {
    hide Group.Gen, Group.Exp, MulMod, Cong, Extracted, CommitmentHashed, Differ, IsPrime;
    var r, y := Extracted(gr, cp, cp', d5, d5'), Extracted(gr, cp, cp', d6, d6');
    var vs := CommitmentHashed(gr, gr.Gen(u), gr.Gen(t), gr.Gen(pc), gr.Gen(qc), cp, d5, d6);
    CommitmentHashedIs(gr, u, t, pc, qc, cp, d5, d6);
    CommitmentHashedIs(gr, u, t, pc, qc, cp', d5', d6');
    assert vs[0] == gr.Gen(t * d5' + pc * cp') && vs[1] == gr.Gen(d5' + u * d6' + qc * cp');
    GenEqual(gr, t * d5 + pc * cp, t * d5' + pc * cp');
    GenEqual(gr, d5 + u * d6 + qc * cp, d5' + u * d6' + qc * cp');
    FirstExponent(gr, t, pc, cp, cp', d5, d5');
    SecondExponent(gr, u, qc, cp, cp', d5, d6, d5', d6');
    GenCong(gr, pc, t * r);
    GenExp(gr, t, r);
    GenCong(gr, qc, r + u * y);
    GenPower(gr, r);
    GenExp(gr, u, y);
    GenAdd(gr, r, u * y);
  }

  lemma FirstExponent(gr: Group, t: int, pc: int, cp: nat, cp': nat, d5: nat, d5': nat)
    requires gr.Valid() && Differ(gr, cp, cp') && Cong(t * d5 + pc * cp, t * d5' + pc * cp', gr.q)
    ensures Cong(pc, t * Extracted(gr, cp, cp', d5, d5'), gr.q)
  {
    hide *;
    PositiveQ(gr);
    var w, r := DifferenceInverse(gr, cp, cp'), Extracted(gr, cp, cp', d5, d5');
    Solves(gr, pc, cp, cp', t * d5, t * d5');
    ExtractedCong(gr, cp, cp', d5, d5');
    CongScale(t, w * (d5 - d5'), r, gr.q);
    Scaled(w, t, d5, d5');
    CongTrans(pc, t * (w * (d5 - d5')), t * r, gr.q);
  }

  lemma Scaled(w: int, t: int, d: int, d': int)
    ensures w * (t * d - t * d') == t * (w * (d - d'))
  {
    assert t * d - t * d' == t * (d - d');
    Reordered(t, d - d', w);
    Commutes(w, d - d');
    Commutes(w, t * (d - d'));
  }

  lemma SecondExponent(gr: Group, u: int, qc: int, cp: nat, cp': nat, d5: nat, d6: nat, d5': nat, d6': nat)
    requires gr.Valid() && Differ(gr, cp, cp') && Cong(d5 + u * d6 + qc * cp, d5' + u * d6' + qc * cp', gr.q)
    ensures Cong(qc, Extracted(gr, cp, cp', d5, d5') + u * Extracted(gr, cp, cp', d6, d6'), gr.q)
  {
    hide *;
    PositiveQ(gr);
    var q, w, r, y := gr.q, DifferenceInverse(gr, cp, cp'), Extracted(gr, cp, cp', d5, d5'), Extracted(gr, cp, cp', d6, d6');
    Solves(gr, qc, cp, cp', d5 + u * d6, d5' + u * d6');
    ExtractedCong(gr, cp, cp', d5, d5');
    ExtractedCong(gr, cp, cp', d6, d6');
    CongScale(u, w * (d6 - d6'), y, q);
    CongAdd(w * (d5 - d5'), r, u * (w * (d6 - d6')), u * y, q);
    Distributed(w, u, d5, d6, d5', d6');
    CongTrans(qc, w * (d5 - d5') + u * (w * (d6 - d6')), r + u * y, q);
  }

  lemma Distributed(w: int, u: int, d5: int, d6: int, d5': int, d6': int)
    ensures w * ((d5 + u * d6) - (d5' + u * d6')) == w * (d5 - d5') + u * (w * (d6 - d6'))
  {
    Scaled(w, u, d6, d6');
    assert (d5 + u * d6) - (d5' + u * d6') == (d5 - d5') + (u * d6 - u * d6');
    assert w * ((d5 - d5') + (u * d6 - u * d6')) == w * (d5 - d5') + w * (u * d6 - u * d6');
  }

  /** And for equal logarithms: one exponent for both pairs, so they really are equal. */
  lemma EqualLogsExtracts(gr: Group, k: int, w: int, v: int, cr: nat, cr': nat, d7: nat, d7': nat)
    requires gr.Valid() && Differ(gr, cr, cr')
    requires EqualLogsHashed(gr, gr.Gen(k), gr.Gen(w), gr.Gen(v), cr, d7) == EqualLogsHashed(gr, gr.Gen(k), gr.Gen(w), gr.Gen(v), cr', d7')
    ensures var x := Extracted(gr, cr, cr', d7, d7');
            gr.Gen(k) == gr.Exp(G1, x) && gr.Gen(v) == gr.Exp(gr.Gen(w), x)
  {
    hide Group.Gen, Group.Exp, MulMod, Cong, Extracted, Differ, IsPrime;
    var x := Extracted(gr, cr, cr', d7, d7');
    var vs, ws := EqualLogsHashed(gr, gr.Gen(k), gr.Gen(w), gr.Gen(v), cr, d7), EqualLogsHashed(gr, gr.Gen(k), gr.Gen(w), gr.Gen(v), cr', d7');
    assert vs[0] == ws[0] && vs[1] == ws[1];
    ZkpExtracts(gr, k, cr, cr', d7, d7');
    GenExp(gr, w, d7);
    GenExp(gr, w, d7');
    GenExp(gr, v, cr);
    GenExp(gr, v, cr');
    GenAdd(gr, w * d7, v * cr);
    GenAdd(gr, w * d7', v * cr');
    GenEqual(gr, w * d7 + v * cr, w * d7' + v * cr');
    FirstExponent(gr, w, v, cr, cr', d7, d7');
    GenCong(gr, v, w * x);
    GenExp(gr, w, x);
  }

  // ------------------------------------------------------------ honest messages with other answers

  /** What other answers must meet for each proof, seen from the honest message. */
  ghost predicate ZkpSwaps(e: Env, ix: byte, gen: nat, c: nat, d: nat, d': nat)
    requires e.Valid()
  {
    Passes(e, ix, d % e.group.q == d' % e.group.q, ZkpHashed(e.group, gen, c, d), ZkpHashed(e.group, gen, c, d'))
  }

  ghost predicate CommitmentSwaps(e: Env, ix: byte, u: int, t: int, pc: nat, qc: nat, cp: nat, d5: nat, d6: nat, d5': nat, d6': nat)
    requires e.Valid()
  {
    var g2, g3 := e.group.Gen(u), e.group.Gen(t);
    Passes(e, ix, SameAnswers(e.group.q, u, t, d5, d6, d5', d6'),
           CommitmentHashed(e.group, g2, g3, pc, qc, cp, d5, d6), CommitmentHashed(e.group, g2, g3, pc, qc, cp, d5', d6'))
  }

  ghost predicate EqualLogsSwaps(e: Env, ix: byte, g3x: nat, qaqb: nat, rx: nat, cr: nat, d7: nat, d7': nat)
    requires e.Valid()
  {
    Passes(e, ix, d7 % e.group.q == d7' % e.group.q,
           EqualLogsHashed(e.group, g3x, qaqb, rx, cr, d7), EqualLogsHashed(e.group, g3x, qaqb, rx, cr, d7'))
  }

  /** With other answers an honest first message is accepted exactly if it was before and each of
      them is the same modulo q or collides with the honest one. */
  lemma Message1Binds(e: Env, run: Run, d2: nat, d3: nat)
    requires e.Valid()
    ensures var m := RunState1(e, run).msg;
            VerifySmp1(e, m.(d2 := d2, d3 := d3))
            <==> VerifySmp1(e, m) && ZkpSwaps(e, 1, m.g2a, m.c2, m.d2, d2) && ZkpSwaps(e, 2, m.g3a, m.c3, m.d3, d3)
  {
    var m := RunState1(e, run).msg;
    ZkpComplete(e, run.a.r2, run.a.a2, 1);
    ZkpComplete(e, run.a.r3, run.a.a3, 2);
    GenPower(e.group, run.a.a2);
    GenPower(e.group, run.a.a3);
    hide Group.Gen, Group.Exp, VerifyZkp, Challenge, ProofResponse, Passes, ZkpHashed;
    ZkpBinding(e, run.a.a2, m.c2, 1, m.d2, d2);
    ZkpBinding(e, run.a.a3, m.c3, 2, m.d3, d3);
  }

  /** The two sides' generators have the exponents U and T of the run; they may be trivial, which
      version 2 does not notice. */
  lemma Message2Binds(e: Env, run: Run, d2: nat, d3: nat, d5: nat, d6: nat)
    requires e.Valid()
    ensures var s1, s2 := RunState1(e, run), RunState2(e, run); var m := s2.msg;
            VerifySmp2(e, s1, m.(d2 := d2, d3 := d3, d5 := d5, d6 := d6))
            <==> && VerifySmp2(e, s1, m) && ZkpSwaps(e, 3, m.g2b, m.c2, m.d2, d2) && ZkpSwaps(e, 4, m.g3b, m.c3, m.d3, d3)
                 && CommitmentSwaps(e, 5, run.U(), run.T(), m.pb, m.qb, m.cp, m.d5, m.d6, d5, d6)
  {
    hide Group.Gen, Group.Exp, VerifyZkp, VerifyCommitment, Challenge, ProofResponse, Passes, MulMod, RunState1, RunState2, Run.U, Run.T;
    hide ZkpHashed, CommitmentHashed, SameAnswers;
    var m := RunState2(e, run).msg;
    SecondProofs(e, run);
    HonestSecond(e, run);
    ZkpBinding(e, run.b.b2, m.c2, 3, m.d2, d2);
    ZkpBinding(e, run.b.b3, m.c3, 4, m.d3, d3);
    CommitmentBinding(e, run.U(), run.T(), run.T() * run.b.r4, run.b.r4 + run.U() * run.y, m.cp, 5, m.d5, m.d6, d5, d6);
  }

  lemma SecondProofs(e: Env, run: Run)
    requires e.Valid()
    ensures var gr, s1, m := e.group, RunState1(e, run), RunState2(e, run).msg;
            && m.g2b == gr.Gen(run.b.b2) && m.g3b == gr.Gen(run.b.b3)
            && VerifyZkp(e, m.d2, m.g2b, m.c2, 3) && VerifyZkp(e, m.d3, m.g3b, m.c3, 4)
            && gr.Exp(m.g2b, s1.rnd.a2) == gr.Gen(run.U()) && gr.Exp(m.g3b, s1.rnd.a3) == gr.Gen(run.T())
            && m.pb == gr.Gen(run.T() * run.b.r4) && m.qb == gr.Gen(run.b.r4 + run.U() * run.y)
            && VerifyCommitment(e, gr.Gen(run.U()), gr.Gen(run.T()), m.d5, m.d6, m.pb, m.qb, m.cp, 5)
  {
    hide Group.Gen, Group.Exp, MulMod, Challenge, ProofResponse, VerifyZkp, VerifyCommitment, Run.U, Run.T;
    var gr := e.group;
    HonestSecond(e, run);
    GenPower(gr, run.b.b2);
    GenPower(gr, run.b.b3);
    ZkpComplete(e, run.b.r2, run.b.b2, 3);
    ZkpComplete(e, run.b.r3, run.b.b3, 4);
    SharedGenerator(gr, run.b.b2, run.a.a2);
    SharedGenerator(gr, run.b.b3, run.a.a3);
    Commuted(run);
    CommitmentComplete(e, run.T(), run.U(), run.b.r4, run.y, run.b.r5, run.b.r6, 5);
  }

  lemma Message3Binds(e: Env, run: Run, d5: nat, d6: nat, d7: nat)
    requires e.Valid()
    ensures var s2, s3 := RunState2(e, run), RunState3(e, run); var m := s3.msg;
            VerifySmp3(e, s2, m.(d5 := d5, d6 := d6, d7 := d7)) == Some(true)
            <==> && VerifySmp3(e, s2, m) == Some(true)
                 && CommitmentSwaps(e, 6, run.U(), run.T(), m.pa, m.qa, m.cp, m.d5, m.d6, d5, d6)
                 && EqualLogsSwaps(e, 7, s2.g3a, s3.qaqb, m.ra, m.cr, m.d7, d7)
  {
    hide Group.Gen, Group.Exp, VerifyCommitment, VerifyEqualLogs, Challenge, ProofResponse, Passes, MulMod, DivMod, Run.U, Run.T, Run.W;
    hide CommitmentHashed, EqualLogsHashed, SameAnswers;
    var gr, m := e.group, RunState3(e, run).msg;
    HonestSecond(e, run);
    HonestThird(e, run);
    ThirdProofs(e, run);
    QuotientExponents(gr, run);
    GenPower(gr, run.a.a3);
    CommitmentBinding(e, run.U(), run.T(), run.T() * run.c.r4, run.c.r4 + run.U() * run.x, m.cp, 6, m.d5, m.d6, d5, d6);
    EqualLogsBinding(e, run.a.a3, run.W(), m.ra, m.cr, 7, m.d7, d7);
  }

  lemma Message4Binds(e: Env, run: Run, d7: nat)
    requires e.Valid()
    ensures var s3, m := RunState3(e, run), RunMsg4(e, run);
            VerifySmp4(e, s3, m.(d7 := d7)) <==> VerifySmp4(e, s3, m) && EqualLogsSwaps(e, 8, s3.g3b, s3.qaqb, m.rb, m.cr, m.d7, d7)
  {
    hide Group.Gen, Group.Exp, VerifyEqualLogs, Challenge, ProofResponse, Passes, MulMod, DivMod, Run.U, Run.T, Run.W, EqualLogsHashed;
    var gr, m := e.group, RunMsg4(e, run);
    HonestSecond(e, run);
    HonestThird(e, run);
    HonestFourth(e, run);
    QuotientExponents(gr, run);
    EqualLogsComplete(e, run.W(), run.b.b3, run.r7, 8);
    GenPower(gr, run.b.b3);
    EqualLogsBinding(e, run.b.b3, run.W(), m.rb, m.cr, 8, m.d7, d7);
  }
}
