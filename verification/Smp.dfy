/** The four messages of the Socialist Millionaires' Protocol: generation and verification
    (smp.go, smp_msg1.go to smp_msg4.go), and what an honest exchange decides. */
module Smp {
  import opened Wire
  import opened ModArith
  import opened DhGroup
  import opened Crypto

  datatype Env = Env(crypto: Primitives, group: Group, version: Version) {
    ghost predicate Valid() {
      crypto.Valid() && group.Valid()
    }

    /** Only version 3 checks received group elements. */
    predicate AcceptsElement(n: nat) {
      version.V2? || group.IsGroupElement(n)
    }
  }

  // ------------------------------------------------------------ messages and state

  datatype Msg1 = Msg1(g2a: nat, g3a: nat, c2: nat, c3: nat, d2: nat, d3: nat, question: Option<bytes>)
  datatype Msg2 = Msg2(g2b: nat, g3b: nat, c2: nat, c3: nat, d2: nat, d3: nat,
                       pb: nat, qb: nat, cp: nat, d5: nat, d6: nat)
  datatype Msg3 = Msg3(pa: nat, qa: nat, cp: nat, d5: nat, d6: nat, d7: nat, ra: nat, cr: nat)
  datatype Msg4 = Msg4(cr: nat, d7: nat, rb: nat)

  /** The exponents drawn from the random stream for each message. */
  datatype Rand1 = Rand1(a2: nat, a3: nat, r2: nat, r3: nat)
  datatype Rand2 = Rand2(b2: nat, b3: nat, r2: nat, r3: nat, r4: nat, r5: nat, r6: nat)
  datatype Rand3 = Rand3(r4: nat, r5: nat, r6: nat, r7: nat)

  datatype State1 = State1(rnd: Rand1, msg: Msg1)
  datatype State2 = State2(y: nat, rnd: Rand2, g3a: nat, g2: nat, g3: nat, pb: nat, qb: nat, msg: Msg2)
  datatype State3 = State3(x: nat, rnd: Rand3, g3b: nat, qaqb: nat, papb: nat, msg: Msg3)

  // ------------------------------------------------------------ proofs of knowledge

  /** hashMPIsBN */
  function Challenge(c: Primitives, ix: byte, vs: seq<nat>): nat {
    FromBytes(c.sha256([ix] + Mpis(vs)))
  }

  /** A challenge is, byte for byte, the hash of its index and its numbers, so two challenges agree
      exactly when the two hashes do. */
  lemma ChallengesAgree(c: Primitives, ix: byte, vs: seq<nat>, jx: byte, ws: seq<nat>)
    requires c.Valid()
    ensures BigEndian(Challenge(c, ix, vs), HASH2_LENGTH) == c.sha256([ix] + Mpis(vs))
    ensures Challenge(c, ix, vs) == Challenge(c, jx, ws) <==> c.sha256([ix] + Mpis(vs)) == c.sha256([jx] + Mpis(ws))
  {
    hide Mpis;
    FromBytesRoundTrip(c.sha256([ix] + Mpis(vs)));
    FromBytesInjective(c.sha256([ix] + Mpis(vs)), c.sha256([jx] + Mpis(ws)));
  }

  /** Different indices or numbers are different texts to hash. */
  lemma ChallengeTexts(ix: byte, vs: seq<nat>, jx: byte, ws: seq<nat>)
    requires (forall v <- vs :: FitsMpi(v)) && (forall w <- ws :: FitsMpi(w))
    ensures [ix] + Mpis(vs) == [jx] + Mpis(ws) <==> ix == jx && vs == ws
  {
    hide Mpis, FitsMpi;
    MpisInjective(vs, ws);
    assert ([ix] + Mpis(vs))[0] == ix && ([jx] + Mpis(ws))[0] == jx;
    assert ([ix] + Mpis(vs))[1..] == Mpis(vs) && ([jx] + Mpis(ws))[1..] == Mpis(ws);
  }

  function ProofResponse(gr: Group, r: nat, a: nat, c: nat): nat
    requires gr.q > 0
  {
    SubMod(r, a * c, gr.q)
  }

  predicate VerifyZkp(e: Env, d: nat, gen: nat, c: nat, ix: byte)
    requires e.group.p > 0
  {
    var gr := e.group;
    c == Challenge(e.crypto, ix, [MulMod(gr.Exp(G1, d), gr.Exp(gen, c), gr.p)])
  }

  /** verifyZKP2 and verifyZKP3, which compute the same check. */
  predicate VerifyCommitment(e: Env, g2: nat, g3: nat, d5: nat, d6: nat, pc: nat, qc: nat, cp: nat, ix: byte)
    requires e.group.p > 0
  {
    var gr := e.group;
    cp == Challenge(e.crypto, ix,
                    [MulMod(gr.Exp(g3, d5), gr.Exp(pc, cp), gr.p),
                     MulMod(gr.Exp(G1, d5) * gr.Exp(g2, d6), gr.Exp(qc, cp), gr.p)])
  }

  /** verifyZKP4 */
  predicate VerifyEqualLogs(e: Env, cr: nat, g3x: nat, d7: nat, qaqb: nat, rx: nat, ix: byte)
    requires e.group.p > 0
  {
    var gr := e.group;
    cr == Challenge(e.crypto, ix,
                    [MulMod(gr.Exp(G1, d7), gr.Exp(g3x, cr), gr.p),
                     MulMod(gr.Exp(qaqb, d7), gr.Exp(rx, cr), gr.p)])
  }

  // ------------------------------------------------------------ generation

  function GenerateSmp1(e: Env, rnd: Rand1, question: Option<bytes>): State1
    requires e.group.p > 0 && e.group.q > 0
  {
    var gr := e.group;
    var c2 := Challenge(e.crypto, 1, [gr.Exp(G1, rnd.r2)]);
    var c3 := Challenge(e.crypto, 2, [gr.Exp(G1, rnd.r3)]);
    State1(rnd, Msg1(gr.Exp(G1, rnd.a2), gr.Exp(G1, rnd.a3), c2, c3,
                     ProofResponse(gr, rnd.r2, rnd.a2, c2), ProofResponse(gr, rnd.r3, rnd.a3, c3), question))
  }

  function GenerateSmp2(e: Env, rnd: Rand2, y: nat, m1: Msg1): State2
    requires e.group.p > 0 && e.group.q > 0
  {
    var gr := e.group;
    var c2 := Challenge(e.crypto, 3, [gr.Exp(G1, rnd.r2)]);
    var c3 := Challenge(e.crypto, 4, [gr.Exp(G1, rnd.r3)]);
    var g2, g3 := gr.Exp(m1.g2a, rnd.b2), gr.Exp(m1.g3a, rnd.b3);
    var pb, qb := gr.Exp(g3, rnd.r4), MulMod(gr.Exp(G1, rnd.r4), gr.Exp(g2, y), gr.p);
    var cp := Challenge(e.crypto, 5, [gr.Exp(g3, rnd.r5), MulMod(gr.Exp(G1, rnd.r5), gr.Exp(g2, rnd.r6), gr.p)]);
    State2(y, rnd, m1.g3a, g2, g3, pb, qb,
           Msg2(gr.Exp(G1, rnd.b2), gr.Exp(G1, rnd.b3), c2, c3,
                ProofResponse(gr, rnd.r2, rnd.b2, c2), ProofResponse(gr, rnd.r3, rnd.b3, c3),
                pb, qb, cp, ProofResponse(gr, rnd.r5, rnd.r4, cp), ProofResponse(gr, rnd.r6, y, cp)))
  }

  /** None when a division meets a number without an inverse. */
  function GenerateSmp3(e: Env, rnd: Rand3, x: nat, s1: State1, m2: Msg2): Option<State3>
    requires e.group.p > 1 && e.group.q > 0
  {
    var gr := e.group;
    var g2, g3 := gr.Exp(m2.g2b, s1.rnd.a2), gr.Exp(m2.g3b, s1.rnd.a3);
    var pa, qa := gr.Exp(g3, rnd.r4), MulMod(gr.Exp(G1, rnd.r4), gr.Exp(g2, x), gr.p);
    var qaqb, papb := DivMod(qa, m2.qb, gr.p), DivMod(pa, m2.pb, gr.p);
    if qaqb.None? || papb.None? then None else
    var cp := Challenge(e.crypto, 6, [gr.Exp(g3, rnd.r5), MulMod(gr.Exp(G1, rnd.r5), gr.Exp(g2, rnd.r6), gr.p)]);
    var cr := Challenge(e.crypto, 7, [gr.Exp(G1, rnd.r7), gr.Exp(qaqb.value, rnd.r7)]);
    Some(State3(x, rnd, m2.g3b, qaqb.value, papb.value,
                Msg3(pa, qa, cp, ProofResponse(gr, rnd.r5, rnd.r4, cp), ProofResponse(gr, rnd.r6, x, cp),
                     ProofResponse(gr, rnd.r7, s1.rnd.a3, cr), gr.Exp(qaqb.value, s1.rnd.a3), cr)))
  }

  function GenerateSmp4(e: Env, r7: nat, s2: State2, m3: Msg3): Option<Msg4>
    requires e.group.p > 1 && e.group.q > 0
  {
    var gr := e.group;
    match DivMod(m3.qa, s2.qb, gr.p)
    case None => None
    case Some(qaqb) =>
      var cr := Challenge(e.crypto, 8, [gr.Exp(G1, r7), gr.Exp(qaqb, r7)]);
      Some(Msg4(cr, ProofResponse(gr, r7, s2.rnd.b3, cr), gr.Exp(qaqb, s2.rnd.b3)))
  }

  // ------------------------------------------------------------ verification

  predicate VerifySmp1(e: Env, m: Msg1)
    requires e.group.p > 0
  {
    && e.AcceptsElement(m.g2a) && e.AcceptsElement(m.g3a)
    && VerifyZkp(e, m.d2, m.g2a, m.c2, 1)
    && VerifyZkp(e, m.d3, m.g3a, m.c3, 2)
  }

  predicate VerifySmp2(e: Env, s1: State1, m: Msg2)
    requires e.group.p > 0
  {
    && e.AcceptsElement(m.g2b) && e.AcceptsElement(m.g3b) && e.AcceptsElement(m.pb) && e.AcceptsElement(m.qb)
    && VerifyZkp(e, m.d2, m.g2b, m.c2, 3)
    && VerifyZkp(e, m.d3, m.g3b, m.c3, 4)
    && VerifyCommitment(e, e.group.Exp(m.g2b, s1.rnd.a2), e.group.Exp(m.g3b, s1.rnd.a3),
                        m.d5, m.d6, m.pb, m.qb, m.cp, 5)
  }

  /** None when the division by our own Qb is undefined. */
  function VerifySmp3(e: Env, s2: State2, m: Msg3): Option<bool>
    requires e.group.p > 1
  {
    if !(e.AcceptsElement(m.pa) && e.AcceptsElement(m.qa) && e.AcceptsElement(m.ra)
         && VerifyCommitment(e, s2.g2, s2.g3, m.d5, m.d6, m.pa, m.qa, m.cp, 6)) then Some(false) else
    match DivMod(m.qa, s2.qb, e.group.p)
    case None => None
    case Some(qaqb) => Some(VerifyEqualLogs(e, m.cr, s2.g3a, m.d7, qaqb, m.ra, 7))
  }

  predicate VerifySmp4(e: Env, s3: State3, m: Msg4)
    requires e.group.p > 0
  {
    e.AcceptsElement(m.rb) && VerifyEqualLogs(e, m.cr, s3.g3b, m.d7, s3.qaqb, m.rb, 8)
  }

  /** verifySMP3ProtocolSuccess: the responder's verdict. */
  function ResponderVerdict(e: Env, s2: State2, m: Msg3): Option<bool>
    requires e.group.p > 1
  {
    match DivMod(m.pa, s2.pb, e.group.p)
    case None => None
    case Some(papb) => Some(e.group.Exp(m.ra, s2.rnd.b3) == papb)
  }

  /** verifySMP4ProtocolSuccess: the initiator's verdict. */
  predicate InitiatorVerdict(e: Env, s1: State1, s3: State3, m: Msg4)
    requires e.group.p > 0
  {
    e.group.Exp(m.rb, s1.rnd.a3) == s3.papb
  }

  // ------------------------------------------------------------ completeness of the proofs

  lemma GenAdd3(gr: Group, a: int, b: int, c: int)
    requires gr.Valid()
    ensures MulMod(gr.Gen(a) * gr.Gen(b), gr.Gen(c), gr.p) == gr.Gen(a + b + c)
  {
    GenAdd(gr, a, b);
    MulModReduce(gr.Gen(a) * gr.Gen(b), gr.Gen(c), gr.p);
    GenAdd(gr, a + b, c);
  }

  /** An answer to a challenge, d = r - ac, satisfies d + ac = r in the exponent, scaled by any t. */
  lemma ResponseCong(gr: Group, t: int, r: nat, a: nat, c: nat)
    requires gr.Valid()
    ensures Cong(t * ProofResponse(gr, r, a, c) + (t * a) * c, t * r, gr.q)
  {
    var d := ProofResponse(gr, r, a, c);
    CongMod(r - a * c, gr.q);
    CongScale(t, d, r - a * c, gr.q);
    CongFromMultiple((t * a) * c, (t * a) * c, 0, gr.q);
    CongAdd(t * d, t * (r - a * c), (t * a) * c, (t * a) * c, gr.q);
    assert t * (r - a * c) + (t * a) * c == t * r;
  }

  lemma ZkpComplete(e: Env, r: nat, a: nat, ix: byte)
    requires e.Valid()
    ensures var c := Challenge(e.crypto, ix, [e.group.Exp(G1, r)]);
            VerifyZkp(e, ProofResponse(e.group, r, a, c), e.group.Exp(G1, a), c, ix)
  {
    var gr := e.group;
    var c := Challenge(e.crypto, ix, [gr.Exp(G1, r)]);
    var d := ProofResponse(gr, r, a, c);
    GenPower(gr, d);
    GenPower(gr, a);
    GenPower(gr, r);
    GenExp(gr, a, c);
    GenAdd(gr, d, a * c);
    ResponseCong(gr, 1, r, a, c);
    GenCong(gr, d + a * c, r);
  }

  lemma CommitmentComplete(e: Env, t: int, u: int, r4: nat, y: nat, r5: nat, r6: nat, ix: byte)
    requires e.Valid()
    ensures var gr := e.group;
            var g2, g3 := gr.Gen(u), gr.Gen(t);
            var cp := Challenge(e.crypto, ix, [gr.Exp(g3, r5), MulMod(gr.Exp(G1, r5), gr.Exp(g2, r6), gr.p)]);
            VerifyCommitment(e, g2, g3, ProofResponse(gr, r5, r4, cp), ProofResponse(gr, r6, y, cp),
                             gr.Gen(t * r4), gr.Gen(r4 + u * y), cp, ix)
  {
    var gr := e.group;
    var g2, g3 := gr.Gen(u), gr.Gen(t);
    var cp := Challenge(e.crypto, ix, [gr.Exp(g3, r5), MulMod(gr.Exp(G1, r5), gr.Exp(g2, r6), gr.p)]);
    var d5, d6 := ProofResponse(gr, r5, r4, cp), ProofResponse(gr, r6, y, cp);
    CommitmentLeft(gr, t, r4, r5, cp);
    CommitmentRight(gr, u, r4, y, r5, r6, cp);
  }

  lemma CommitmentLeft(gr: Group, t: int, r4: nat, r5: nat, cp: nat)
    requires gr.Valid()
    ensures var d5 := ProofResponse(gr, r5, r4, cp);
            MulMod(gr.Exp(gr.Gen(t), d5), gr.Exp(gr.Gen(t * r4), cp), gr.p) == gr.Exp(gr.Gen(t), r5)
  {
    var d5 := ProofResponse(gr, r5, r4, cp);
    GenExp(gr, t, d5);
    GenExp(gr, t * r4, cp);
    GenExp(gr, t, r5);
    GenAdd(gr, t * d5, (t * r4) * cp);
    ResponseCong(gr, t, r5, r4, cp);
    GenCong(gr, t * d5 + (t * r4) * cp, t * r5);
  }

  lemma CommitmentRight(gr: Group, u: int, r4: nat, y: nat, r5: nat, r6: nat, cp: nat)
    requires gr.Valid()
    ensures var d5, d6 := ProofResponse(gr, r5, r4, cp), ProofResponse(gr, r6, y, cp);
            MulMod(gr.Exp(G1, d5) * gr.Exp(gr.Gen(u), d6), gr.Exp(gr.Gen(r4 + u * y), cp), gr.p)
            == MulMod(gr.Exp(G1, r5), gr.Exp(gr.Gen(u), r6), gr.p)
  {
    var d5, d6 := ProofResponse(gr, r5, r4, cp), ProofResponse(gr, r6, y, cp);
    GenPower(gr, d5);
    GenPower(gr, r5);
    GenExp(gr, u, d6);
    GenExp(gr, u, r6);
    GenExp(gr, r4 + u * y, cp);
    GenAdd3(gr, d5, u * d6, (r4 + u * y) * cp);
    GenAdd(gr, r5, u * r6);
    ResponseCong(gr, 1, r5, r4, cp);
    ResponseCong(gr, u, r6, y, cp);
    CongAdd(d5 + r4 * cp, r5, u * d6 + (u * y) * cp, u * r6, gr.q);
    assert d5 + r4 * cp + (u * d6 + (u * y) * cp) == d5 + u * d6 + (r4 + u * y) * cp;
    GenCong(gr, d5 + u * d6 + (r4 + u * y) * cp, r5 + u * r6);
  }

  lemma EqualLogsComplete(e: Env, w: int, a3: nat, r7: nat, ix: byte)
    requires e.Valid()
    ensures var gr := e.group;
            var cr := Challenge(e.crypto, ix, [gr.Exp(G1, r7), gr.Exp(gr.Gen(w), r7)]);
            VerifyEqualLogs(e, cr, gr.Exp(G1, a3), ProofResponse(gr, r7, a3, cr), gr.Gen(w), gr.Gen(w * a3), ix)
  {
    var gr := e.group;
    var cr := Challenge(e.crypto, ix, [gr.Exp(G1, r7), gr.Exp(gr.Gen(w), r7)]);
    CommitmentLeft(gr, 1, a3, r7, cr);
    CommitmentLeft(gr, w, a3, r7, cr);
    GenZeroOne(gr);
    GenPower(gr, a3);
  }

  // ------------------------------------------------------------ exponents of an honest run

  /** Everything two honest parties draw or bring: a (initiator, secret x) and b (responder, secret y). */
  datatype Run = Run(a: Rand1, b: Rand2, c: Rand3, r7: nat, x: nat, y: nat, question: Option<bytes>) {
    ghost function U(): int { a.a2 * b.b2 }
    ghost function T(): int { a.a3 * b.b3 }
    /** The exponent of Qa/Qb. */
    ghost function W(): int { (c.r4 - b.r4) + U() * (x - y) }
  }

  ghost function RunState1(e: Env, run: Run): State1
    requires e.Valid()
  {
    GenerateSmp1(e, run.a, run.question)
  }

  ghost function RunState2(e: Env, run: Run): State2
    requires e.Valid()
  {
    GenerateSmp2(e, run.b, run.y, RunState1(e, run).msg)
  }

  ghost function RunState3(e: Env, run: Run): State3
    requires e.Valid()
  {
    HonestThird(e, run);
    GenerateSmp3(e, run.c, run.x, RunState1(e, run), RunState2(e, run).msg).value
  }

  ghost function RunMsg4(e: Env, run: Run): Msg4
    requires e.Valid()
  {
    HonestFourth(e, run);
    GenerateSmp4(e, run.r7, RunState2(e, run), RunState3(e, run).msg).value
  }

  lemma SharedGenerator(gr: Group, a: nat, b: nat)
    requires gr.Valid()
    ensures gr.Exp(gr.Exp(G1, a), b) == gr.Gen(a * b)
  {
    GenPower(gr, a);
    GenExp(gr, a, b);
  }

  /** Commitments (P, Q) of a party with secret s and blinding r. */
  lemma CommitmentExponents(gr: Group, t: int, u: int, r: nat, s: nat)
    requires gr.Valid()
    ensures gr.Exp(gr.Gen(t), r) == gr.Gen(t * r)
    ensures MulMod(gr.Exp(G1, r), gr.Exp(gr.Gen(u), s), gr.p) == gr.Gen(r + u * s)
  {
    GenExp(gr, t, r);
    GenPower(gr, r);
    GenExp(gr, u, s);
    GenAdd(gr, r, u * s);
  }

  lemma Commuted(run: Run)
    ensures run.a.a2 * run.b.b2 == run.b.b2 * run.a.a2 == run.U()
    ensures run.a.a3 * run.b.b3 == run.b.b3 * run.a.a3 == run.T()
  {
  }

  lemma ProductExponents(run: Run)
    ensures (run.W() * run.a.a3) * run.b.b3 == run.W() * run.T() == (run.W() * run.b.b3) * run.a.a3
  {
  }

  /** The exponents of Qa/Qb and Pa/Pb. */
  lemma QuotientExponents(gr: Group, run: Run)
    requires gr.Valid()
    ensures DivMod(gr.Gen(run.c.r4 + run.U() * run.x), gr.Gen(run.b.r4 + run.U() * run.y), gr.p)
            == Some(gr.Gen(run.W()))
    ensures DivMod(gr.Gen(run.T() * run.c.r4), gr.Gen(run.T() * run.b.r4), gr.p)
            == Some(gr.Gen(run.T() * (run.c.r4 - run.b.r4)))
  {
    hide Group.Gen, DivMod, Run.U, Run.T;
    var t, u := run.T(), run.U();
    GenDivide(gr, run.c.r4 + u * run.x, run.b.r4 + u * run.y);
    GenDivide(gr, t * run.c.r4, t * run.b.r4);
    assert run.c.r4 + u * run.x - (run.b.r4 + u * run.y) == run.W();
    assert t * run.c.r4 - t * run.b.r4 == t * (run.c.r4 - run.b.r4);
  }

  lemma HonestSecond(e: Env, run: Run)
    requires e.Valid()
    ensures var s2 := RunState2(e, run);
            && s2.g2 == e.group.Gen(run.U()) && s2.g3 == e.group.Gen(run.T())
            && s2.pb == e.group.Gen(run.T() * run.b.r4)
            && s2.qb == e.group.Gen(run.b.r4 + run.U() * run.y)
  {
    hide Group.Gen, Group.Exp, MulMod, DivMod, SubMod, Challenge, ProofResponse;
    hide Run.U, Run.T, Run.W, VerifyZkp, VerifyCommitment, VerifyEqualLogs;
    SharedGenerator(e.group, run.a.a2, run.b.b2);
    SharedGenerator(e.group, run.a.a3, run.b.b3);
    Commuted(run);
    CommitmentExponents(e.group, run.T(), run.U(), run.b.r4, run.y);
  }

  lemma HonestThird(e: Env, run: Run)
    requires e.Valid()
    ensures var o := GenerateSmp3(e, run.c, run.x, RunState1(e, run), RunState2(e, run).msg);
            && o.Some?
            && o.value.msg.pa == e.group.Gen(run.T() * run.c.r4)
            && o.value.msg.qa == e.group.Gen(run.c.r4 + run.U() * run.x)
            && o.value.qaqb == e.group.Gen(run.W())
            && o.value.papb == e.group.Gen(run.T() * (run.c.r4 - run.b.r4))
            && o.value.msg.ra == e.group.Gen(run.W() * run.a.a3)
  {
    hide Group.Gen, Group.Exp, MulMod, DivMod, SubMod, Challenge, ProofResponse;
    hide Run.U, Run.T, Run.W, VerifyZkp, VerifyCommitment, VerifyEqualLogs;
    var gr, t, u := e.group, run.T(), run.U();
    HonestSecond(e, run);
    SharedGenerator(gr, run.b.b2, run.a.a2);
    SharedGenerator(gr, run.b.b3, run.a.a3);
    Commuted(run);
    CommitmentExponents(gr, t, u, run.c.r4, run.x);
    QuotientExponents(gr, run);
    GenExp(gr, run.W(), run.a.a3);
  }

  lemma HonestFourth(e: Env, run: Run)
    requires e.Valid()
    ensures var o := GenerateSmp4(e, run.r7, RunState2(e, run), RunState3(e, run).msg);
            && o.Some?
            && o.value.rb == e.group.Gen(run.W() * run.b.b3)
  {
    hide Group.Gen, Group.Exp, MulMod, DivMod, SubMod, Challenge, ProofResponse;
    hide Run.U, Run.T, Run.W, VerifyZkp, VerifyCommitment, VerifyEqualLogs;
    var gr, u := e.group, run.U();
    HonestSecond(e, run);
    HonestThird(e, run);
    QuotientExponents(gr, run);
    GenExp(gr, run.W(), run.b.b3);
  }

  // ------------------------------------------------------------ every honest message verifies

  lemma AcceptsGen(e: Env, k: int)
    requires e.Valid()
    ensures e.AcceptsElement(e.group.Gen(k)) <==> e.version.V2? || k % e.group.q != 0
  {
    GenIsGroupElement(e.group, k);
  }

  /** An honest first message verifies, except in version 3 with an exponent divisible by q. */
  lemma Message1Verifies(e: Env, run: Run)
    requires e.Valid()
    ensures VerifySmp1(e, RunState1(e, run).msg)
            <==> e.version.V2? || (run.a.a2 % e.group.q != 0 && run.a.a3 % e.group.q != 0)
  {
    GenPower(e.group, run.a.a2);
    GenPower(e.group, run.a.a3);
    AcceptsGen(e, run.a.a2);
    AcceptsGen(e, run.a.a3);
    ZkpComplete(e, run.a.r2, run.a.a2, 1);
    ZkpComplete(e, run.a.r3, run.a.a3, 2);
  }

  lemma Message2Verifies(e: Env, run: Run)
    requires e.Valid()
    ensures VerifySmp2(e, RunState1(e, run), RunState2(e, run).msg)
            <==> e.version.V2? || (&& run.b.b2 % e.group.q != 0 && run.b.b3 % e.group.q != 0
                                   && (run.T() * run.b.r4) % e.group.q != 0
                                   && (run.b.r4 + run.U() * run.y) % e.group.q != 0)
  {
    hide Group.Gen, Group.Exp, MulMod, DivMod, SubMod, Challenge, ProofResponse;
    hide Run.U, Run.T, Run.W, VerifyZkp, VerifyCommitment, VerifyEqualLogs;
    var gr := e.group;
    HonestSecond(e, run);
    GenPower(gr, run.b.b2);
    GenPower(gr, run.b.b3);
    AcceptsGen(e, run.b.b2);
    AcceptsGen(e, run.b.b3);
    AcceptsGen(e, run.T() * run.b.r4);
    AcceptsGen(e, run.b.r4 + run.U() * run.y);
    ZkpComplete(e, run.b.r2, run.b.b2, 3);
    ZkpComplete(e, run.b.r3, run.b.b3, 4);
    SharedGenerator(gr, run.b.b2, run.a.a2);
    SharedGenerator(gr, run.b.b3, run.a.a3);
    Commuted(run);
    CommitmentComplete(e, run.T(), run.U(), run.b.r4, run.y, run.b.r5, run.b.r6, 5);
  }

  lemma Message3Verifies(e: Env, run: Run)
    requires e.Valid()
    ensures VerifySmp3(e, RunState2(e, run), RunState3(e, run).msg).Some?
    ensures VerifySmp3(e, RunState2(e, run), RunState3(e, run).msg).value
            <==> e.version.V2? || (&& (run.T() * run.c.r4) % e.group.q != 0
                                   && (run.c.r4 + run.U() * run.x) % e.group.q != 0
                                   && (run.W() * run.a.a3) % e.group.q != 0)
  {
    hide Group.Gen, Group.Exp, MulMod, DivMod, SubMod, Challenge, ProofResponse;
    hide Run.U, Run.T, Run.W, VerifyZkp, VerifyCommitment, VerifyEqualLogs;
    var gr, t, u := e.group, run.T(), run.U();
    HonestSecond(e, run);
    HonestThird(e, run);
    AcceptsGen(e, t * run.c.r4);
    AcceptsGen(e, run.c.r4 + u * run.x);
    AcceptsGen(e, run.W() * run.a.a3);
    ThirdProofs(e, run);
    QuotientExponents(gr, run);
  }

  lemma ThirdProofs(e: Env, run: Run)
    requires e.Valid()
    ensures var s2, m := RunState2(e, run), RunState3(e, run).msg;
            && VerifyCommitment(e, s2.g2, s2.g3, m.d5, m.d6, m.pa, m.qa, m.cp, 6)
            && VerifyEqualLogs(e, m.cr, s2.g3a, m.d7, e.group.Gen(run.W()), m.ra, 7)
  {
    hide Group.Gen, Group.Exp, MulMod, DivMod, SubMod, Challenge, ProofResponse;
    hide Run.U, Run.T, Run.W, VerifyZkp, VerifyCommitment, VerifyEqualLogs;
    var gr := e.group;
    HonestSecond(e, run);
    HonestThird(e, run);
    SharedGenerator(gr, run.b.b2, run.a.a2);
    SharedGenerator(gr, run.b.b3, run.a.a3);
    Commuted(run);
    CommitmentComplete(e, run.T(), run.U(), run.c.r4, run.x, run.c.r5, run.c.r6, 6);
    EqualLogsComplete(e, run.W(), run.a.a3, run.c.r7, 7);
  }

  lemma Message4Verifies(e: Env, run: Run)
    requires e.Valid()
    ensures VerifySmp4(e, RunState3(e, run), RunMsg4(e, run))
            <==> e.version.V2? || (run.W() * run.b.b3) % e.group.q != 0
  {
    hide Group.Gen, Group.Exp, MulMod, DivMod, SubMod, Challenge, ProofResponse;
    hide Run.U, Run.T, Run.W, VerifyZkp, VerifyCommitment, VerifyEqualLogs;
    var gr, u := e.group, run.U();
    HonestSecond(e, run);
    HonestThird(e, run);
    HonestFourth(e, run);
    QuotientExponents(gr, run);
    AcceptsGen(e, run.W() * run.b.b3);
    EqualLogsComplete(e, run.W(), run.b.b3, run.r7, 8);
  }

  // ------------------------------------------------------------ what the protocol decides

  /** Both verdicts compare g^(W T) with g^(T (r - r')): they differ by the exponent T U (x - y). */
  lemma VerdictExponent(gr: Group, run: Run)
    requires gr.Valid()
    ensures gr.Gen(run.W() * run.T()) == gr.Gen(run.T() * (run.c.r4 - run.b.r4))
            <==> (run.T() * run.U() * (run.x - run.y)) % gr.q == 0
  {
    var t, u, r := run.T(), run.U(), run.c.r4 - run.b.r4;
    GenEqual(gr, run.W() * t, t * r);
    assert run.W() * t - t * r == t * u * (run.x - run.y);
  }

  /** The responder's verdict: success exactly when q divides a2 a3 b2 b3 (x - y). */
  lemma ResponderDecides(e: Env, run: Run)
    requires e.Valid()
    ensures ResponderVerdict(e, RunState2(e, run), RunState3(e, run).msg)
            == Some((run.T() * run.U() * (run.x - run.y)) % e.group.q == 0)
  {
    hide Group.Gen, Group.Exp, MulMod, DivMod, SubMod, Challenge, ProofResponse;
    hide Run.U, Run.T, Run.W, VerifyZkp, VerifyCommitment, VerifyEqualLogs;
    var gr, t := e.group, run.T();
    HonestSecond(e, run);
    HonestThird(e, run);
    QuotientExponents(gr, run);
    GenExp(gr, run.W() * run.a.a3, run.b.b3);
    ProductExponents(run);
    VerdictExponent(gr, run);
  }

  lemma InitiatorDecides(e: Env, run: Run)
    requires e.Valid()
    ensures InitiatorVerdict(e, RunState1(e, run), RunState3(e, run), RunMsg4(e, run))
            <==> (run.T() * run.U() * (run.x - run.y)) % e.group.q == 0
  {
    hide Group.Gen, Group.Exp, MulMod, DivMod, SubMod, Challenge, ProofResponse;
    hide Run.U, Run.T, Run.W, VerifyZkp, VerifyCommitment, VerifyEqualLogs;
    HonestThird(e, run);
    HonestFourth(e, run);
    GenExp(e.group, run.W() * run.b.b3, run.a.a3);
    ProductExponents(run);
    VerdictExponent(e.group, run);
  }

  /** The protocol decides equality of the secrets modulo q, and both parties reach the same
      verdict, whenever no Diffie-Hellman exponent of the run is a multiple of q. */
  lemma DecidesEquality(e: Env, run: Run)
    requires e.Valid()
    ensures ResponderVerdict(e, RunState2(e, run), RunState3(e, run).msg)
            == Some(InitiatorVerdict(e, RunState1(e, run), RunState3(e, run), RunMsg4(e, run)))
    ensures ResponderVerdict(e, RunState2(e, run), RunState3(e, run).msg).value
            <==> || run.x % e.group.q == run.y % e.group.q
                 || run.a.a2 % e.group.q == 0 || run.a.a3 % e.group.q == 0
                 || run.b.b2 % e.group.q == 0 || run.b.b3 % e.group.q == 0
  {
    hide Run.U, Run.T, ResponderVerdict, InitiatorVerdict;
    VerdictFactors(e.group, run);
    ResponderDecides(e, run);
    InitiatorDecides(e, run);
  }

  lemma VerdictFactors(gr: Group, run: Run)
    requires gr.Valid()
    ensures (run.T() * run.U() * (run.x - run.y)) % gr.q == 0
            <==> || run.x % gr.q == run.y % gr.q
                 || run.a.a2 % gr.q == 0 || run.a.a3 % gr.q == 0
                 || run.b.b2 % gr.q == 0 || run.b.b3 % gr.q == 0
  {
    hide Run.U, Run.T;
    var q, t, u := gr.q, run.T(), run.U();
    PrimeDividesProduct(t * u, run.x - run.y, q);
    PrimeDividesProduct(t, u, q);
    Commuted(run);
    PrimeDividesProduct(run.a.a2, run.b.b2, q);
    PrimeDividesProduct(run.a.a3, run.b.b3, q);
    CongIffSameMod(run.x, run.y, q);
  }
}
