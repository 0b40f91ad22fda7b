/** Properties of whole SMP runs: exactly when a step divides by a number without an inverse, and that
    success is signalled only at the end of an uninterrupted verified attempt. */
module SmpRuns {
  import opened Wire
  import opened ModArith
  import opened DhGroup
  import opened Smp
  import opened SmpMachine

  // ------------------------------------------------------------ divisions

  lemma {:induction false} ExpNonzero(gr: Group, a: nat, x: nat)
    requires gr.Valid() && 0 < a < gr.p
    ensures gr.Exp(a, x) > 0
    decreases x
  {
    if x == 0 {
      ModUnique(1, gr.p, 0, 1);
    } else {
      ExpNonzero(gr, a, x - 1);
      NonzeroInvertible(gr, 0, a);
      PrimeDividesProduct(a, Pow(a, x - 1), gr.p);
    }
  }

  /** Our own commitments to a verified first message can be divided by. */
  lemma SecondInvertible(e: Env, s2: State2, m1: Msg1, l: nat)
    requires e.Valid() && e.version.V3? && BuiltSecond(e, s2, m1)
    ensures DivMod(l, s2.qb, e.group.p).Some? && DivMod(l, s2.pb, e.group.p).Some?
  {
    hide Group.Exp, VerifyZkp, Challenge, ProofResponse, DivMod;
    var gr := e.group;
    SafePrimeSize(gr);
    ExpNonzero(gr, m1.g2a, s2.rnd.b2);
    ExpNonzero(gr, m1.g3a, s2.rnd.b3);
    ExpNonzero(gr, s2.g3, s2.rnd.r4);
    ExpNonzero(gr, G1, s2.rnd.r4);
    ExpNonzero(gr, s2.g2, s2.y);
    var u, v := gr.Exp(G1, s2.rnd.r4), gr.Exp(s2.g2, s2.y);
    NonzeroInvertible(gr, l, u);
    NonzeroInvertible(gr, l, v);
    PrimeDividesProduct(u, v, gr.p);
    NonzeroInvertible(gr, l, s2.qb);
    NonzeroInvertible(gr, l, s2.pb);
  }

  lemma NoInverse(gr: Group, l: nat, r: nat)
    requires gr.Valid()
    ensures DivMod(l, r, gr.p).None? <==> r % gr.p == 0
  {
    PrimeInverse(r, gr.p);
  }

  /** What the third message must satisfy before anything is divided. */
  ghost predicate ThirdCommitted(e: Env, s2: State2, m3: Msg3)
    requires e.Valid()
  {
    && e.AcceptsElement(m3.pa) && e.AcceptsElement(m3.qa) && e.AcceptsElement(m3.ra)
    && VerifyCommitment(e, s2.g2, s2.g3, m3.d5, m3.d6, m3.pa, m3.qa, m3.cp, 6)
  }

  /** A message that passes the checks before a division by a multiple of p. */
  ghost predicate DividesByZero(e: Env, m: Machine, input: Input)
    requires e.Valid()
  {
    var p := e.group.p;
    match input
    case Receive(Second(m2), rnd, _) =>
      && m.state == Some(Expect2) && m.s1.Some? && rnd.Some? && VerifySmp2(e, m.s1.value, m2)
      && (m2.pb % p == 0 || m2.qb % p == 0)
    case Receive(Third(m3), _, _) =>
      && m.state == Some(Expect3) && m.s2.Some? && ThirdCommitted(e, m.s2.value, m3)
      && (m.s2.value.qb % p == 0 || (VerifySmp3(e, m.s2.value, m3) == Some(true) && m.s2.value.pb % p == 0))
    case _ => false
  }

  lemma SecondPanics(e: Env, m: Machine, m2: Msg2, rnd: Option<Rand3>, r7: Option<nat>)
    requires e.Valid() && Built(e, m) && m.state == Some(Expect2)
    ensures Receive2(e, m, m2, rnd).Panics? <==> DividesByZero(e, m, Receive(Second(m2), rnd, r7))
  {
    hide VerifySmp2, Group.Exp, DivMod, Challenge, ProofResponse, BuiltFirst;
    forall l: nat
      ensures DivMod(l, m2.qb, e.group.p).None? <==> m2.qb % e.group.p == 0
      ensures DivMod(l, m2.pb, e.group.p).None? <==> m2.pb % e.group.p == 0
    {
      NoInverse(e.group, l, m2.qb);
      NoInverse(e.group, l, m2.pb);
    }
  }

  lemma ThirdPanics(e: Env, m: Machine, m3: Msg3, rnd: Option<Rand3>, r7: Option<nat>)
    requires e.Valid() && Built(e, m) && m.state == Some(Expect3)
    ensures Receive3(e, m, m3, r7).Panics? <==> DividesByZero(e, m, Receive(Third(m3), rnd, r7))
  {
    hide VerifyCommitment, VerifyEqualLogs, Group.Exp, DivMod, Challenge, ProofResponse, BuiltSecond;
    NoInverse(e.group, m3.qa, m.s2.value.qb);
    NoInverse(e.group, m3.pa, m.s2.value.pb);
  }

  /** Exactly when a step dereferences nil, in either version: an answer before the machine was ever
      used, or a message that leads to a division by a multiple of p. */
  lemma PanicsExactly(e: Env, peer: Peer, m: Machine, input: Input)
    requires e.Valid() && Built(e, m)
    ensures Step(e, peer, m, input).Panics? <==> (input.Provide? && m.state.None?) || DividesByZero(e, m, input)
  {
    hide VerifySmp1, VerifySmp2, VerifySmp3, VerifySmp4, ResponderVerdict, InitiatorVerdict, ThirdCommitted;
    hide GenerateSmp1, GenerateSmp2, GenerateSmp3, GenerateSmp4, SmpSecret, Built, Receive2, Receive3;
    BuiltHolds(e, m);
    match input
    case Receive(Second(m2), rnd, r7) =>
      if m.state == Some(Expect2) {
        SecondPanics(e, m, m2, rnd, r7);
      } else {
        OutOfTurn(e, Ensured(m), m2, Msg3(0, 0, 0, 0, 0, 0, 0, 0), rnd, r7);
      }
    case Receive(Third(m3), rnd, r7) =>
      if m.state == Some(Expect3) {
        ThirdPanics(e, m, m3, rnd, r7);
      } else {
        OutOfTurn(e, Ensured(m), Msg2(0, 0, 0, 0, 0, 0, 0, 0, 0, 0, 0), m3, rnd, r7);
      }
    case _ =>
  }

  lemma OutOfTurn(e: Env, m: Machine, m2: Msg2, m3: Msg3, rnd: Option<Rand3>, r7: Option<nat>)
    requires e.Valid() && m.state.Some?
    ensures m.state != Some(Expect2) ==> Receive2(e, m, m2, rnd).Effect?
    ensures m.state != Some(Expect3) ==> Receive3(e, m, m3, r7).Effect?
  {
    hide VerifySmp2, VerifySmp3, ResponderVerdict, GenerateSmp3, GenerateSmp4;
  }

  /** In version 3 no message leads to such a division. */
  lemma Version3NeverPanics(e: Env, peer: Peer, m: Machine, input: Input)
    requires e.Valid() && e.version.V3? && Built(e, m)
    ensures Step(e, peer, m, input).Panics? <==> input.Provide? && m.state.None?
  {
    hide Step, VerifyZkp, VerifyCommitment, VerifyEqualLogs, Group.Exp, DivMod, Challenge, ProofResponse;
    PanicsExactly(e, peer, m, input);
    match input
    case Receive(Second(m2), rnd, _) =>
      ElementNotZero(e.group, m2.pb);
      ElementNotZero(e.group, m2.qb);
    case Receive(Third(m3), _, _) =>
      if m.state == Some(Expect3) {
        var m1 :| BuiltSecond(e, m.s2.value, m1);
        SecondInvertible(e, m.s2.value, m1, 0);
        NoInverse(e.group, 0, m.s2.value.qb);
        NoInverse(e.group, 0, m.s2.value.pb);
      }
    case _ =>
  }

  lemma ElementNotZero(gr: Group, n: nat)
    requires gr.Valid()
    ensures gr.IsGroupElement(n) ==> n % gr.p != 0
  {
    if gr.IsGroupElement(n) {
      GroupElementInvertible(gr, 0, n);
      NoInverse(gr, 0, n);
    }
  }

  /** An honest second message, except that both commitments are 0 and their proof is the hash of
      two zeros. */
  ghost function ZeroSecond(e: Env, rnd: Rand2, d5: nat, d6: nat): Msg2
    requires e.Valid()
  {
    var gr := e.group;
    var c2, c3 := Challenge(e.crypto, 3, [gr.Exp(G1, rnd.r2)]), Challenge(e.crypto, 4, [gr.Exp(G1, rnd.r3)]);
    Msg2(gr.Exp(G1, rnd.b2), gr.Exp(G1, rnd.b3), c2, c3,
         ProofResponse(gr, rnd.r2, rnd.b2, c2), ProofResponse(gr, rnd.r3, rnd.b3, c3),
         0, 0, Challenge(e.crypto, 5, [0, 0]), d5, d6)
  }

  lemma ZeroPower(gr: Group, c: nat)
    requires gr.Valid() && c > 0
    ensures gr.Exp(0, c) == 0
  {
    assert Pow(0, c) == 0 * Pow(0, c - 1);
  }

  lemma ZeroSecondVerifies(e: Env, s1: State1, rnd: Rand2, d5: nat, d6: nat)
    requires e.Valid() && e.version.V2? && Challenge(e.crypto, 5, [0, 0]) != 0
    ensures VerifySmp2(e, s1, ZeroSecond(e, rnd, d5, d6))
  {
    var m2 := ZeroSecond(e, rnd, d5, d6);
    ZkpComplete(e, rnd.r2, rnd.b2, 3);
    ZkpComplete(e, rnd.r3, rnd.b3, 4);
    ZeroPower(e.group, m2.cp);
    hide Group.Exp, Challenge, ProofResponse;
  }

  /** In version 2 it makes every machine that waits for a second message dereference nil. */
  lemma Version2MayPanic(e: Env, peer: Peer, m: Machine, rnd: Rand2, d5: nat, d6: nat, rnd3: Rand3)
    requires e.Valid() && e.version.V2? && Built(e, m) && m.state == Some(Expect2)
    requires Challenge(e.crypto, 5, [0, 0]) != 0
    ensures Step(e, peer, m, Receive(Second(ZeroSecond(e, rnd, d5, d6)), Some(rnd3), None)).Panics?
  {
    hide Step, VerifySmp2, Challenge, ProofResponse;
    ZeroSecondVerifies(e, m.s1.value, rnd, d5, d6);
    PanicsExactly(e, peer, m, Receive(Second(ZeroSecond(e, rnd, d5, d6)), Some(rnd3), None));
  }

  // ------------------------------------------------------------ success is earned

  /** Steps i, j, n of a run are one attempt as initiator: we started at i, took a verified second
      message at j and a verified, matching fourth message at n, and nothing came between. */
  ghost predicate InitiatorAttempt(e: Env, ps: seq<Peer>, ins: seq<Input>, ms: seq<Machine>, i: nat, j: nat, n: nat)
    requires e.Valid() && |ms| == |ins| + 1 == |ps| + 1
  {
    && i < j < n < |ins|
    && StartedAt(e, ps, ins, ms, i, j)
    && SecondAt(e, ins, ms, j) && HeldSince(ms, j, n) && ms[n].state == Some(Expect4)
    && ms[n].s1 == ms[j].s1
    && ms[n].s3 == GenerateSmp3(e, ins[j].rnd3.value, ms[j].secret.value, ms[j].s1.value, ins[j].msg.m2)
    && ms[n].s3.Some?
    && ins[n].Receive? && ins[n].msg.Fourth?
    && VerifySmp4(e, ms[n].s3.value, ins[n].msg.m4)
    && InitiatorVerdict(e, ms[n].s1.value, ms[n].s3.value, ins[n].msg.m4)
  }

  /** The initiator's state held from i on is the one drawn at step i. */
  ghost predicate StartedAt(e: Env, ps: seq<Peer>, ins: seq<Input>, ms: seq<Machine>, i: nat, j: nat)
    requires e.Valid() && |ms| == |ins| + 1 == |ps| + 1
  {
    && i < j < |ms| && ps[i].encrypted && ins[i].Start? && ins[i].rnd1.Some?
    && forall k :: i < k <= j ==> ms[k].state == Some(Expect2) && ms[k].s1 == Some(StartState(e, ins[i]))
  }

  ghost function StartState(e: Env, input: Input): State1
    requires e.Valid() && input.Start? && input.rnd1.Some?
  {
    GenerateSmp1(e, input.rnd1.value, if input.question == [] then None else Some(input.question))
  }

  ghost predicate SecondAt(e: Env, ins: seq<Input>, ms: seq<Machine>, j: nat)
    requires e.Valid() && |ms| == |ins| + 1
  {
    && j < |ins| && ms[j].state == Some(Expect2) && ms[j].s1.Some? && ms[j].secret.Some?
    && ins[j].Receive? && ins[j].msg.Second? && ins[j].rnd3.Some?
    && VerifySmp2(e, ms[j].s1.value, ins[j].msg.m2)
  }

  /** All but the question and the secret. */
  ghost predicate SameAttempt(m: Machine, m': Machine) {
    m.state == m'.state && m.s1 == m'.s1 && m.s2 == m'.s2 && m.s3 == m'.s3
  }

  ghost predicate HeldSince(ms: seq<Machine>, j: nat, n: nat)
  {
    j < n < |ms| && forall k :: j < k <= n ==> SameAttempt(ms[k], ms[n])
  }

  /** One attempt as responder: a verified first message at i, our answer at j, and a verified,
      matching third message at n. */
  ghost predicate ResponderAttempt(e: Env, ps: seq<Peer>, ins: seq<Input>, ms: seq<Machine>, i: nat, j: nat, n: nat)
    requires e.Valid() && |ms| == |ins| + 1 == |ps| + 1
  {
    && i < j < n < |ins|
    && FirstAt(e, ins, ms, i) && AskingSince(ins, ms, i, j)
    && AnsweredAt(e, ps, ins, ms, j) && HeldSince(ms, j, n) && ms[n].state == Some(Expect3)
    && ms[n].s2 == Some(GenerateSmp2(e, ins[j].rnd2.value, Answer(e, ps[j], ins[j]), ins[i].msg.m1))
    && ins[n].Receive? && ins[n].msg.Third?
    && VerifySmp3(e, ms[n].s2.value, ins[n].msg.m3) == Some(true)
    && ResponderVerdict(e, ms[n].s2.value, ins[n].msg.m3) == Some(true)
  }

  ghost predicate FirstAt(e: Env, ins: seq<Input>, ms: seq<Machine>, i: nat)
    requires e.Valid() && |ms| == |ins| + 1
  {
    && i < |ins| && (ms[i].state == None || ms[i].state == Some(Expect1))
    && ins[i].Receive? && ins[i].msg.First? && VerifySmp1(e, ins[i].msg.m1)
  }

  ghost predicate AskingSince(ins: seq<Input>, ms: seq<Machine>, i: nat, j: nat)
  {
    && i < j < |ms| && i < |ins| && ins[i].Receive? && ins[i].msg.First?
    && forall k :: i < k <= j ==> ms[k].state == Some(WaitingForSecret(ins[i].msg.m1))
  }

  ghost predicate AnsweredAt(e: Env, ps: seq<Peer>, ins: seq<Input>, ms: seq<Machine>, j: nat)
    requires e.Valid() && |ms| == |ins| + 1 == |ps| + 1
  {
    j < |ins| && ps[j].encrypted && ins[j].Provide? && ins[j].rnd2.Some?
  }

  ghost function Answer(e: Env, peer: Peer, input: Input): nat
    requires input.Provide?
  {
    SmpSecret(e.crypto, peer.theirFingerprint, peer.ourFingerprint, peer.ssid, input.answer)
  }

  /** Where a step can leave the machine in one of the four waiting states. */
  lemma Entering(e: Env, peer: Peer, m: Machine, input: Input, m': Machine)
    requires e.Valid() && StepTo(e, peer, m, input, m')
    ensures m'.state == Some(Expect2) ==>
              || (m.state == Some(Expect2) && m'.s1 == m.s1)
              || (peer.encrypted && input.Start? && input.rnd1.Some? && m'.s1 == Some(StartState(e, input)))
    ensures m'.state == Some(Expect4) ==>
              || SameAttempt(m, m')
              || (&& m.state == Some(Expect2) && m.s1.Some? && m.secret.Some?
                  && input.Receive? && input.msg.Second? && input.rnd3.Some?
                  && VerifySmp2(e, m.s1.value, input.msg.m2)
                  && m'.s1 == m.s1 && m'.s3.Some?
                  && m'.s3 == GenerateSmp3(e, input.rnd3.value, m.secret.value, m.s1.value, input.msg.m2))
    ensures m'.state.Some? && m'.state.value.WaitingForSecret? ==>
              || (m'.state == m.state)
              || (&& (m.state == None || m.state == Some(Expect1))
                  && input.Receive? && input.msg.First? && m'.state.value.msg == input.msg.m1
                  && VerifySmp1(e, input.msg.m1))
    ensures m'.state == Some(Expect3) ==>
              || SameAttempt(m, m')
              || (&& m.state.Some? && m.state.value.WaitingForSecret? && peer.encrypted
                  && input.Provide? && input.rnd2.Some?
                  && m'.s2 == Some(GenerateSmp2(e, input.rnd2.value, Answer(e, peer, input), m.state.value.msg)))
  {
    hide VerifySmp1, VerifySmp2, VerifySmp3, VerifySmp4, ResponderVerdict, InitiatorVerdict;
    hide GenerateSmp1, GenerateSmp2, GenerateSmp3, GenerateSmp4, SmpSecret;
  }

  lemma {:induction false} FindStart(e: Env, ps: seq<Peer>, ins: seq<Input>, ms: seq<Machine>, n: nat) returns (i: nat)
    requires e.Valid() && IsRun(e, ps, ins, ms) && n < |ms| && ms[n].state == Some(Expect2)
    ensures StartedAt(e, ps, ins, ms, i, n)
  {
    hide StepTo, StartState;
    RunStarts(e, ps, ins, ms);
    RunStep(e, ps, ins, ms, n);
    Entering(e, ps[n - 1], ms[n - 1], ins[n - 1], ms[n]);
    if ms[n - 1].state == Some(Expect2) && ms[n].s1 == ms[n - 1].s1 {
      i := FindStart(e, ps, ins, ms, n - 1);
    } else {
      i := n - 1;
    }
  }

  lemma {:induction false} FindSecond(e: Env, ps: seq<Peer>, ins: seq<Input>, ms: seq<Machine>, n: nat) returns (j: nat)
    requires e.Valid() && IsRun(e, ps, ins, ms) && n < |ms| && ms[n].state == Some(Expect4)
    ensures j < n && SecondAt(e, ins, ms, j) && HeldSince(ms, j, n)
    ensures ms[n].s1 == ms[j].s1 && ms[n].s3.Some?
    ensures ms[n].s3 == GenerateSmp3(e, ins[j].rnd3.value, ms[j].secret.value, ms[j].s1.value, ins[j].msg.m2)
  {
    hide StepTo, GenerateSmp3, VerifySmp2;
    RunStarts(e, ps, ins, ms);
    RunStep(e, ps, ins, ms, n);
    Entering(e, ps[n - 1], ms[n - 1], ins[n - 1], ms[n]);
    if SameAttempt(ms[n - 1], ms[n]) {
      j := FindSecond(e, ps, ins, ms, n - 1);
    } else {
      j := n - 1;
    }
  }

  lemma {:induction false} FindFirst(e: Env, ps: seq<Peer>, ins: seq<Input>, ms: seq<Machine>, n: nat) returns (i: nat)
    requires e.Valid() && IsRun(e, ps, ins, ms) && n < |ms|
    requires ms[n].state.Some? && ms[n].state.value.WaitingForSecret?
    ensures FirstAt(e, ins, ms, i) && AskingSince(ins, ms, i, n)
  {
    hide StepTo, VerifySmp1;
    RunStarts(e, ps, ins, ms);
    RunStep(e, ps, ins, ms, n);
    Entering(e, ps[n - 1], ms[n - 1], ins[n - 1], ms[n]);
    if ms[n].state == ms[n - 1].state {
      i := FindFirst(e, ps, ins, ms, n - 1);
    } else {
      i := n - 1;
    }
  }

  lemma {:induction false} FindAnswer(e: Env, ps: seq<Peer>, ins: seq<Input>, ms: seq<Machine>, n: nat) returns (j: nat)
    requires e.Valid() && IsRun(e, ps, ins, ms) && n < |ms| && ms[n].state == Some(Expect3)
    ensures j < n && AnsweredAt(e, ps, ins, ms, j) && HeldSince(ms, j, n)
    ensures ms[j].state.Some? && ms[j].state.value.WaitingForSecret?
    ensures ms[n].s2 == Some(GenerateSmp2(e, ins[j].rnd2.value, Answer(e, ps[j], ins[j]), ms[j].state.value.msg))
  {
    hide StepTo, GenerateSmp2, Answer;
    RunStarts(e, ps, ins, ms);
    RunStep(e, ps, ins, ms, n);
    Entering(e, ps[n - 1], ms[n - 1], ins[n - 1], ms[n]);
    if SameAttempt(ms[n - 1], ms[n]) {
      j := FindAnswer(e, ps, ins, ms, n - 1);
    } else {
      j := n - 1;
    }
  }

  /** Which steps signal success. */
  lemma Succeeding(e: Env, peer: Peer, m: Machine, input: Input)
    requires e.Valid() && Step(e, peer, m, input).Effect? && Success in Step(e, peer, m, input).events
    ensures input.Receive?
    ensures || (&& m.state == Some(Expect3) && input.msg.Third? && m.s2.Some?
                && VerifySmp3(e, m.s2.value, input.msg.m3) == Some(true)
                && ResponderVerdict(e, m.s2.value, input.msg.m3) == Some(true))
            || (&& m.state == Some(Expect4) && input.msg.Fourth? && m.s1.Some? && m.s3.Some?
                && VerifySmp4(e, m.s3.value, input.msg.m4)
                && InitiatorVerdict(e, m.s1.value, m.s3.value, input.msg.m4))
  {
    hide VerifySmp1, VerifySmp2, VerifySmp3, VerifySmp4, ResponderVerdict, InitiatorVerdict;
    hide GenerateSmp1, GenerateSmp2, GenerateSmp3, GenerateSmp4, SmpSecret;
  }

  /** In every run, a success is the last step of one complete attempt: every message of it was
      verified, against the values drawn for that very attempt, and nothing interrupted it. */
  lemma SuccessIsEarned(e: Env, ps: seq<Peer>, ins: seq<Input>, ms: seq<Machine>, n: nat)
    requires e.Valid() && IsRun(e, ps, ins, ms) && n < |ins|
    requires Step(e, ps[n], ms[n], ins[n]).Effect? && Success in Step(e, ps[n], ms[n], ins[n]).events
    ensures exists i, j ::
              || InitiatorAttempt(e, ps, ins, ms, i, j, n)
              || ResponderAttempt(e, ps, ins, ms, i, j, n)
  {
    Succeeding(e, ps[n], ms[n], ins[n]);
    if ms[n].state == Some(Expect4) {
      InitiatorEarned(e, ps, ins, ms, n);
    } else {
      ResponderEarned(e, ps, ins, ms, n);
    }
  }

  lemma InitiatorEarned(e: Env, ps: seq<Peer>, ins: seq<Input>, ms: seq<Machine>, n: nat)
    requires e.Valid() && IsRun(e, ps, ins, ms) && n < |ins|
    requires ms[n].state == Some(Expect4) && ms[n].s1.Some? && ms[n].s3.Some? && ins[n].Receive? && ins[n].msg.Fourth?
    requires VerifySmp4(e, ms[n].s3.value, ins[n].msg.m4)
    requires InitiatorVerdict(e, ms[n].s1.value, ms[n].s3.value, ins[n].msg.m4)
    ensures exists i, j :: InitiatorAttempt(e, ps, ins, ms, i, j, n)
  {
    hide VerifySmp2, VerifySmp4, InitiatorVerdict, GenerateSmp3, StepTo, StartState;
    var j := FindSecond(e, ps, ins, ms, n);
    var i := FindStart(e, ps, ins, ms, j);
    assert InitiatorAttempt(e, ps, ins, ms, i, j, n);
  }

  lemma ResponderEarned(e: Env, ps: seq<Peer>, ins: seq<Input>, ms: seq<Machine>, n: nat)
    requires e.Valid() && IsRun(e, ps, ins, ms) && n < |ins|
    requires ms[n].state == Some(Expect3) && ms[n].s2.Some? && ins[n].Receive? && ins[n].msg.Third?
    requires VerifySmp3(e, ms[n].s2.value, ins[n].msg.m3) == Some(true)
    requires ResponderVerdict(e, ms[n].s2.value, ins[n].msg.m3) == Some(true)
    ensures exists i, j :: ResponderAttempt(e, ps, ins, ms, i, j, n)
  {
    hide VerifySmp1, VerifySmp3, ResponderVerdict, GenerateSmp2, Answer, StepTo;
    var j := FindAnswer(e, ps, ins, ms, n);
    var i := FindFirst(e, ps, ins, ms, j);
    assert ResponderAttempt(e, ps, ins, ms, i, j, n);
  }
}
