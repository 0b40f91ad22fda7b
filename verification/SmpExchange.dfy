/** Two honest SMP machines talking to each other: which of their messages come out of their records
    unchanged, and how every exchange between them ends, whatever was drawn. */
module SmpExchange {
  import opened Wire
  import opened ModArith
  import opened DhGroup
  import opened Crypto
  import opened Smp
  import opened SmpMachine
  import opened Tlvs

  // ------------------------------------------------------------ honest messages in their records

  /** As long as a number of the group at most. */
  ghost predicate Small(v: nat) {
    |NatBytes(v)| <= 192
  }

  /** Group elements, answers and challenges all are. */
  lemma PartsSmall(e: Env)
    requires e.Valid()
    ensures forall v: nat :: v < e.group.p ==> Small(v)
    ensures forall ix, vs :: Small(Challenge(e.crypto, ix, vs))
    ensures forall r, a, c :: Small(ProofResponse(e.group, r, a, c))
  {
    hide Small;
    forall v: nat | v < e.group.p
      ensures Small(v)
    {
      ResidueSmall(e.group, v);
    }
    forall ix, vs
      ensures Small(Challenge(e.crypto, ix, vs))
    {
      ChallengeSmall(e.crypto, ix, vs);
    }
  }

  lemma ResidueSmall(gr: Group, v: nat)
    requires gr.Valid() && v < gr.p
    ensures Small(v)
  {
    NatBytesMonotone(v, gr.p);
  }

  lemma ChallengeSmall(c: Primitives, ix: byte, vs: seq<nat>)
    requires c.Valid()
    ensures Small(Challenge(c, ix, vs))
  {
    hide Pow256, NatBytes, FromBytes, Mpis;
    NatBytesLength(Challenge(c, ix, vs), HASH2_LENGTH);
  }

  lemma {:induction false} SmallMpis(vs: seq<nat>)
    requires forall v <- vs :: Small(v)
    ensures |Mpis(vs)| <= 196 * |vs|
  {
    if vs != [] {
      hide NatBytes, Mpi;
      assert Small(vs[0]);
      MpiLength(vs[0]);
      SmallMpis(vs[1..]);
    }
  }

  ghost predicate Questioned(m: Message) {
    m.First? && m.m1.question.Some?
  }

  /** A message of small numbers always fits the length field, unless it carries a question; then it
      does at least up to a question of 64000 bytes. */
  lemma SmallRecordFits(m: Message)
    requires forall v <- MpisOf(m) :: Small(v)
    ensures !Questioned(m) ==> WellFormed(ToTlv(m))
    ensures Questioned(m) && |m.m1.question.value| <= 64000 ==> WellFormed(ToTlv(m))
  {
    hide Small, Mpis;
    SmallMpis(MpisOf(m));
    LengthIsTruncated(m);
  }

  /** The first message of a run, with its question if it has one, fits the length field. */
  ghost predicate QuestionFits(e: Env, run: Run)
    requires e.Valid()
  {
    WellFormed(ToTlv(First(RunState1(e, run).msg)))
  }

  lemma ShortQuestionFits(e: Env, run: Run)
    requires e.Valid() && (run.question.Some? ==> |run.question.value| <= 64000)
    ensures QuestionFits(e, run)
  {
    hide Group.Exp, Challenge, ProofResponse, Small, ToTlv, WellFormed;
    PartsSmall(e);
    SmallRecordFits(First(RunState1(e, run).msg));
  }

  /** The first message arrives exactly when its question holds no NUL and fits the record. */
  lemma CarriedFirst(e: Env, run: Run, rest: bytes)
    requires e.Valid()
    ensures var m := First(RunState1(e, run).msg);
            Carried(m, rest) == Some(m) <==> QuestionFits(e, run) && (run.question.Some? ==> NulFree(run.question.value))
  {
    hide Group.Exp, Challenge, ProofResponse, Carried, ToTlv, WellFormed;
    SmpTlvRoundTrip(First(RunState1(e, run).msg), rest);
  }

  /** The other three always arrive. */
  lemma CarriedSecond(e: Env, run: Run, rest: bytes)
    requires e.Valid()
    ensures var m := Second(RunState2(e, run).msg); Carried(m, rest) == Some(m)
  {
    hide Group.Exp, MulMod, Challenge, ProofResponse, Small, Carried, ToTlv, WellFormed;
    PartsSmall(e);
    var m := Second(RunState2(e, run).msg);
    SmallRecordFits(m);
    SmpTlvRoundTrip(m, rest);
  }

  lemma CarriedThird(e: Env, run: Run, rest: bytes)
    requires e.Valid()
    ensures var m := Third(RunState3(e, run).msg); Carried(m, rest) == Some(m)
  {
    hide Group.Exp, MulMod, DivMod, Challenge, ProofResponse, Small, Carried, ToTlv, WellFormed;
    PartsSmall(e);
    HonestThird(e, run);
    var m := Third(RunState3(e, run).msg);
    SmallRecordFits(m);
    SmpTlvRoundTrip(m, rest);
  }

  lemma CarriedFourth(e: Env, run: Run, rest: bytes)
    requires e.Valid()
    ensures var m := Fourth(RunMsg4(e, run)); Carried(m, rest) == Some(m)
  {
    hide Group.Exp, MulMod, DivMod, Challenge, ProofResponse, Small, Carried, ToTlv, WellFormed;
    PartsSmall(e);
    HonestFourth(e, run);
    var m := Fourth(RunMsg4(e, run));
    SmallRecordFits(m);
    SmpTlvRoundTrip(m, rest);
  }

  /** The two conversations see the same session from opposite ends. */
  ghost predicate Mirrored(pa: Peer, pb: Peer) {
    && pa.encrypted && pb.encrypted && pa.ssid == pb.ssid
    && pa.ourFingerprint == pb.theirFingerprint && pa.theirFingerprint == pb.ourFingerprint
  }

  /** No Diffie-Hellman exponent is a multiple of q and, in version 3, no value sent is the neutral
      element of the group. */
  ghost predicate NonDegenerate(e: Env, run: Run)
    requires e.Valid()
  {
    var q := e.group.q;
    && run.a.a2 % q != 0 && run.a.a3 % q != 0 && run.b.b2 % q != 0 && run.b.b3 % q != 0
    && (e.version.V3? ==>
          && run.b.r4 % q != 0 && run.c.r4 % q != 0
          && (run.b.r4 + run.U() * run.y) % q != 0 && (run.c.r4 + run.U() * run.x) % q != 0
          && run.W() % q != 0)
  }

  lemma AllVerify(e: Env, run: Run)
    requires e.Valid() && NonDegenerate(e, run)
    ensures VerifySmp1(e, RunState1(e, run).msg)
    ensures VerifySmp2(e, RunState1(e, run), RunState2(e, run).msg)
    ensures VerifySmp3(e, RunState2(e, run), RunState3(e, run).msg) == Some(true)
    ensures VerifySmp4(e, RunState3(e, run), RunMsg4(e, run))
  {
    hide VerifySmp1, VerifySmp2, VerifySmp3, VerifySmp4, RunState1, RunState2, RunState3, RunMsg4;
    hide Run.U, Run.T, Run.W;
    Message1Verifies(e, run);
    Message2Verifies(e, run);
    Message3Verifies(e, run);
    Message4Verifies(e, run);
    Commuted(run);
    PrimeDividesProduct(run.a.a3, run.b.b3, e.group.q);
    PrimeDividesProduct(run.T(), run.b.r4, e.group.q);
    PrimeDividesProduct(run.T(), run.c.r4, e.group.q);
    PrimeDividesProduct(run.W(), run.a.a3, e.group.q);
    PrimeDividesProduct(run.W(), run.b.b3, e.group.q);
  }

  // ------------------------------------------------------------ the exchange

  /** What arrives of the messages sent together in one leg of the exchange. */
  type Channel = (nat, seq<Message>) -> seq<Message>

  /** A machine sends at most two messages at once: an abort and a new first message. */
  ghost predicate Carriable(ms: seq<Message>) {
    |ms| <= 2 && forall m <- ms :: Carried(m, []) == Some(m)
  }

  /** Messages that come out of their records unchanged arrive, all of them and in order. */
  ghost predicate Faithful(via: Channel) {
    forall leg, ms :: Carriable(ms) ==> via(leg, ms) == ms
  }

  /** Two effects one after the other. */
  ghost function Joined(first: Effect, second: Effect): Effect {
    if first.Panics? || second.Panics? then Panics else
    Effect(second.machine, first.replies + second.replies, first.events + second.events, second.failed)
  }

  /** One message after the other, as the records of a data message are handled. */
  ghost function Handled(e: Env, peer: Peer, m: Machine, ms: seq<Message>, rnd3: Option<Rand3>, r7: Option<nat>): Effect
    requires e.Valid()
    decreases |ms|
  {
    if ms == [] then Effect(m, [], [], false) else
    var first := Step(e, peer, m, Receive(ms[0], rnd3, r7));
    if first.Panics? then Panics else Joined(first, Handled(e, peer, first.machine, ms[1..], rnd3, r7))
  }

  /** The user answers when asked. */
  ghost function Responding(e: Env, peer: Peer, m: Machine, ms: seq<Message>, s: Session): Effect
    requires e.Valid()
  {
    var handled := Handled(e, peer, m, ms, None, Some(s.r7));
    if handled.Panics? || !(AskForSecret in handled.events || AskForAnswer in handled.events) then handled else
    Joined(handled, Step(e, peer, handled.machine, Provide(s.secretB, Some(s.b))))
  }

  /** The randomness of an exchange and what the two users bring. */
  datatype Session = Session(a: Rand1, b: Rand2, c: Rand3, r7: nat, question: bytes, secretA: bytes, secretB: bytes) {
    ghost function Run(e: Env, pa: Peer): Run {
      var fpA, fpB, ssid := pa.ourFingerprint, pa.theirFingerprint, pa.ssid;
      Smp.Run(a, b, c, r7, SmpSecret(e.crypto, fpA, fpB, ssid, secretA), SmpSecret(e.crypto, fpA, fpB, ssid, secretB),
              if question == [] then None else Some(question))
    }
  }

  /** Both machines, what they signalled since the start, and what is still on its way. */
  datatype Talk = Talk(a: Machine, b: Machine, eventsA: seq<Event>, eventsB: seq<Event>, pending: seq<Message>)

  ghost function Started(e: Env, pa: Peer, ma: Machine, mb: Machine, s: Session): Option<Talk>
    requires e.Valid()
  {
    match Step(e, pa, ma, Start(s.question, s.secretA, Some(s.a)))
    case Panics => None
    case Effect(m, replies, events, _) => Some(Talk(m, mb, events, [], replies))
  }

  /** The responder's leg: what is pending arrives and is answered. */
  ghost function ToResponder(e: Env, pb: Peer, s: Session, via: Channel, leg: nat, t: Talk): Option<Talk>
    requires e.Valid()
  {
    match Responding(e, pb, t.b, via(leg, t.pending), s)
    case Panics => None
    case Effect(m, replies, events, _) => Some(t.(b := m, eventsB := t.eventsB + events, pending := replies))
  }

  ghost function ToInitiator(e: Env, pa: Peer, s: Session, via: Channel, leg: nat, t: Talk): Option<Talk>
    requires e.Valid()
  {
    match Handled(e, pa, t.a, via(leg, t.pending), Some(s.c), None)
    case Panics => None
    case Effect(m, replies, events, _) => Some(t.(a := m, eventsA := t.eventsA + events, pending := replies))
  }

  /** The whole exchange; None if one of the machines panicked. */
  ghost function Talked(e: Env, pa: Peer, pb: Peer, ma: Machine, mb: Machine, s: Session, via: Channel): Option<Talk>
    requires e.Valid()
  {
    var t0 := Started(e, pa, ma, mb, s);
    if t0.None? then None else
    var t1 := ToResponder(e, pb, s, via, 1, t0.value);
    if t1.None? then None else
    var t2 := ToInitiator(e, pa, s, via, 2, t1.value);
    if t2.None? then None else
    var t3 := ToResponder(e, pb, s, via, 3, t2.value);
    if t3.None? then None else ToInitiator(e, pa, s, via, 4, t3.value)
  }

  // ------------------------------------------------------------ how it ends

  datatype Ending = OutOfTurn | FirstRefused | SecondRefused | ThirdRefused | Differed | Agreed

  /** The machine takes a first message: it is idle, or the initiator aborts its attempt first. */
  ghost predicate InTurn(ma: Machine, mb: Machine) {
    Idle(mb) || !Idle(ma)
  }

  ghost predicate Idle(m: Machine) {
    m.state == None || m.state == Some(Expect1)
  }

  /** The end of an exchange, from the states before it, the draws and the secrets. */
  ghost function Decided(e: Env, run: Run, inTurn: bool): Ending
    requires e.Valid()
  {
    var q, v2 := e.group.q, e.version.V2?;
    if !inTurn then OutOfTurn
    else if !v2 && (run.a.a2 % q == 0 || run.a.a3 % q == 0) then FirstRefused
    else if !v2 && (|| run.b.b2 % q == 0 || run.b.b3 % q == 0 || (run.T() * run.b.r4) % q == 0
                    || (run.b.r4 + run.U() * run.y) % q == 0) then SecondRefused
    else if !v2 && (|| (run.T() * run.c.r4) % q == 0 || (run.c.r4 + run.U() * run.x) % q == 0
                    || (run.W() * run.a.a3) % q == 0) then ThirdRefused
    else if || run.x % q == run.y % q
            || run.a.a2 % q == 0 || run.a.a3 % q == 0 || run.b.b2 % q == 0 || run.b.b3 % q == 0 then Agreed
    else Differed
  }

  ghost function InitiatorHears(end: Ending): seq<Event> {
    match end
    case OutOfTurn => [Aborted]
    case FirstRefused => [Aborted]
    case SecondRefused => [Cheated]
    case ThirdRefused => [InProgress, Aborted]
    case Differed => [InProgress, Aborted]
    case Agreed => [InProgress, Success]
  }

  ghost function ResponderHears(end: Ending, question: bytes): seq<Event> {
    var ask := if question == [] then AskForSecret else AskForAnswer;
    match end
    case OutOfTurn => [Error]
    case FirstRefused => [Cheated]
    case SecondRefused => [ask, Aborted]
    case ThirdRefused => [ask, Cheated]
    case Differed => [ask, Failure]
    case Agreed => [ask, Success]
  }

  /** Neither machine panicked, both expect a first message again, nothing is left on its way, and the
      users heard what goes with this end. */
  ghost predicate EndsAs(end: Ending, ma: Machine, s: Session, t: Option<Talk>) {
    && t.Some? && t.value.a.state == t.value.b.state == Some(Expect1) && t.value.pending == []
    && t.value.eventsA == InitiatorHears(end)
    && t.value.eventsB == Prelude(ma, Aborted) + ResponderHears(end, s.question)
  }

  ghost predicate Meeting(e: Env, pa: Peer, pb: Peer, s: Session)
    requires e.Valid()
  {
    Mirrored(pa, pb) && NulFree(s.question) && QuestionFits(e, s.Run(e, pa))
  }

  /** Two honest machines, in whatever states before and with whatever draws: the exchange ends as these
      and the secrets decide; in turn and with ordinary draws in success exactly when what the users
      typed matches. */
  lemma HonestExchange(e: Env, pa: Peer, pb: Peer, ma: Machine, mb: Machine, s: Session, via: Channel)
    requires e.Valid() && Meeting(e, pa, pb, s) && Faithful(via)
    ensures EndsAs(Decided(e, s.Run(e, pa), InTurn(ma, mb)), ma, s, Talked(e, pa, pb, ma, mb, s, via))
    ensures var run := s.Run(e, pa); run.x % e.group.q == run.y % e.group.q <==> SecretsMatch(e, pa, s)
    ensures InTurn(ma, mb) && NonDegenerate(e, s.Run(e, pa)) ==>
              EndsAs(if SecretsMatch(e, pa, s) then Agreed else Differed, ma, s, Talked(e, pa, pb, ma, mb, s, via))
  {
    hide *;
    SecretsCompared(e, pa, s);
    if InTurn(ma, mb) && NonDegenerate(e, s.Run(e, pa)) {
      OrdinaryDraws(e, pa, s);
    }
    var run := s.Run(e, pa);
    var end := Decided(e, run, InTurn(ma, mb));
    MeetingMeans(e, pa, pb, s);
    FirstLeg(e, pa, ma, mb, s);
    var t0 := Started(e, pa, ma, mb, s).value;
    SecondLeg(e, pa, pb, ma, mb, s, via, t0);
    var t1 := ToResponder(e, pb, s, via, 1, t0).value;
    ThirdLeg(e, pa, run, ma, s, via, end, InTurn(ma, mb), t1);
    var t2 := ToInitiator(e, pa, s, via, 2, t1).value;
    FourthLeg(e, pb, run, ma, s, via, end, InTurn(ma, mb), t2);
    var t3 := ToResponder(e, pb, s, via, 3, t2).value;
    LastLeg(e, pa, run, ma, s, via, end, InTurn(ma, mb), t3);
    AllLegs(e, pa, pb, ma, mb, s, via);
  }

  lemma AllLegs(e: Env, pa: Peer, pb: Peer, ma: Machine, mb: Machine, s: Session, via: Channel)
    requires e.Valid()
    ensures var t0 := Started(e, pa, ma, mb, s);
            t0.Some? ==>
              var t1 := ToResponder(e, pb, s, via, 1, t0.value);
              t1.Some? ==>
                var t2 := ToInitiator(e, pa, s, via, 2, t1.value);
                t2.Some? ==>
                  var t3 := ToResponder(e, pb, s, via, 3, t2.value);
                  t3.Some? ==> Talked(e, pa, pb, ma, mb, s, via) == ToInitiator(e, pa, s, via, 4, t3.value)
  {
    hide Started, ToResponder, ToInitiator;
  }

  lemma MeetingMeans(e: Env, pa: Peer, pb: Peer, s: Session)
    requires e.Valid() && Meeting(e, pa, pb, s)
    ensures var run := s.Run(e, pa);
            && pa.encrypted && pb.encrypted && QuestionFits(e, run) && (run.question.Some? ==> NulFree(run.question.value))
            && run.question == (if s.question == [] then None else Some(s.question))
            && run.b == s.b && run.c == s.c && run.r7 == s.r7
            && run.y == SmpSecret(e.crypto, pb.theirFingerprint, pb.ourFingerprint, pb.ssid, s.secretB)
  {
    hide QuestionFits, SmpSecret, NulFree;
  }

  // ------------------------------------------------------------ the legs

  ghost function Prelude<T>(ma: Machine, x: T): seq<T> {
    if Idle(ma) then [] else [x]
  }

  ghost function Ask(s: Session): Event {
    if s.question == [] then AskForSecret else AskForAnswer
  }

  ghost predicate AfterStart(e: Env, run: Run, ma: Machine, mb: Machine, t: Talk)
    requires e.Valid()
  {
    && Asking(e, run, t.a) && t.b == mb && t.eventsA == t.eventsB == []
    && t.pending == Prelude(ma, Abort) + [First(RunState1(e, run).msg)]
  }

  ghost predicate Asking(e: Env, run: Run, m: Machine)
    requires e.Valid()
  {
    m.state == Some(Expect2) && m.secret == Some(run.x) && m.s1 == Some(RunState1(e, run))
  }

  lemma FirstLeg(e: Env, pa: Peer, ma: Machine, mb: Machine, s: Session)
    requires e.Valid() && pa.encrypted
    ensures var t := Started(e, pa, ma, mb, s); t.Some? && AfterStart(e, s.Run(e, pa), ma, mb, t.value)
  {
    hide GenerateSmp1, SmpSecret;
  }

  ghost predicate Early(end: Ending) {
    end.OutOfTurn? || end.FirstRefused?
  }

  ghost predicate Replied(e: Env, run: Run, m: Machine)
    requires e.Valid()
  {
    m.state == Some(Expect3) && m.s2 == Some(RunState2(e, run))
  }

  ghost predicate AfterAnswer(e: Env, run: Run, ma: Machine, s: Session, end: Ending, t: Talk)
    requires e.Valid()
  {
    && Asking(e, run, t.a) && t.eventsA == []
    && if Early(end) then
         t.b.state == Some(Expect1) && t.pending == [Abort] && t.eventsB == Prelude(ma, Aborted) + ResponderHears(end, s.question)
       else
         Replied(e, run, t.b) && t.pending == [Second(RunState2(e, run).msg)] && t.eventsB == Prelude(ma, Aborted) + [Ask(s)]
  }

  lemma HandledOne(e: Env, peer: Peer, m: Machine, msg: Message, rnd3: Option<Rand3>, r7: Option<nat>)
    requires e.Valid() && Step(e, peer, m, Receive(msg, rnd3, r7)).Effect?
    ensures var f := Step(e, peer, m, Receive(msg, rnd3, r7));
            Handled(e, peer, m, [msg], rnd3, r7) == Effect(f.machine, f.replies, f.events, false)
  {
    hide Step;
    var f := Step(e, peer, m, Receive(msg, rnd3, r7));
    assert [msg][1..] == [] && f.replies + [] == f.replies && f.events + [] == f.events;
    assert Handled(e, peer, f.machine, [msg][1..], rnd3, r7) == Effect(f.machine, [], [], false);
  }

  /** An abort in front only makes the machine idle. */
  lemma HandledAfterAbort(e: Env, peer: Peer, m: Machine, msg: Message, rnd3: Option<Rand3>, r7: Option<nat>)
    requires e.Valid() && Step(e, peer, m.(state := Some(Expect1)), Receive(msg, rnd3, r7)).Effect?
    ensures var f := Step(e, peer, m.(state := Some(Expect1)), Receive(msg, rnd3, r7));
            Handled(e, peer, m, [Abort, msg], rnd3, r7) == Effect(f.machine, f.replies, [Aborted] + f.events, false)
  {
    var m1 := m.(state := Some(Expect1));
    assert Step(e, peer, m, Receive(Abort, rnd3, r7)) == Effect(m1, [], [Aborted], false);
    hide Step;
    HandledOne(e, peer, m1, msg, rnd3, r7);
    var f := Step(e, peer, m1, Receive(msg, rnd3, r7));
    assert [Abort, msg][1..] == [msg] && [] + f.replies == f.replies;
  }

  lemma StepFirst(e: Env, peer: Peer, m: Machine, m1: Msg1, rnd3: Option<Rand3>, r7: Option<nat>)
    requires e.Valid()
    ensures var f := Step(e, peer, m, Receive(First(m1), rnd3, r7));
            && f.Effect?
            && if !Idle(m) then f.machine.state == Some(Expect1) && f.replies == [Abort] && f.events == [Error]
               else if !VerifySmp1(e, m1) then f.machine.state == Some(Expect1) && f.replies == [Abort] && f.events == [Cheated]
               else && f.machine.state == Some(WaitingForSecret(m1)) && f.replies == []
                    && f.events == [if m1.question.Some? then AskForAnswer else AskForSecret]
  {
    hide VerifySmp1;
  }

  lemma StepProvide(e: Env, peer: Peer, m: Machine, m1: Msg1, answer: bytes, rnd: Rand2)
    requires e.Valid() && m.state == Some(WaitingForSecret(m1)) && peer.encrypted
    ensures var y := SmpSecret(e.crypto, peer.theirFingerprint, peer.ourFingerprint, peer.ssid, answer);
            var s2 := GenerateSmp2(e, rnd, y, m1); var f := Step(e, peer, m, Provide(answer, Some(rnd)));
            && f.Effect? && f.machine.state == Some(Expect3) && f.machine.s2 == Some(s2)
            && f.replies == [Second(s2.msg)] && f.events == []
  {
    hide GenerateSmp2, SmpSecret;
  }

  ghost function Base(ma: Machine, mb: Machine): Machine {
    if Idle(ma) then mb else mb.(state := Some(Expect1))
  }

  lemma HandlesPrelude(e: Env, pb: Peer, ma: Machine, mb: Machine, m1: Msg1, r7: Option<nat>)
    requires e.Valid()
    ensures var f := Step(e, pb, Base(ma, mb), Receive(First(m1), None, r7));
            && f.Effect? && (Idle(Base(ma, mb)) <==> InTurn(ma, mb))
            && Handled(e, pb, mb, Prelude(ma, Abort) + [First(m1)], None, r7)
               == Effect(f.machine, f.replies, Prelude(ma, Aborted) + f.events, false)
  {
    hide Step, Handled;
    var f := Step(e, pb, Base(ma, mb), Receive(First(m1), None, r7));
    StepFirst(e, pb, Base(ma, mb), m1, None, r7);
    if Idle(ma) {
      HandledOne(e, pb, mb, First(m1), None, r7);
      assert [] + [First(m1)] == [First(m1)] && [] + f.events == f.events;
    } else {
      HandledAfterAbort(e, pb, mb, First(m1), None, r7);
      assert [Abort] + [First(m1)] == [Abort, First(m1)];
    }
  }

  lemma Responds(e: Env, pb: Peer, ma: Machine, mb: Machine, m1: Msg1, s: Session)
    requires e.Valid() && pb.encrypted
    ensures var f := Responding(e, pb, mb, Prelude(ma, Abort) + [First(m1)], s);
            var y := SmpSecret(e.crypto, pb.theirFingerprint, pb.ourFingerprint, pb.ssid, s.secretB);
            var s2, pre := GenerateSmp2(e, s.b, y, m1), Prelude(ma, Aborted);
            && f.Effect?
            && if !InTurn(ma, mb) then f.machine.state == Some(Expect1) && f.replies == [Abort] && f.events == pre + [Error]
               else if !VerifySmp1(e, m1) then f.machine.state == Some(Expect1) && f.replies == [Abort] && f.events == pre + [Cheated]
               else && f.machine.state == Some(Expect3) && f.machine.s2 == Some(s2) && f.replies == [Second(s2.msg)]
                    && f.events == pre + [if m1.question.Some? then AskForAnswer else AskForSecret]
  {
    hide Step, Handled, VerifySmp1, GenerateSmp2, SmpSecret, InTurn;
    var r7, pre := Some(s.r7), Prelude(ma, Aborted);
    HandlesPrelude(e, pb, ma, mb, m1, r7);
    StepFirst(e, pb, Base(ma, mb), m1, None, r7);
    var f := Step(e, pb, Base(ma, mb), Receive(First(m1), None, r7));
    if InTurn(ma, mb) && VerifySmp1(e, m1) {
      assert (pre + f.events)[|pre|] == f.events[0];
      StepProvide(e, pb, f.machine, m1, s.secretB, s.b);
      assert [] + [Second(GenerateSmp2(e, s.b, SmpSecret(e.crypto, pb.theirFingerprint, pb.ourFingerprint, pb.ssid, s.secretB), m1).msg)]
             == [Second(GenerateSmp2(e, s.b, SmpSecret(e.crypto, pb.theirFingerprint, pb.ourFingerprint, pb.ssid, s.secretB), m1).msg)];
      assert pre + f.events + [] == pre + f.events;
    }
  }

  lemma FirstCarried(e: Env, run: Run, ma: Machine)
    requires e.Valid() && QuestionFits(e, run) && (run.question.Some? ==> NulFree(run.question.value))
    ensures Carriable(Prelude(ma, Abort) + [First(RunState1(e, run).msg)])
  {
    hide Carried, QuestionFits, NulFree, RunState1;
    CarriedFirst(e, run, []);
    AbortCarried();
  }

  lemma Arrives(via: Channel, leg: nat, ms: seq<Message>)
    requires Faithful(via) && Carriable(ms)
    ensures via(leg, ms) == ms
  {
  }

  lemma DecidesFirst(e: Env, run: Run, inTurn: bool)
    requires e.Valid()
    ensures var end := Decided(e, run, inTurn);
            && (end.OutOfTurn? <==> !inTurn)
            && (end.FirstRefused? <==> inTurn && !VerifySmp1(e, RunState1(e, run).msg))
  {
    hide VerifySmp1, Run.U, Run.T, Run.W, RunState1;
    Message1Verifies(e, run);
  }

  lemma SecondLeg(e: Env, pa: Peer, pb: Peer, ma: Machine, mb: Machine, s: Session, via: Channel, t: Talk)
    requires e.Valid() && Meeting(e, pa, pb, s) && Faithful(via) && AfterStart(e, s.Run(e, pa), ma, mb, t)
    ensures var run := s.Run(e, pa); var t' := ToResponder(e, pb, s, via, 1, t);
            t'.Some? && AfterAnswer(e, run, ma, s, Decided(e, run, InTurn(ma, mb)), t'.value)
  {
    hide VerifySmp1, GenerateSmp2, GenerateSmp1, SmpSecret, Faithful, Carriable, Meeting, Decided, InTurn, Responding, Session.Run;
    var run := s.Run(e, pa);
    MeetingMeans(e, pa, pb, s);
    FirstCarried(e, run, ma);
    Arrives(via, 1, t.pending);
    DecidesFirst(e, run, InTurn(ma, mb));
    Responds(e, pb, ma, mb, RunState1(e, run).msg, s);
    FirstQuestion(e, run);
    var f := Responding(e, pb, mb, t.pending, s);
    assert [] + f.events == f.events;
  }

  lemma FirstQuestion(e: Env, run: Run)
    requires e.Valid()
    ensures RunState1(e, run).msg.question == run.question
  {
  }

  // what the initiator makes of it

  ghost predicate Proving(e: Env, run: Run, m: Machine)
    requires e.Valid()
  {
    m.state == Some(Expect4) && m.s1 == Some(RunState1(e, run)) && m.s3 == Some(RunState3(e, run))
  }

  ghost predicate AfterProof(e: Env, run: Run, ma: Machine, s: Session, end: Ending, t: Talk)
    requires e.Valid()
  {
    if Early(end) then
      && t.a.state == t.b.state == Some(Expect1) && t.pending == [] && t.eventsA == InitiatorHears(end)
      && t.eventsB == Prelude(ma, Aborted) + ResponderHears(end, s.question)
    else
      && Replied(e, run, t.b) && t.eventsB == Prelude(ma, Aborted) + [Ask(s)]
      && if end.SecondRefused? then t.a.state == Some(Expect1) && t.pending == [Abort] && t.eventsA == [Cheated]
         else Proving(e, run, t.a) && t.pending == [Third(RunState3(e, run).msg)] && t.eventsA == [InProgress]
  }

  lemma StepAbort(e: Env, peer: Peer, m: Machine, rnd3: Option<Rand3>, r7: Option<nat>)
    requires e.Valid()
    ensures Handled(e, peer, m, [Abort], rnd3, r7) == Effect(m.(state := Some(Expect1)), [], [Aborted], false)
  {
    HandledOne(e, peer, m, Abort, rnd3, r7);
  }

  lemma StepSecond(e: Env, peer: Peer, m: Machine, run: Run)
    requires e.Valid() && Asking(e, run, m)
    ensures var f := Handled(e, peer, m, [Second(RunState2(e, run).msg)], Some(run.c), None);
            && f.Effect?
            && if !VerifySmp2(e, RunState1(e, run), RunState2(e, run).msg)
               then f.machine.state == Some(Expect1) && f.replies == [Abort] && f.events == [Cheated]
               else Proving(e, run, f.machine) && f.replies == [Third(RunState3(e, run).msg)] && f.events == [InProgress]
  {
    hide VerifySmp2, GenerateSmp3, RunState1, RunState2, Handled;
    HonestThird(e, run);
    HandledOne(e, peer, m, Second(RunState2(e, run).msg), Some(run.c), None);
  }

  lemma DecidesSecond(e: Env, run: Run, inTurn: bool)
    requires e.Valid() && !Early(Decided(e, run, inTurn))
    ensures Decided(e, run, inTurn).SecondRefused? <==> !VerifySmp2(e, RunState1(e, run), RunState2(e, run).msg)
  {
    hide VerifySmp2, Run.U, Run.T, Run.W, RunState1, RunState2;
    Message2Verifies(e, run);
  }

  lemma ThirdLeg(e: Env, pa: Peer, run: Run, ma: Machine, s: Session, via: Channel, end: Ending, inTurn: bool, t: Talk)
    requires e.Valid() && Faithful(via) && run.c == s.c && end == Decided(e, run, inTurn) && AfterAnswer(e, run, ma, s, end, t)
    ensures var t' := ToInitiator(e, pa, s, via, 2, t); t'.Some? && AfterProof(e, run, ma, s, end, t'.value)
  {
    hide VerifySmp2, RunState1, RunState2, RunState3, Faithful, Carriable, Carried, Decided, Handled;
    if Early(end) {
      AbortCarried();
      OneCarriable(Abort);
      Arrives(via, 2, t.pending);
      StepAbort(e, pa, t.a, Some(s.c), None);
    } else {
      CarriedSecond(e, run, []);
      OneCarriable(Second(RunState2(e, run).msg));
      Arrives(via, 2, t.pending);
      StepSecond(e, pa, t.a, run);
      DecidesSecond(e, run, inTurn);
    }
    var f := Handled(e, pa, t.a, t.pending, Some(s.c), None);
    assert [] + f.events == f.events;
  }

  lemma OneCarriable(m: Message)
    requires Carried(m, []) == Some(m)
    ensures Carriable([m])
  {
  }

  // the responder's verdict

  ghost predicate AfterVerdict(e: Env, run: Run, ma: Machine, s: Session, end: Ending, t: Talk)
    requires e.Valid()
  {
    && t.b.state == Some(Expect1) && t.eventsB == Prelude(ma, Aborted) + ResponderHears(end, s.question)
    && if Early(end) || end.SecondRefused? then t.a.state == Some(Expect1) && t.pending == [] && t.eventsA == InitiatorHears(end)
       else && Proving(e, run, t.a) && t.eventsA == [InProgress]
            && t.pending == [if end.Agreed? then Fourth(RunMsg4(e, run)) else Abort]
  }

  lemma StepThird(e: Env, peer: Peer, m: Machine, run: Run)
    requires e.Valid() && Replied(e, run, m)
    ensures var f := Handled(e, peer, m, [Third(RunState3(e, run).msg)], None, Some(run.r7));
            var verified := VerifySmp3(e, RunState2(e, run), RunState3(e, run).msg);
            var equal := ResponderVerdict(e, RunState2(e, run), RunState3(e, run).msg);
            && f.Effect? && f.machine.state == Some(Expect1) && verified.Some? && equal.Some?
            && if !verified.value then f.replies == [Abort] && f.events == [Cheated]
               else if !equal.value then f.replies == [Abort] && f.events == [Failure]
               else f.replies == [Fourth(RunMsg4(e, run))] && f.events == [Success]
  {
    hide VerifySmp3, ResponderVerdict, InitiatorVerdict, GenerateSmp4, RunState1, RunState2, RunState3, RunMsg4, Handled;
    Message3Verifies(e, run);
    DecidesEquality(e, run);
    RunMessage4(e, run);
    HandledOne(e, peer, m, Third(RunState3(e, run).msg), None, Some(run.r7));
  }

  lemma DecidesThird(e: Env, run: Run, inTurn: bool)
    requires e.Valid() && !Early(Decided(e, run, inTurn)) && !Decided(e, run, inTurn).SecondRefused?
    ensures VerifySmp3(e, RunState2(e, run), RunState3(e, run).msg).Some?
    ensures Decided(e, run, inTurn).ThirdRefused? <==> !VerifySmp3(e, RunState2(e, run), RunState3(e, run).msg).value
    ensures ResponderVerdict(e, RunState2(e, run), RunState3(e, run).msg).Some?
    ensures !Decided(e, run, inTurn).ThirdRefused? ==>
              (Decided(e, run, inTurn).Agreed? <==> ResponderVerdict(e, RunState2(e, run), RunState3(e, run).msg).value)
  {
    hide VerifySmp3, ResponderVerdict, InitiatorVerdict, Run.U, Run.T, Run.W, RunState1, RunState2, RunState3, RunMsg4;
    Message3Verifies(e, run);
    DecidesEquality(e, run);
  }

  lemma NotAsked(e: Env, pb: Peer, m: Machine, ms: seq<Message>, s: Session)
    requires e.Valid()
    requires var f := Handled(e, pb, m, ms, None, Some(s.r7));
             f.Effect? && AskForSecret !in f.events && AskForAnswer !in f.events
    ensures Responding(e, pb, m, ms, s) == Handled(e, pb, m, ms, None, Some(s.r7))
  {
    hide Handled, Step;
  }

  lemma FourthLeg(e: Env, pb: Peer, run: Run, ma: Machine, s: Session, via: Channel, end: Ending, inTurn: bool, t: Talk)
    requires e.Valid() && Faithful(via) && run.r7 == s.r7 && end == Decided(e, run, inTurn) && AfterProof(e, run, ma, s, end, t)
    ensures var t' := ToResponder(e, pb, s, via, 3, t); t'.Some? && AfterVerdict(e, run, ma, s, end, t'.value)
  {
    hide VerifySmp3, ResponderVerdict, RunState1, RunState2, RunState3, RunMsg4, Faithful, Carriable, Carried, Decided, Handled, Responding;
    if Early(end) {
      NothingCarriable();
      Arrives(via, 3, t.pending);
      NothingHandled(e, pb, t.b, None, Some(s.r7));
    } else if end.SecondRefused? {
      AbortCarried();
      OneCarriable(Abort);
      Arrives(via, 3, t.pending);
      StepAbort(e, pb, t.b, None, Some(s.r7));
    } else {
      CarriedThird(e, run, []);
      OneCarriable(Third(RunState3(e, run).msg));
      Arrives(via, 3, t.pending);
      StepThird(e, pb, t.b, run);
      DecidesThird(e, run, inTurn);
    }
    NotAsked(e, pb, t.b, t.pending, s);
    Regroup(Prelude(ma, Aborted), [Ask(s)], Handled(e, pb, t.b, t.pending, None, Some(s.r7)).events);
  }

  lemma Regroup<T>(a: seq<T>, b: seq<T>, c: seq<T>)
    ensures a + b + c == a + (b + c) && a + [] == a
  {
  }

  lemma NothingCarriable()
    ensures Carriable([])
  {
  }

  lemma NothingHandled(e: Env, peer: Peer, m: Machine, rnd3: Option<Rand3>, r7: Option<nat>)
    requires e.Valid()
    ensures Handled(e, peer, m, [], rnd3, r7) == Effect(m, [], [], false)
  {
  }

  // and the initiator's

  lemma StepFourth(e: Env, peer: Peer, m: Machine, run: Run, rnd3: Option<Rand3>)
    requires e.Valid() && Proving(e, run, m) && VerifySmp4(e, RunState3(e, run), RunMsg4(e, run))
    requires InitiatorVerdict(e, RunState1(e, run), RunState3(e, run), RunMsg4(e, run))
    ensures Handled(e, peer, m, [Fourth(RunMsg4(e, run))], rnd3, None) == Effect(WIPED.(state := Some(Expect1)), [], [Success], false)
  {
    hide VerifySmp4, InitiatorVerdict, RunState1, RunState3, RunMsg4, Handled;
    HandledOne(e, peer, m, Fourth(RunMsg4(e, run)), rnd3, None);
  }

  /** A fourth message that is sent at all is always accepted. */
  lemma FourthFollows(e: Env, run: Run, inTurn: bool)
    requires e.Valid() && Decided(e, run, inTurn).Agreed?
    ensures VerifySmp4(e, RunState3(e, run), RunMsg4(e, run))
    ensures InitiatorVerdict(e, RunState1(e, run), RunState3(e, run), RunMsg4(e, run))
  {
    hide VerifySmp3, VerifySmp4, ResponderVerdict, InitiatorVerdict, Run.U, Run.T, Run.W, RunState1, RunState2, RunState3, RunMsg4, IsPrime;
    Message4Verifies(e, run);
    DecidesEquality(e, run);
    PrimeDividesProduct(run.W(), run.b.b3, e.group.q);
    PrimeDividesProduct(run.W(), run.a.a3, e.group.q);
  }

  lemma LastLeg(e: Env, pa: Peer, run: Run, ma: Machine, s: Session, via: Channel, end: Ending, inTurn: bool, t: Talk)
    requires e.Valid() && Faithful(via) && end == Decided(e, run, inTurn) && AfterVerdict(e, run, ma, s, end, t)
    ensures EndsAs(end, ma, s, ToInitiator(e, pa, s, via, 4, t))
  {
    hide RunState1, RunState2, RunState3, RunMsg4, Faithful, Carriable, Carried, Decided, Handled, VerifySmp4, InitiatorVerdict;
    if Early(end) || end.SecondRefused? {
      NothingCarriable();
      Arrives(via, 4, t.pending);
      NothingHandled(e, pa, t.a, Some(s.c), None);
    } else if end.Agreed? {
      CarriedFourth(e, run, []);
      OneCarriable(Fourth(RunMsg4(e, run)));
      Arrives(via, 4, t.pending);
      FourthFollows(e, run, inTurn);
      StepFourth(e, pa, t.a, run, Some(s.c));
    } else {
      AbortCarried();
      OneCarriable(Abort);
      Arrives(via, 4, t.pending);
      StepAbort(e, pa, t.a, Some(s.c), None);
    }
  }

  // ------------------------------------------------------------ the users' secrets

  ghost function TextOf(pa: Peer, secret: bytes): bytes {
    SecretText(pa.ourFingerprint, pa.theirFingerprint, pa.ssid, secret)
  }

  /** The two users typed the same bytes, or the SHA-256 values of their texts agree modulo q. */
  ghost predicate SecretsMatch(e: Env, pa: Peer, s: Session)
    requires e.Valid()
  {
    || s.secretA == s.secretB
    || FromBytes(e.crypto.sha256(TextOf(pa, s.secretA))) % e.group.q == FromBytes(e.crypto.sha256(TextOf(pa, s.secretB))) % e.group.q
  }

  /** The numbers of a run agree modulo q exactly when the users' secrets match.  In a group with q of
      at least 256 bits that is: when the secrets are equal or SHA-256 collides on two different texts. */
  lemma SecretsCompared(e: Env, pa: Peer, s: Session)
    requires e.Valid()
    ensures var run := s.Run(e, pa); run.x % e.group.q == run.y % e.group.q <==> SecretsMatch(e, pa, s)
    ensures e.group.q >= Pow256(HASH2_LENGTH) ==>
              (SecretsMatch(e, pa, s) <==> s.secretA == s.secretB
                                           || (&& TextOf(pa, s.secretA) != TextOf(pa, s.secretB)
                                               && e.crypto.sha256(TextOf(pa, s.secretA)) == e.crypto.sha256(TextOf(pa, s.secretB))))
  {
    hide SecretText, Pow256, FromBytes, IsPrime;
    var a, b := TextOf(pa, s.secretA), TextOf(pa, s.secretB);
    var i, r, ssid := pa.ourFingerprint, pa.theirFingerprint, pa.ssid;
    HashedSecret(e.crypto, i, r, ssid, s.secretA);
    HashedSecret(e.crypto, i, r, ssid, s.secretB);
    SecretTexts(i, r, ssid, s.secretA, i, r, ssid, s.secretB);
    FromBytesInjective(e.crypto.sha256(a), e.crypto.sha256(b));
    if e.group.q >= Pow256(HASH2_LENGTH) {
      Unreduced(FromBytes(e.crypto.sha256(a)), e.group.q);
      Unreduced(FromBytes(e.crypto.sha256(b)), e.group.q);
    }
  }

  lemma HashedSecret(c: Primitives, i: bytes, r: bytes, ssid: bytes, secret: bytes)
    requires c.Valid()
    ensures SmpSecret(c, i, r, ssid, secret) == FromBytes(c.sha256(SecretText(i, r, ssid, secret)))
  {
  }

  lemma Unreduced(x: nat, q: nat)
    requires x < q
    ensures x % q == x
  {
  }

  /** With ordinary draws it ends by what the two users typed. */
  lemma OrdinaryDraws(e: Env, pa: Peer, s: Session)
    requires e.Valid() && NonDegenerate(e, s.Run(e, pa))
    ensures Decided(e, s.Run(e, pa), true) == if SecretsMatch(e, pa, s) then Agreed else Differed
  {
    hide VerifySmp1, VerifySmp2, VerifySmp3, VerifySmp4, RunState1, RunState2, RunState3, RunMsg4, Run.U, Run.T, Run.W;
    hide Session.Run, SecretsMatch;
    var run := s.Run(e, pa);
    SecretsCompared(e, pa, s);
    AllVerify(e, run);
    Message1Verifies(e, run);
    Message2Verifies(e, run);
    Message3Verifies(e, run);
  }

  lemma AbortCarried()
    ensures Carried(Abort, []) == Some(Abort)
  {
    hide Carried, ToTlv, WellFormed;
    SmallRecordFits(Abort);
    SmpTlvRoundTrip(Abort, []);
  }

  lemma RunMessage4(e: Env, run: Run)
    requires e.Valid()
    ensures GenerateSmp4(e, run.r7, RunState2(e, run), RunState3(e, run).msg) == Some(RunMsg4(e, run))
  {
    hide GenerateSmp4;
    HonestFourth(e, run);
  }
}
