/** The SMP state machine (smp_state_machine.go) over the fields of the smp struct (smp.go). */
module SmpMachine {
  import opened Wire
  import opened ModArith
  import opened DhGroup
  import opened Crypto
  import opened Smp

  datatype State = Expect1 | Expect2 | Expect3 | Expect4 | WaitingForSecret(msg: Msg1)

  datatype Message = First(m1: Msg1) | Second(m2: Msg2) | Third(m3: Msg3) | Fourth(m4: Msg4) | Abort

  datatype Event = AskForSecret | AskForAnswer | InProgress | Success | Failure | Cheated | Error | Aborted

  /** The smp struct: state is None before the first use and after a wipe. */
  datatype Machine = Machine(state: Option<State>, question: Option<bytes>, secret: Option<nat>,
                             s1: Option<State1>, s2: Option<State2>, s3: Option<State3>)

  const WIPED := Machine(None, None, None, None, None, None)

  /** What the conversation around the machine supplies. */
  datatype Peer = Peer(encrypted: bool, ourFingerprint: bytes, theirFingerprint: bytes, ssid: bytes)

  /** Outcome of a call: the new machine, what is sent, what is signalled, and whether an error
      was returned; or a nil dereference. */
  datatype Effect = Panics | Effect(machine: Machine, replies: seq<Message>, events: seq<Event>, failed: bool)

  /** generateSMPSecret */
  function SmpSecret(c: Primitives, initiator: bytes, recipient: bytes, ssid: bytes, secret: bytes): nat {
    FromBytes(c.sha256([1] + initiator + recipient + ssid + secret))
  }

  /** What is hashed for a user's secret: the two fingerprints, the initiator's first, the session id
      and the secret as the user typed it. */
  ghost function SecretText(initiator: bytes, recipient: bytes, ssid: bytes, secret: bytes): bytes {
    [1] + initiator + recipient + ssid + secret
  }

  /** The number compared is, byte for byte, that hash, so two numbers agree exactly when the hashes do. */
  lemma SecretsAgree(c: Primitives, i: bytes, r: bytes, ssid: bytes, secret: bytes, j: bytes, t: bytes, tsid: bytes, tecret: bytes)
    requires c.Valid()
    ensures BigEndian(SmpSecret(c, i, r, ssid, secret), HASH2_LENGTH) == c.sha256(SecretText(i, r, ssid, secret))
    ensures SmpSecret(c, i, r, ssid, secret) == SmpSecret(c, j, t, tsid, tecret)
            <==> c.sha256(SecretText(i, r, ssid, secret)) == c.sha256(SecretText(j, t, tsid, tecret))
  {
    FromBytesRoundTrip(c.sha256(SecretText(i, r, ssid, secret)));
    FromBytesInjective(c.sha256(SecretText(i, r, ssid, secret)), c.sha256(SecretText(j, t, tsid, tecret)));
  }

  /** With fingerprints and session ids of fixed length different secrets, parties or sessions give
      different texts. */
  lemma SecretTexts(i: bytes, r: bytes, ssid: bytes, secret: bytes, j: bytes, t: bytes, tsid: bytes, tecret: bytes)
    requires |i| == |j| && |r| == |t| && |ssid| == |tsid|
    ensures SecretText(i, r, ssid, secret) == SecretText(j, t, tsid, tecret)
            <==> i == j && r == t && ssid == tsid && secret == tecret
  {
    var a, b := SecretText(i, r, ssid, secret), SecretText(j, t, tsid, tecret);
    var k := 1 + |i|;
    var l := k + |r|;
    var m := l + |ssid|;
    assert a[1..k] == i && a[k..l] == r && a[l..m] == ssid && a[m..] == secret;
    assert b[1..k] == j && b[k..l] == t && b[l..m] == tsid && b[m..] == tecret;
  }

  // ------------------------------------------------------------ the steps

  function Ensured(m: Machine): Machine {
    if m.state.None? then m.(state := Some(Expect1)) else m
  }

  function Restart(m: Machine, events: seq<Event>): Effect {
    Effect(m.(state := Some(Expect1)), [Abort], events, false)
  }

  function StartAuthenticate(e: Env, peer: Peer, m: Machine, question: bytes, secret: bytes, rnd: Option<Rand1>): Effect
    requires e.Valid()
  {
    var before := if m.state == Some(Expect1) then [] else [Abort];
    if !peer.encrypted then Effect(m, [], [], true) else
    var x := SmpSecret(e.crypto, peer.ourFingerprint, peer.theirFingerprint, peer.ssid, secret);
    match rnd
    case None => Effect(m.(secret := Some(x)), [], [], true)
    case Some(r) =>
      var s1 := GenerateSmp1(e, r, if question == [] then None else Some(question));
      Effect(m.(secret := Some(x), s1 := Some(s1), state := Some(Expect2)), before + [First(s1.msg)], [], false)
  }

  function Receive1(e: Env, m: Machine, msg: Msg1): Effect
    requires e.Valid()
  {
    if m.state.None? then Panics
    else if m.state != Some(Expect1) then Restart(m, [Error])
    else if !VerifySmp1(e, msg) then Restart(m, [Cheated])
    else
      Effect(m.(state := Some(WaitingForSecret(msg)), question := if msg.question.Some? then msg.question else m.question),
             [], [if msg.question.Some? then AskForAnswer else AskForSecret], false)
  }

  function Continue1(e: Env, peer: Peer, m: Machine, secret: bytes, rnd: Option<Rand2>): Effect
    requires e.Valid()
  {
    if m.state.None? then Panics
    else if !m.state.value.WaitingForSecret? || !peer.encrypted then
      Effect(m.(state := Some(Expect1)), [], [], true)
    else
      var y := SmpSecret(e.crypto, peer.theirFingerprint, peer.ourFingerprint, peer.ssid, secret);
      match rnd
      case None => Restart(m.(secret := Some(y)), [Cheated])
      case Some(r) =>
        var s2 := GenerateSmp2(e, r, y, m.state.value.msg);
        Effect(m.(secret := Some(y), s2 := Some(s2), state := Some(Expect3)), [Second(s2.msg)], [], false)
  }

  function Receive2(e: Env, m: Machine, msg: Msg2, rnd: Option<Rand3>): Effect
    requires e.Valid()
  {
    if m.state.None? then Panics
    else if m.state != Some(Expect2) then Restart(m, [Error])
    else if m.s1.None? then Panics
    else if !VerifySmp2(e, m.s1.value, msg) || rnd.None? then Restart(m, [Cheated])
    else if m.secret.None? then Panics
    else
      match GenerateSmp3(e, rnd.value, m.secret.value, m.s1.value, msg)
      case None => Panics
      case Some(s3) => Effect(m.(s3 := Some(s3), state := Some(Expect4)), [Third(s3.msg)], [InProgress], false)
  }

  function Receive3(e: Env, m: Machine, msg: Msg3, r7: Option<nat>): Effect
    requires e.Valid()
  {
    if m.state.None? then Panics
    else if m.state != Some(Expect3) then Restart(m, [Error])
    else if m.s2.None? then Panics
    else
      match VerifySmp3(e, m.s2.value, msg)
      case None => Panics
      case Some(verified) =>
        if !verified then Restart(m, [Cheated]) else
        match ResponderVerdict(e, m.s2.value, msg)
        case None => Panics
        case Some(equal) =>
          if !equal then Restart(m, [Failure])
          else if r7.None? then Restart(m, [Success, Cheated])
          else
            match GenerateSmp4(e, r7.value, m.s2.value, msg)
            case None => Panics
            case Some(m4) => Effect(WIPED.(state := Some(Expect1)), [Fourth(m4)], [Success], false)
  }

  function Receive4(e: Env, m: Machine, msg: Msg4): Effect
    requires e.Valid()
  {
    if m.state.None? then Panics
    else if m.state != Some(Expect4) then Restart(m, [Error])
    else if m.s1.None? || m.s3.None? then Panics
    else if !VerifySmp4(e, m.s3.value, msg) then Restart(m, [Cheated])
    else if !InitiatorVerdict(e, m.s1.value, m.s3.value, msg) then Restart(m, [Failure])
    else Effect(WIPED.(state := Some(Expect1)), [], [Success], false)
  }

  function ReceiveAbort(m: Machine): Effect {
    Effect(m.(state := Some(Expect1)), [], [Aborted], false)
  }

  /** Everything that can happen to the machine.  None stands for a short random read. */
  datatype Input =
    | Start(question: bytes, secret: bytes, rnd1: Option<Rand1>)
    | Provide(answer: bytes, rnd2: Option<Rand2>)
    | Receive(msg: Message, rnd3: Option<Rand3>, r7: Option<nat>)
    | UserAbort
    | EndSession

  function Step(e: Env, peer: Peer, m: Machine, input: Input): Effect
    requires e.Valid()
  {
    match input
    case Start(question, secret, rnd) => StartAuthenticate(e, peer, Ensured(m), question, secret, rnd)
    case Provide(answer, rnd) => Continue1(e, peer, m, answer, rnd)
    case Receive(First(m1), _, _) => Receive1(e, Ensured(m), m1)
    case Receive(Second(m2), rnd, _) => Receive2(e, Ensured(m), m2, rnd)
    case Receive(Third(m3), _, r7) => Receive3(e, Ensured(m), m3, r7)
    case Receive(Fourth(m4), _, _) => Receive4(e, Ensured(m), m4)
    case Receive(Abort, _, _) => ReceiveAbort(Ensured(m))
    case UserAbort => Restart(m, [])
    case EndSession => Effect(WIPED, [], [], false)
  }

  // ------------------------------------------------------------ the machine as it is run

  /** The smp field of a conversation, updated in place. */
  class Conversation {
    const env: Env
    var peer: Peer
    var state: Option<State>
    var question: Option<bytes>
    var secret: Option<nat>
    var s1: Option<State1>
    var s2: Option<State2>
    var s3: Option<State3>

    constructor (env: Env, peer: Peer)
      ensures this.env == env && this.peer == peer && Smp() == WIPED
    {
      this.env, this.peer := env, peer;
      state, question, secret, s1, s2, s3 := None, None, None, None, None, None;
    }

    function Smp(): Machine
      reads this
    {
      Machine(state, question, secret, s1, s2, s3)
    }

    method Wipe()
      modifies this
      ensures Smp() == WIPED && peer == old(peer)
    {
      state, question, secret, s1, s2, s3 := None, None, None, None, None, None;
    }

    method EnsureSmp()
      modifies this`state
      ensures Smp() == Ensured(old(Smp()))
    {
      if state.None? {
        state := Some(Expect1);
      }
    }

    method Start(question: bytes, mutualSecret: bytes, rnd: Option<Rand1>) returns (replies: seq<Message>, failed: bool)
      requires env.Valid()
      modifies this
      ensures peer == old(peer)
      ensures Effect(Smp(), replies, [], failed) == Step(env, peer, old(Smp()), Input.Start(question, mutualSecret, rnd))
    {
      EnsureSmp();
      var fromStart := state == Some(Expect1);
      if !peer.encrypted {
        return [], true;
      }
      secret := Some(SmpSecret(env.crypto, peer.ourFingerprint, peer.theirFingerprint, peer.ssid, mutualSecret));
      if rnd.None? {
        return [], true;
      }
      var first := GenerateSmp1(env, rnd.value, if question == [] then None else Some(question));
      s1 := Some(first);
      state := Some(Expect2);
      return (if fromStart then [] else [Abort]) + [First(first.msg)], false;
    }

    /** From here on `crashed` is a nil dereference; nothing is said about the fields after one. */
    method ReceiveMessage2(m: Msg2, rnd: Option<Rand3>) returns (crashed: bool, replies: seq<Message>, events: seq<Event>)
      requires env.Valid()
      modifies this
      ensures peer == old(peer)
      ensures crashed <==> Receive2(env, old(Smp()), m, rnd).Panics?
      ensures !crashed ==> Effect(Smp(), replies, events, false) == Receive2(env, old(Smp()), m, rnd)
    {
      hide VerifySmp2, GenerateSmp3;
      if state.None? || (state == Some(Expect2) && s1.None?) {
        return true, [], [];
      }
      if state != Some(Expect2) {
        state := Some(Expect1);
        return false, [Abort], [Error];
      }
      if !VerifySmp2(env, s1.value, m) || rnd.None? {
        state := Some(Expect1);
        return false, [Abort], [Cheated];
      }
      if secret.None? {
        return true, [], [];
      }
      var next := GenerateSmp3(env, rnd.value, secret.value, s1.value, m);
      if next.None? {
        return true, [], [];
      }
      s3 := next;
      state := Some(Expect4);
      return false, [Third(next.value.msg)], [InProgress];
    }

    method ReceiveMessage3(m: Msg3, r7: Option<nat>) returns (crashed: bool, replies: seq<Message>, events: seq<Event>)
      requires env.Valid()
      modifies this
      ensures peer == old(peer)
      ensures crashed <==> Receive3(env, old(Smp()), m, r7).Panics?
      ensures !crashed ==> Effect(Smp(), replies, events, false) == Receive3(env, old(Smp()), m, r7)
    {
      hide VerifySmp3, ResponderVerdict, GenerateSmp4;
      if state.None? || (state == Some(Expect3) && s2.None?) {
        return true, [], [];
      }
      if state != Some(Expect3) {
        state := Some(Expect1);
        return false, [Abort], [Error];
      }
      var verified := VerifySmp3(env, s2.value, m);
      if verified.None? {
        return true, [], [];
      }
      if !verified.value {
        state := Some(Expect1);
        return false, [Abort], [Cheated];
      }
      var equal := ResponderVerdict(env, s2.value, m);
      if equal.None? {
        return true, [], [];
      }
      if !equal.value {
        state := Some(Expect1);
        return false, [Abort], [Failure];
      }
      if r7.None? {
        state := Some(Expect1);
        return false, [Abort], [Success, Cheated];
      }
      var m4 := GenerateSmp4(env, r7.value, s2.value, m);
      if m4.None? {
        return true, [], [];
      }
      Wipe();
      state := Some(Expect1);
      return false, [Fourth(m4.value)], [Success];
    }

    method ReceiveMessage4(m: Msg4) returns (crashed: bool, replies: seq<Message>, events: seq<Event>)
      requires env.Valid()
      modifies this
      ensures peer == old(peer)
      ensures crashed <==> Receive4(env, old(Smp()), m).Panics?
      ensures !crashed ==> Effect(Smp(), replies, events, false) == Receive4(env, old(Smp()), m)
    {
      hide VerifySmp4, InitiatorVerdict;
      if state.None? || (state == Some(Expect4) && (s1.None? || s3.None?)) {
        return true, [], [];
      }
      if state != Some(Expect4) {
        state := Some(Expect1);
        return false, [Abort], [Error];
      }
      if !VerifySmp4(env, s3.value, m) {
        state := Some(Expect1);
        return false, [Abort], [Cheated];
      }
      if !InitiatorVerdict(env, s1.value, s3.value, m) {
        state := Some(Expect1);
        return false, [Abort], [Failure];
      }
      Wipe();
      state := Some(Expect1);
      return false, [], [Success];
    }

    method ContinueMessage1(mutualSecret: bytes, rnd: Option<Rand2>)
      returns (crashed: bool, replies: seq<Message>, events: seq<Event>, failed: bool)
      requires env.Valid()
      modifies this
      ensures peer == old(peer)
      ensures crashed <==> Continue1(env, peer, old(Smp()), mutualSecret, rnd).Panics?
      ensures !crashed ==> Effect(Smp(), replies, events, failed) == Continue1(env, peer, old(Smp()), mutualSecret, rnd)
    {
      hide GenerateSmp2;
      if state.None? {
        return true, [], [], false;
      }
      if !state.value.WaitingForSecret? || !peer.encrypted {
        state := Some(Expect1);
        return false, [], [], true;
      }
      var y := SmpSecret(env.crypto, peer.theirFingerprint, peer.ourFingerprint, peer.ssid, mutualSecret);
      secret := Some(y);
      if rnd.None? {
        state := Some(Expect1);
        return false, [Abort], [Cheated], false;
      }
      var next := GenerateSmp2(env, rnd.value, y, state.value.msg);
      s2 := Some(next);
      state := Some(Expect3);
      return false, [Second(next.msg)], [], false;
    }

    method ReceiveMessage1(m: Msg1) returns (crashed: bool, replies: seq<Message>, events: seq<Event>)
      requires env.Valid()
      modifies this
      ensures peer == old(peer)
      ensures crashed <==> Receive1(env, old(Smp()), m).Panics?
      ensures !crashed ==> Effect(Smp(), replies, events, false) == Receive1(env, old(Smp()), m)
    {
      hide VerifySmp1;
      if state.None? {
        return true, [], [];
      }
      if state != Some(Expect1) {
        state := Some(Expect1);
        return false, [Abort], [Error];
      }
      if !VerifySmp1(env, m) {
        state := Some(Expect1);
        return false, [Abort], [Cheated];
      }
      crashed, replies := false, [];
      if m.question.Some? {
        question := m.question;
        events := [AskForAnswer];
      } else {
        events := [AskForSecret];
      }
      state := Some(WaitingForSecret(m));
    }

    method AbortSmp() returns (replies: seq<Message>)
      modifies this
      ensures peer == old(peer) && Effect(Smp(), replies, [], false) == Restart(old(Smp()), [])
    {
      state := Some(Expect1);
      return [Abort];
    }

    /** A message: only an abort is not handed to the current state. */
    method ReceiveSmp(msg: Message, rnd3: Option<Rand3>, r7: Option<nat>)
      returns (crashed: bool, replies: seq<Message>, events: seq<Event>)
      requires env.Valid()
      modifies this
      ensures peer == old(peer) && (crashed <==> Step(env, peer, old(Smp()), Receive(msg, rnd3, r7)).Panics?)
      ensures !crashed ==> Effect(Smp(), replies, events, false) == Step(env, peer, old(Smp()), Receive(msg, rnd3, r7))
    {
      hide Receive1, Receive2, Receive3, Receive4;
      EnsureSmp();
      match msg {
        case First(m1) => crashed, replies, events := ReceiveMessage1(m1);
        case Second(m2) => crashed, replies, events := ReceiveMessage2(m2, rnd3);
        case Third(m3) => crashed, replies, events := ReceiveMessage3(m3, r7);
        case Fourth(m4) => crashed, replies, events := ReceiveMessage4(m4);
        case Abort =>
          state := Some(Expect1);
          return false, [], [Aborted];
      }
    }

    /** Everything that happens to the machine, as the step function says. */
    method Handle(input: Input) returns (crashed: bool, replies: seq<Message>, events: seq<Event>, failed: bool)
      requires env.Valid()
      modifies this
      ensures peer == old(peer) && (crashed <==> Step(env, peer, old(Smp()), input).Panics?)
      ensures !crashed ==> Effect(Smp(), replies, events, failed) == Step(env, peer, old(Smp()), input)
    {
      hide Continue1, Receive1, Receive2, Receive3, Receive4;
      crashed, replies, events, failed := false, [], [], false;
      match input {
        case Start(question, secret, rnd) => replies, failed := Start(question, secret, rnd);
        case Provide(answer, rnd) => crashed, replies, events, failed := ContinueMessage1(answer, rnd);
        case Receive(msg, rnd3, r7) => crashed, replies, events := ReceiveSmp(msg, rnd3, r7);
        case UserAbort => replies := AbortSmp();
        case EndSession => Wipe();
      }
    }
  }

  // ------------------------------------------------------------ coherence

  ghost predicate BuiltFirst(e: Env, s1: State1)
    requires e.Valid()
  {
    s1 == GenerateSmp1(e, s1.rnd, s1.msg.question)
  }

  ghost predicate BuiltSecond(e: Env, s2: State2, m1: Msg1)
    requires e.Valid()
  {
    VerifySmp1(e, m1) && s2 == GenerateSmp2(e, s2.rnd, s2.y, m1)
  }

  ghost predicate BuiltThird(e: Env, s1: State1, s3: State3, m2: Msg2)
    requires e.Valid()
  {
    VerifySmp2(e, s1, m2) && GenerateSmp3(e, s3.rnd, s3.x, s1, m2) == Some(s3)
  }

  /** What each state promises about the stored values: they are those of the current attempt,
      built from verified messages. */
  ghost predicate Built(e: Env, m: Machine)
    requires e.Valid()
  {
    match m.state
    case None | Some(Expect1) => true
    case Some(Expect2) => m.secret.Some? && m.s1.Some? && BuiltFirst(e, m.s1.value)
    case Some(WaitingForSecret(m1)) => VerifySmp1(e, m1)
    case Some(Expect3) => m.s2.Some? && exists m1 :: BuiltSecond(e, m.s2.value, m1)
    case Some(Expect4) =>
      && m.s1.Some? && BuiltFirst(e, m.s1.value)
      && m.s3.Some? && exists m2 :: BuiltThird(e, m.s1.value, m.s3.value, m2)
  }

  /** And from the secret that is stored now. */
  ghost predicate Coherent(e: Env, m: Machine)
    requires e.Valid()
  {
    && Built(e, m)
    && (m.state == Some(Expect3) ==> m.secret == Some(m.s2.value.y))
    && (m.state == Some(Expect4) ==> m.secret == Some(m.s3.value.x))
  }

  /** The one input that can break coherence: starting again replaces the secret before the
      random read, and a short read then keeps the old state. */
  predicate FailedRestart(e: Env, peer: Peer, m: Machine, input: Input)
  {
    && input.Start? && input.rnd1.None? && peer.encrypted
    && (m.state == Some(Expect3) || m.state == Some(Expect4))
    && m.secret != Some(SmpSecret(e.crypto, peer.ourFingerprint, peer.theirFingerprint, peer.ssid, input.secret))
  }

  lemma StepBuilt(e: Env, peer: Peer, m: Machine, input: Input)
    requires e.Valid() && Built(e, m) && Step(e, peer, m, input).Effect?
    ensures Built(e, Step(e, peer, m, input).machine)
  {
    hide VerifySmp1, VerifySmp2, VerifySmp3, VerifySmp4, ResponderVerdict, InitiatorVerdict;
    hide GenerateSmp2, GenerateSmp3, GenerateSmp4, SmpSecret;
    var m' := Step(e, peer, m, input).machine;
    match input
    case Start(question, secret, Some(r)) =>
      if peer.encrypted {
        assert BuiltFirst(e, m'.s1.value);
      }
    case Provide(answer, rnd) =>
      ProvideBuilt(e, peer, m, answer, rnd);
    case Receive(Second(m2), rnd, _) =>
      if m'.state == Some(Expect4) {
        SecondBuilt(e, m, m2, rnd);
      }
    case _ =>
  }

  lemma ProvideBuilt(e: Env, peer: Peer, m: Machine, answer: bytes, rnd: Option<Rand2>)
    requires e.Valid() && Built(e, m) && Continue1(e, peer, m, answer, rnd).Effect?
    ensures Built(e, Continue1(e, peer, m, answer, rnd).machine)
  {
    hide VerifySmp1, SmpSecret;
    var m' := Continue1(e, peer, m, answer, rnd).machine;
    if m'.state == Some(Expect3) {
      assert BuiltSecond(e, m'.s2.value, m.state.value.msg);
    }
  }

  lemma SecondBuilt(e: Env, m: Machine, m2: Msg2, rnd: Option<Rand3>)
    requires e.Valid() && Built(e, m)
    requires Receive2(e, m, m2, rnd).Effect? && Receive2(e, m, m2, rnd).machine.state == Some(Expect4)
    ensures Built(e, Receive2(e, m, m2, rnd).machine)
  {
    hide VerifySmp2, BuiltFirst;
    var m' := Receive2(e, m, m2, rnd).machine;
    ThirdKeepsInputs(e, rnd.value, m.secret.value, m.s1.value, m2);
    assert BuiltThird(e, m'.s1.value, m'.s3.value, m2);
  }

  /** Every other step keeps coherence, and that one never does. */
  lemma StepCoherent(e: Env, peer: Peer, m: Machine, input: Input)
    requires e.Valid() && Coherent(e, m) && Step(e, peer, m, input).Effect?
    ensures Coherent(e, Step(e, peer, m, input).machine) <==> !FailedRestart(e, peer, m, input)
  {
    hide VerifySmp1, VerifySmp2, VerifySmp3, VerifySmp4, ResponderVerdict, InitiatorVerdict;
    hide GenerateSmp1, GenerateSmp2, GenerateSmp3, GenerateSmp4, SmpSecret, Built;
    StepBuilt(e, peer, m, input);
    BuiltHolds(e, m);
    BuiltHolds(e, Step(e, peer, m, input).machine);
    match input
    case Provide(answer, rnd) =>
      if m.state.value.WaitingForSecret? && peer.encrypted && rnd.Some? {
        SecondKeepsSecret(e, rnd.value, SmpSecret(e.crypto, peer.theirFingerprint, peer.ourFingerprint, peer.ssid, answer),
                          m.state.value.msg);
      }
    case Receive(Second(m2), rnd, _) =>
      if m.state == Some(Expect2) && VerifySmp2(e, m.s1.value, m2) && rnd.Some? {
        ThirdKeepsInputs(e, rnd.value, m.secret.value, m.s1.value, m2);
      }
    case _ =>
  }

  lemma BuiltHolds(e: Env, m: Machine)
    requires e.Valid() && Built(e, m)
    ensures m.state == Some(Expect2) || m.state == Some(Expect4) ==> m.s1.Some?
    ensures m.state == Some(Expect2) ==> m.secret.Some?
    ensures (m.state == Some(Expect3) ==> m.s2.Some?) && (m.state == Some(Expect4) ==> m.s3.Some?)
  {
    hide BuiltFirst, BuiltSecond, BuiltThird, VerifySmp1;
  }

  lemma SecondKeepsSecret(e: Env, rnd: Rand2, y: nat, m1: Msg1)
    requires e.Valid()
    ensures GenerateSmp2(e, rnd, y, m1).y == y
  {
    hide MulMod, Group.Exp, Challenge, ProofResponse;
  }

  lemma ThirdKeepsInputs(e: Env, rnd: Rand3, x: nat, s1: State1, m2: Msg2)
    requires e.Valid() && GenerateSmp3(e, rnd, x, s1, m2).Some?
    ensures GenerateSmp3(e, rnd, x, s1, m2).value.rnd == rnd && GenerateSmp3(e, rnd, x, s1, m2).value.x == x
  {
    hide DivMod, MulMod, Group.Exp, Challenge, ProofResponse;
  }

  // ------------------------------------------------------------ whole runs

  /** A run from the wiped machine: ms[i + 1] is the machine after input i, with the conversation as
      it was then. */
  ghost predicate IsRun(e: Env, ps: seq<Peer>, ins: seq<Input>, ms: seq<Machine>)
    requires e.Valid()
  {
    && |ms| == |ins| + 1 && |ps| == |ins| && ms[0] == WIPED
    && forall i {:trigger ins[i]} :: 0 <= i < |ins| ==> StepTo(e, ps[i], ms[i], ins[i], ms[i + 1])
  }

  ghost predicate StepTo(e: Env, peer: Peer, m: Machine, input: Input, m': Machine)
    requires e.Valid()
  {
    Step(e, peer, m, input).Effect? && Step(e, peer, m, input).machine == m'
  }

  lemma RunStep(e: Env, ps: seq<Peer>, ins: seq<Input>, ms: seq<Machine>, n: nat)
    requires e.Valid() && IsRun(e, ps, ins, ms) && 0 < n < |ms|
    ensures n <= |ins| == |ps| && StepTo(e, ps[n - 1], ms[n - 1], ins[n - 1], ms[n])
  {
    hide StepTo;
  }

  lemma RunStarts(e: Env, ps: seq<Peer>, ins: seq<Input>, ms: seq<Machine>)
    requires e.Valid() && IsRun(e, ps, ins, ms)
    ensures |ms| == |ins| + 1 == |ps| + 1 && ms[0] == WIPED && Coherent(e, ms[0])
  {
    hide StepTo;
  }

  lemma {:induction false} RunBuilt(e: Env, ps: seq<Peer>, ins: seq<Input>, ms: seq<Machine>, n: nat)
    requires e.Valid() && IsRun(e, ps, ins, ms) && n < |ms|
    ensures Built(e, ms[n])
  {
    hide *;
    if n == 0 {
      RunStarts(e, ps, ins, ms);
      CoherentBuilt(e, ms[0]);
    } else {
      RunStep(e, ps, ins, ms, n);
      RunBuilt(e, ps, ins, ms, n - 1);
      StepToBuilt(e, ps[n - 1], ms[n - 1], ins[n - 1], ms[n]);
    }
  }

  lemma CoherentBuilt(e: Env, m: Machine)
    requires e.Valid() && Coherent(e, m)
    ensures Built(e, m)
  {
  }

  lemma StepToBuilt(e: Env, peer: Peer, m: Machine, input: Input, m': Machine)
    requires e.Valid() && Built(e, m) && StepTo(e, peer, m, input, m')
    ensures Built(e, m')
  {
    hide Step, Built;
    StepBuilt(e, peer, m, input);
  }

  ghost predicate NoFailedRestart(e: Env, ps: seq<Peer>, ins: seq<Input>, ms: seq<Machine>, n: nat)
    requires n <= |ins| == |ps| < |ms|
  {
    forall i {:trigger ins[i]} :: 0 <= i < n ==> !FailedRestart(e, ps[i], ms[i], ins[i])
  }

  /** Up to any point of any run every state was coherent exactly if there was no failed restart. */
  lemma {:induction false} RunCoherent(e: Env, ps: seq<Peer>, ins: seq<Input>, ms: seq<Machine>, n: nat)
    requires e.Valid() && IsRun(e, ps, ins, ms) && n < |ms|
    ensures n <= |ins| == |ps| < |ms|
    ensures (forall i :: 0 <= i <= n ==> Coherent(e, ms[i])) <==> NoFailedRestart(e, ps, ins, ms, n)
  {
    hide *;
    RunStarts(e, ps, ins, ms);
    if n == 0 {
      NothingFailed(e, ps, ins, ms);
    } else {
      RunStep(e, ps, ins, ms, n);
      RunCoherent(e, ps, ins, ms, n - 1);
      NoneFailedBefore(e, ps, ins, ms, n);
      if Coherent(e, ms[n - 1]) {
        StepToCoherent(e, ps[n - 1], ms[n - 1], ins[n - 1], ms[n]);
      }
      assert (forall i :: 0 <= i <= n ==> Coherent(e, ms[i]))
             <==> (forall i :: 0 <= i <= n - 1 ==> Coherent(e, ms[i])) && Coherent(e, ms[n]);
    }
  }

  lemma NothingFailed(e: Env, ps: seq<Peer>, ins: seq<Input>, ms: seq<Machine>)
    requires |ins| == |ps| < |ms|
    ensures NoFailedRestart(e, ps, ins, ms, 0)
  {
  }

  lemma NoneFailedBefore(e: Env, ps: seq<Peer>, ins: seq<Input>, ms: seq<Machine>, n: nat)
    requires 0 < n <= |ins| == |ps| < |ms|
    ensures NoFailedRestart(e, ps, ins, ms, n) <==>
            NoFailedRestart(e, ps, ins, ms, n - 1) && !FailedRestart(e, ps[n - 1], ms[n - 1], ins[n - 1])
  {
    hide FailedRestart;
  }

  lemma StepToCoherent(e: Env, peer: Peer, m: Machine, input: Input, m': Machine)
    requires e.Valid() && Coherent(e, m) && StepTo(e, peer, m, input, m')
    ensures Coherent(e, m') <==> !FailedRestart(e, peer, m, input)
  {
    hide Step, Coherent, FailedRestart;
    StepCoherent(e, peer, m, input);
  }

  /** The run of a responder that answers and then starts an attempt of its own with a failing read. */
  ghost function Restarting(m1: Msg1, answer: bytes, rnd: Rand2, question: bytes, secret: bytes): seq<Input> {
    [Receive(First(m1), None, None), Provide(answer, Some(rnd)), Start(question, secret, None)]
  }

  lemma ReachesThird(e: Env, peer: Peer, m1: Msg1, answer: bytes, rnd: Rand2, waiting: Machine, replied: Machine)
    requires e.Valid() && peer.encrypted && VerifySmp1(e, m1)
    requires waiting == WIPED.(state := Some(WaitingForSecret(m1)), question := m1.question)
    requires Step(e, peer, waiting, Provide(answer, Some(rnd))).Effect?
    requires replied == Step(e, peer, waiting, Provide(answer, Some(rnd))).machine
    ensures Coherent(e, replied) && replied.state == Some(Expect3)
    ensures replied.secret == Some(SmpSecret(e.crypto, peer.theirFingerprint, peer.ourFingerprint, peer.ssid, answer))
  {
    hide VerifySmp1, GenerateSmp2, SmpSecret;
    StepCoherent(e, peer, waiting, Provide(answer, Some(rnd)));
  }

  /** A failed restart is reached, from any verified first message and any two answers that hash to
      different secrets: the machine still expects a third message, but for the other secret. */
  lemma FailedRestartReached(e: Env, peer: Peer, m1: Msg1, answer: bytes, rnd: Rand2, question: bytes, secret: bytes)
    requires e.Valid() && peer.encrypted && VerifySmp1(e, m1)
    requires SmpSecret(e.crypto, peer.theirFingerprint, peer.ourFingerprint, peer.ssid, answer)
             != SmpSecret(e.crypto, peer.ourFingerprint, peer.theirFingerprint, peer.ssid, secret)
    ensures var ins := Restarting(m1, answer, rnd, question, secret);
            exists ms: seq<Machine> :: && IsRun(e, [peer, peer, peer], ins, ms) && FailedRestart(e, peer, ms[2], ins[2])
                         && ms[3].state == ms[2].state == Some(Expect3) && ms[3].s2 == ms[2].s2
                         && Coherent(e, ms[2]) && !Coherent(e, ms[3])
  {
    hide VerifySmp1, GenerateSmp2, SmpSecret;
    var ins := Restarting(m1, answer, rnd, question, secret);
    var waiting := Step(e, peer, WIPED, ins[0]).machine;
    var replied := Step(e, peer, waiting, ins[1]).machine;
    var restarted := Step(e, peer, replied, ins[2]).machine;
    var ms := [WIPED, waiting, replied, restarted];
    assert IsRun(e, [peer, peer, peer], ins, ms) by { hide Built, Coherent; }
    ReachesThird(e, peer, m1, answer, rnd, waiting, replied);
    StepCoherent(e, peer, replied, ins[2]);
  }
}
