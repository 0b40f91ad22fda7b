/** Two parties of one session and the messages between them.  The network may lose, repeat and
    reorder: at any time any message ever sent may be delivered to the other side. */
module Ratchet {
  import opened Wire
  import opened DhGroup
  import opened Crypto
  import opened Headers
  import opened Tlvs
  import opened KeyManagement
  import opened DataMessages
  import opened Session
  import opened PartyRuns

  /** A sent message, with the text and records it was made from. */
  datatype Packet = Packet(msg: DataMsg, message: bytes, tlvs: seq<Tlv>)

  /** One side: its conversation and all DH key pairs it ever used, the pair with id i at i - 1. */
  datatype Side = Side(party: Party, pairs: seq<KeyPair>)

  datatype System = System(a: Side, b: Side, ab: seq<Packet>, ba: seq<Packet>) {
    function Flip(): System { System(b, a, ba, ab) }
  }

  datatype Move =
    | Say(message: bytes, flag: byte, tlvs: seq<Tlv>)
    | Deliver(index: nat, rnd: Option<nat>)

  /** Side a sends. */
  ghost function SayStep(e: Setting, s: System, message: bytes, flag: byte, tlvs: seq<Tlv>): System
    requires e.Valid()
  {
    match Send(e, s.a.party, message, flag, tlvs)
    case Refused => s
    case Sent(p, m, _) => s.(a := s.a.(party := p), ab := s.ab + [Packet(m, message, tlvs)])
  }

  ghost function Arriving(e: Setting, s: System, i: nat, rnd: Option<nat>): (Party, Outcome)
    requires e.Valid() && i < |s.ab|
  {
    Receive(e, s.b.party, OnWire(e, s.a.party.tags, s.ab[i].msg), rnd)
  }

  /** A message from a reaches side b; a new key pair of b joins its list. */
  ghost function DeliverStep(e: Setting, s: System, i: nat, rnd: Option<nat>): System
    requires e.Valid() && i < |s.ab|
  {
    var (p, out) := Arriving(e, s, i, rnd);
    var grown := out.Accepted? && out.received.recipientKeyId == s.b.party.keys.ourKeyId && rnd.Some?;
    s.(b := Side(p, if grown then s.b.pairs + [NewPair(e.group, rnd.value)] else s.b.pairs))
  }

  /** Side a moves: it sends, or a message of its peer reaches it. */
  ghost function MoveA(e: Setting, s: System, m: Move): System
    requires e.Valid() && (m.Deliver? ==> m.index < |s.ba|)
  {
    match m
    case Say(message, flag, tlvs) => SayStep(e, s, message, flag, tlvs)
    case Deliver(i, rnd) => DeliverStep(e, s.Flip(), i, rnd).Flip()
  }

  /** Records are honest and no length overflows its 32-bit field. */
  ghost predicate Fits(e: Setting, s: System, m: Move)
    requires e.Valid()
  {
    m.Say? ==>
      && (forall t <- m.tlvs :: WellFormed(t))
      && (var out := Send(e, s.a.party, m.message, m.flag, m.tlvs);
          out.Sent? ==> |out.msg.encrypted| < WORD_LIMIT && HASH_LENGTH * |out.msg.oldMacKeys| < WORD_LIMIT)
  }

  ghost predicate NextState(e: Setting, s: System, s': System)
    requires e.Valid()
  {
    || (exists m: Move :: (m.Deliver? ==> m.index < |s.ba|) && Fits(e, s, m) && s' == MoveA(e, s, m))
    || (exists m: Move :: (m.Deliver? ==> m.index < |s.ab|) && Fits(e, s.Flip(), m) && s' == MoveA(e, s.Flip(), m).Flip())
  }

  /** A session as the key exchange leaves it: key ids 2 and 1 on both sides. */
  ghost predicate Fresh(e: Setting, a: Side, b: Side)
    requires e.Valid()
  {
    && |a.pairs| == 2 && (forall k <- a.pairs :: IsKeyPair(e.group, k)) && |b.pairs| >= 1
    && a.party.encrypted && ValidTags(a.party.tags) && b.party.tags == a.party.tags.Flip()
    && a.party.keys == Keys(2, 1, Some(a.pairs[1]), Some(a.pairs[0]), Some(b.pairs[0].pub), None, [], [], [])
  }

  ghost predicate Initial(e: Setting, s: System)
    requires e.Valid()
  {
    Fresh(e, s.a, s.b) && Fresh(e, s.b, s.a) && s.ab == [] && s.ba == []
  }

  ghost predicate IsRun(e: Setting, ss: seq<System>)
    requires e.Valid()
  {
    && |ss| > 0 && Initial(e, ss[0])
    && forall i, j {:trigger ss[i], ss[j]} :: 0 <= i && j == i + 1 < |ss| ==> NextState(e, ss[i], ss[j])
  }

  /** The assumptions on primitives, group and first state can be met together. */
  lemma RunsExist()
    ensures exists e: Setting, s: System :: e.Valid() && Initial(e, s) && IsRun(e, [s])
  {
    var crypto := Primitives(d => Zeros(HASH_LENGTH), d => Zeros(HASH2_LENGTH), (k, d) => Zeros(HASH_LENGTH),
                             (k, d) => Zeros(HASH2_LENGTH), (k, iv, n) => Zeros(n), (k, h, s) => true);
    SmallGroup();
    var e := Setting(crypto, Group(7, 3), V3);
    var pa, pb := [NewPair(e.group, 1), NewPair(e.group, 2)], [NewPair(e.group, 2), NewPair(e.group, 1)];
    var tags := Tags(MIN_VALID_TAG, MIN_VALID_TAG + 1);
    var a := Side(Party(true, tags, Keys(2, 1, Some(pa[1]), Some(pa[0]), Some(pb[0].pub), None, [], [], [])), pa);
    var b := Side(Party(true, tags.Flip(), Keys(2, 1, Some(pb[1]), Some(pb[0]), Some(pa[0].pub), None, [], [], [])), pb);
    var s := System(a, b, [], []);
    hide Group.Exp;
    assert e.Valid() && Initial(e, s) && IsRun(e, [s]);
  }

  // ------------------------------------------------------------ the invariant

  /** a's own keys are its two latest pairs. */
  ghost predicate OwnKeys(e: Setting, a: Side)
    requires e.Valid()
  {
    var k, n := a.party.keys, |a.pairs|;
    && 2 <= n < WORD_LIMIT && k.ourKeyId == n
    && k.ourCurrent == Some(a.pairs[n - 1]) && k.ourPrevious == Some(a.pairs[n - 2])
    && (forall p <- a.pairs :: IsKeyPair(e.group, p))
  }

  /** b is at most one rotation behind a, and holds the public values that go with its ids. */
  ghost predicate InStep(a: Side, b: Side) {
    var n, t := |a.pairs|, b.party.keys.theirKeyId;
    && n - 1 <= t <= n && t >= 1
    && b.party.keys.theirCurrent == Some(a.pairs[t - 1].pub)
    && b.party.keys.theirPrevious == if t == 1 then None else Some(a.pairs[t - 2].pub)
  }

  /** The message made from these keys, text and counters. */
  ghost function Made(e: Setting, tags: Tags, own: KeyPair, their: nat, p: Packet, y: nat): DataMsg
    requires e.Valid()
  {
    var sk := SessionKeysFrom(e.crypto, e.group, own.priv, own.pub, their);
    var m := p.msg;
    Sign(e.crypto, sk.sendingMac, MessageHeader(e.version, TYPE_DATA, tags),
         DataMsg(m.flag, m.senderKeyId, m.recipientKeyId, y, m.ctr,
                 Encrypt(e.crypto, sk.sendingAes, m.ctr, Plain(p.message, p.tlvs)), [], m.oldMacKeys))
  }

  /** A message of a to b: sent under ids both sides know, with a's next public value and a counter
      a has used up. */
  ghost predicate Authentic(e: Setting, a: Side, b: Side, p: Packet)
    requires e.Valid()
  {
    var s, r := p.msg.senderKeyId, p.msg.recipientKeyId;
    && 1 <= s < |a.pairs| && 1 <= r <= a.party.keys.theirKeyId && r <= |b.pairs|
    && p.msg == Made(e, a.party.tags, a.pairs[s - 1], b.pairs[r - 1].pub, p, a.pairs[s].pub)
    && 1 <= p.msg.ctr < NextOf(a.party.keys, s, r)
    && Sendable(p.msg) && (forall t <- p.tlvs :: WellFormed(t))
  }

  ghost predicate KeyLengths(k: Keys) {
    (forall u <- k.macs :: |u.key| == HASH_LENGTH) && (forall x <- k.oldMacs :: |x| == HASH_LENGTH)
  }

  ghost predicate CountersBehind(a: Side, b: Side, sent: nat) {
    forall o, t :: CounterOf(b.party.keys.counters, t, o).theirs < NextOf(a.party.keys, o, t) <= 1 + sent
  }

  /** The invariant for one direction, from a to b. */
  ghost predicate Half(e: Setting, s: System)
    requires e.Valid()
  {
    && s.a.party.encrypted && ValidTags(s.a.party.tags) && s.b.party.tags == s.a.party.tags.Flip()
    && OwnKeys(e, s.a) && InStep(s.a, s.b) && KeyLengths(s.a.party.keys)
    && CountersBehind(s.a, s.b, |s.ab|)
    && forall p <- s.ab :: Authentic(e, s.a, s.b, p)
  }

  ghost predicate Inv(e: Setting, s: System)
    requires e.Valid()
  {
    Half(e, s) && Half(e, s.Flip())
  }

  /** Within the widths of the source's integers: key ids are uint32, counters uint64. */
  ghost predicate Within(s: System) {
    && |s.a.pairs| < WORD_LIMIT && |s.b.pairs| < WORD_LIMIT
    && |s.ab| < LONG_LIMIT - 1 && |s.ba| < LONG_LIMIT - 1
  }

  // ------------------------------------------------------------ lengths of MAC keys

  lemma DerivedKeyLengths(c: Primitives, gr: Group, k: Keys, our: uint32, their: uint32)
    requires c.Valid() && gr.p > 0 && KeyLengths(k) && DeriveKeys(c, gr, k, our, their).Some?
    ensures KeyLengths(DeriveKeys(c, gr, k, our, their).value.0)
  {
  }

  lemma ConservedKeyLengths(k: Keys, k': Keys, moved: seq<MacUse>)
    requires KeyLengths(k) && Conserves(k, k', moved)
    ensures KeyLengths(k')
  {
    forall u <- k'.macs
      ensures |u.key| == HASH_LENGTH
    {
      assert u in multiset(k'.macs);
      assert u in multiset(k.macs);
    }
    forall u <- moved
      ensures |u.key| == HASH_LENGTH
    {
      assert u in multiset(moved);
      assert u in multiset(k.macs);
    }
  }

  lemma ProcessKeyLengths(e: Setting, p: Party, header: bytes, body: bytes, rnd: Option<nat>)
    requires e.Valid() && KeyLengths(p.keys)
    ensures KeyLengths(Process(e, p, header, body, rnd).0.keys)
  {
    ProcessMacs(e, p, header, body, rnd);
    var d := Derived(e, p, body);
    if d.Some? {
      DerivedLengths(e, p, body);
      hide Process, Derived, KeyLengths, Conserves, Rotated, Moved;
      RotationConserves(e, d.value.0, d.value.1, rnd);
      ConservedKeyLengths(d.value.0, Rotated(e, d.value.0, d.value.1, rnd), Moved(e, d.value.0, d.value.1, rnd));
      SameMacLengths(d.value.0, Process(e, p, header, body, rnd).0.keys);
    }
  }

  lemma SameMacLengths(k: Keys, k': Keys)
    requires KeyLengths(k)
    ensures k'.macs == k.macs && k'.oldMacs == k.oldMacs ==> KeyLengths(k')
  {
  }

  lemma DerivedLengths(e: Setting, p: Party, body: bytes)
    requires e.Valid() && KeyLengths(p.keys) && Derived(e, p, body).Some?
    ensures KeyLengths(Derived(e, p, body).value.0)
  {
    hide KeyLengths, DeriveKeys, Counted, SetCounter, CounterOf;
    var m := Deserialize(body).value.msg;
    var k1 := CheckCounter(p.keys, m.recipientKeyId, m.senderKeyId, m.ctr).0;
    SameMacLengths(p.keys, k1);
    DerivedKeyLengths(e.crypto, e.group, k1, m.recipientKeyId, m.senderKeyId);
  }

  // ------------------------------------------------------------ sending

  /** A side in step with its peer can always send, and sends an authentic message. */
  lemma SendShape(e: Setting, a: Side, b: Side, message: bytes, flag: byte, tlvs: seq<Tlv>)
    requires e.Valid() && a.party.encrypted && OwnKeys(e, a) && InStep(b, a)
    ensures var out := Send(e, a.party, message, flag, tlvs);
            var n, t := |a.pairs|, a.party.keys.theirKeyId;
            && out.Sent? && out.party.tags == a.party.tags && out.party.encrypted
            && out.msg.senderKeyId == n - 1 && out.msg.recipientKeyId == t
            && out.msg == Made(e, a.party.tags, a.pairs[n - 2], b.pairs[t - 1].pub, Packet(out.msg, message, tlvs), a.pairs[n - 1].pub)
            && out.extra == SessionKeysFrom(e.crypto, e.group, a.pairs[n - 2].priv, a.pairs[n - 2].pub, b.pairs[t - 1].pub).extra
            && |out.msg.authenticator| == HASH_LENGTH
  {
    hide CounterOf, SetCounter, Encrypt, SessionKeysFrom, SerializeUnsigned, MessageHeader;
    var n, t := |a.pairs|, a.party.keys.theirKeyId;
    assert Dec(n) == n - 1;
    assert PickOurs(a.party.keys, n - 1) == Some(a.pairs[n - 2]);
    assert PickTheirs(a.party.keys, t) == Some(b.pairs[t - 1].pub);
  }

  lemma SendKeyLengths(e: Setting, p: Party, message: bytes, flag: byte, tlvs: seq<Tlv>)
    requires e.Valid() && KeyLengths(p.keys) && Send(e, p, message, flag, tlvs).Sent?
    ensures KeyLengths(Send(e, p, message, flag, tlvs).party.keys)
    ensures forall x <- Send(e, p, message, flag, tlvs).msg.oldMacKeys :: |x| == HASH_LENGTH
  {
    hide PickOurs, PickTheirs, CounterOf, SetCounter, Encrypt, SerializeUnsigned, MessageHeader;
    DerivedKeyLengths(e.crypto, e.group, p.keys, Dec(p.keys.ourKeyId), p.keys.theirKeyId);
    hide SessionKeysFrom;
  }

  lemma {:induction false} ConcatLength(keys: seq<bytes>)
    requires forall k <- keys :: |k| == HASH_LENGTH
    ensures |Concat(keys)| == HASH_LENGTH * |keys|
  {
    SplitKeysRoundTrip(keys);
  }

  lemma PublicFits(gr: Group, k: KeyPair)
    requires gr.Valid() && IsKeyPair(gr, k)
    ensures FitsMpi(k.pub)
  {
    NatBytesMonotone(k.pub, gr.p);
  }

  /** The new message is authentic as soon as its lengths fit. */
  lemma NewPacket(e: Setting, a: Side, b: Side, message: bytes, flag: byte, tlvs: seq<Tlv>)
    requires e.Valid() && a.party.encrypted && OwnKeys(e, a) && InStep(b, a) && KeyLengths(a.party.keys)
    requires forall t <- tlvs :: WellFormed(t)
    requires var out := Send(e, a.party, message, flag, tlvs);
             out.Sent? && |out.msg.encrypted| < WORD_LIMIT && HASH_LENGTH * |out.msg.oldMacKeys| < WORD_LIMIT
    requires forall o, t :: NextOf(a.party.keys, o, t) < LONG_LIMIT - 1
    ensures var out := Send(e, a.party, message, flag, tlvs);
            Authentic(e, a.(party := out.party), b, Packet(out.msg, message, tlvs))
  {
    hide Send, Made, NextOf, FitsMpi, Concat, KeyLengths, IsKeyPair, PickOurs, PickTheirs;
    var out, n, t := Send(e, a.party, message, flag, tlvs), |a.pairs|, a.party.keys.theirKeyId;
    SendShape(e, a, b, message, flag, tlvs);
    SendMacs(e, a.party, message, flag, tlvs);
    SendKeyLengths(e, a.party, message, flag, tlvs);
    SendCounters(e, a.party, message, flag, tlvs, n - 1, t);
    NextPositive(a.party.keys, n - 1, t);
    ConcatLength(out.msg.oldMacKeys);
    PublicFits(e.group, a.pairs[n - 1]);
    MadeValue(e, a.party.tags, a.pairs[n - 2], b.pairs[t - 1].pub, Packet(out.msg, message, tlvs), a.pairs[n - 1].pub);
  }

  lemma AuthenticStays(e: Setting, a: Side, a': Side, b: Side, b': Side, p: Packet)
    requires e.Valid() && Authentic(e, a, b, p) && a.pairs <= a'.pairs && b.pairs <= b'.pairs && a'.party.tags == a.party.tags
    requires a'.party.keys.theirKeyId >= a.party.keys.theirKeyId
    requires NextOf(a'.party.keys, p.msg.senderKeyId, p.msg.recipientKeyId) >= NextOf(a.party.keys, p.msg.senderKeyId, p.msg.recipientKeyId)
    ensures Authentic(e, a', b', p)
  {
    hide Made, NextOf, Sendable;
  }

  lemma SayCounters(e: Setting, a: Side, message: bytes, flag: byte, tlvs: seq<Tlv>)
    requires e.Valid() && Send(e, a.party, message, flag, tlvs).Sent?
    requires forall o, t :: NextOf(a.party.keys, o, t) < LONG_LIMIT - 1
    ensures var k' := Send(e, a.party, message, flag, tlvs).party.keys;
            forall o, t ::
              && NextOf(a.party.keys, o, t) <= NextOf(k', o, t) <= NextOf(a.party.keys, o, t) + 1
              && CounterOf(k'.counters, o, t).theirs == CounterOf(a.party.keys.counters, o, t).theirs
  {
    hide Send, NextOf, CounterOf;
    var k' := Send(e, a.party, message, flag, tlvs).party.keys;
    forall o, t
      ensures && NextOf(a.party.keys, o, t) <= NextOf(k', o, t) <= NextOf(a.party.keys, o, t) + 1
              && CounterOf(k'.counters, o, t).theirs == CounterOf(a.party.keys.counters, o, t).theirs
    {
      SendCounters(e, a.party, message, flag, tlvs, o, t);
    }
  }

  lemma NextBound(a: Side, b: Side, sent: nat)
    requires CountersBehind(a, b, sent) && sent < LONG_LIMIT - 2
    ensures forall o, t :: NextOf(a.party.keys, o, t) < LONG_LIMIT - 1
  {
  }

  /** Sending keeps both directions of the invariant. */
  lemma SayKeeps(e: Setting, s: System, m: Move)
    requires e.Valid() && Inv(e, s) && m.Say? && Fits(e, s, m) && Within(MoveA(e, s, m))
    ensures Inv(e, MoveA(e, s, m))
  {
    hide SayStep, Said, Half, Authentic, Fits;
    var s' := SayStep(e, s, m.message, m.flag, m.tlvs);
    SayIsSaid(e, s, m.message, m.flag, m.tlvs);
    SaidHalf(e, s, s');
    SaidOther(e, s, s');
  }

  lemma InvSide(e: Setting, s: System)
    requires e.Valid() && Inv(e, s)
    ensures && s.a.party.encrypted && OwnKeys(e, s.a) && InStep(s.b, s.a)
            && KeyLengths(s.a.party.keys) && CountersBehind(s.a, s.b, |s.ab|)
  {
  }

  lemma SaidState(e: Setting, s: System, message: bytes, flag: byte, tlvs: seq<Tlv>)
    requires e.Valid() && Send(e, s.a.party, message, flag, tlvs).Sent?
    ensures var out := Send(e, s.a.party, message, flag, tlvs);
            SayStep(e, s, message, flag, tlvs)
            == System(s.a.(party := out.party), s.b, s.ab + [Packet(out.msg, message, tlvs)], s.ba)
  {
    hide Send;
  }

  lemma FitsMeans(e: Setting, s: System, message: bytes, flag: byte, tlvs: seq<Tlv>)
    requires e.Valid() && Fits(e, s, Say(message, flag, tlvs))
    ensures forall t <- tlvs :: WellFormed(t)
    ensures var out := Send(e, s.a.party, message, flag, tlvs);
            out.Sent? ==> |out.msg.encrypted| < WORD_LIMIT && HASH_LENGTH * |out.msg.oldMacKeys| < WORD_LIMIT
  {
  }

  lemma SayIsSaid(e: Setting, s: System, message: bytes, flag: byte, tlvs: seq<Tlv>)
    requires e.Valid() && Inv(e, s) && Fits(e, s, Say(message, flag, tlvs)) && Within(SayStep(e, s, message, flag, tlvs))
    ensures Send(e, s.a.party, message, flag, tlvs).Sent?
    ensures var s' := SayStep(e, s, message, flag, tlvs); Said(s, s') && Authentic(e, s'.a, s.b, s'.ab[|s.ab|])
  {
    hide Send, Inv, Made, NextOf, CounterOf, OwnKeys, InStep, KeyLengths, CountersBehind, Authentic, Fits, SayStep, SameSlots;
    InvSide(e, s);
    FitsMeans(e, s, message, flag, tlvs);
    SendShape(e, s.a, s.b, message, flag, tlvs);
    SaidState(e, s, message, flag, tlvs);
    NextBound(s.a, s.b, |s.ab|);
    SendMacs(e, s.a.party, message, flag, tlvs);
    SendKeyLengths(e, s.a.party, message, flag, tlvs);
    SayCounters(e, s.a, message, flag, tlvs);
    NewPacket(e, s.a, s.b, message, flag, tlvs);
  }

  /** What sending changes on the sender's side. */
  ghost predicate Said(s: System, s': System) {
    && s'.b == s.b && s'.ba == s.ba && |s'.ab| == |s.ab| + 1 && s.ab < s'.ab
    && s'.a.pairs == s.a.pairs && s'.a.party.tags == s.a.party.tags && s'.a.party.encrypted
    && SameSlots(s'.a.party.keys, s.a.party.keys) && KeyLengths(s'.a.party.keys)
    && forall o, t ::
         && NextOf(s.a.party.keys, o, t) <= NextOf(s'.a.party.keys, o, t) <= NextOf(s.a.party.keys, o, t) + 1
         && CounterOf(s'.a.party.keys.counters, o, t).theirs == CounterOf(s.a.party.keys.counters, o, t).theirs
  }

  lemma SaidHalf(e: Setting, s: System, s': System)
    requires e.Valid() && Half(e, s) && Said(s, s') && Authentic(e, s'.a, s.b, s'.ab[|s.ab|])
    ensures Half(e, s')
  {
    hide NextOf, CounterOf, Authentic, KeyLengths;
    forall p <- s'.ab
      ensures Authentic(e, s'.a, s.b, p)
    {
      if p in s.ab {
        AuthenticStays(e, s.a, s'.a, s.b, s.b, p);
      } else {
        assert s'.ab == s.ab + [s'.ab[|s.ab|]];
      }
    }
  }

  lemma SaidOther(e: Setting, s: System, s': System)
    requires e.Valid() && Half(e, s.Flip()) && Said(s, s')
    ensures Half(e, s'.Flip())
  {
    hide NextOf, CounterOf, KeyLengths, Made, Sendable;
  }

  // ------------------------------------------------------------ delivery

  /** Any message of the peer arrives as it was sent. */
  lemma Arrival(e: Setting, s: System, i: nat, rnd: Option<nat>)
    requires e.Valid() && Inv(e, s) && i < |s.ab|
    ensures var m := s.ab[i].msg;
            && Deserialize(Serialize(m)) == Some(Received(m, SerializeUnsigned(m)))
            && Arriving(e, s, i, rnd)
               == Process(e, s.b.party, MessageHeader(e.version, TYPE_DATA, s.a.party.tags), Serialize(m), rnd)
  {
    hide Process, MessageHeader, Serialize, Deserialize, SerializeUnsigned, ParseMessageHeader, Made, Sendable, NextOf;
    var p := s.ab[i];
    assert Authentic(e, s.a, s.b, p);
    HeaderRoundTrip(e.version, TYPE_DATA, s.a.party.tags, s.b.party.tags, Serialize(p.msg));
    DataMsgRoundTrip(p.msg);
    assert s.b.party.(tags := s.a.party.tags.Flip()) == s.b.party;
  }

  /** How the key slots move: our pair on, if there is a new one, and the peer's value on. */
  ghost predicate Shifted(k: Keys, k': Keys, m: DataMsg, own: Option<KeyPair>, their: bool) {
    && (match own
        case Some(pair) => && m.recipientKeyId == k.ourKeyId && k'.ourKeyId == Inc(k.ourKeyId)
                           && k'.ourCurrent == Some(pair) && k'.ourPrevious == k.ourCurrent
        case None => k'.ourKeyId == k.ourKeyId && k'.ourCurrent == k.ourCurrent && k'.ourPrevious == k.ourPrevious)
    && (if their then && m.senderKeyId == k.theirKeyId && k'.theirKeyId == Inc(k.theirKeyId)
                      && k'.theirCurrent == Some(m.y) && k'.theirPrevious == k.theirCurrent
        else k'.theirKeyId == k.theirKeyId && k'.theirCurrent == k.theirCurrent && k'.theirPrevious == k.theirPrevious)
  }

  ghost function Grown(e: Setting, k: Keys, out: Outcome, rnd: Option<nat>): Option<KeyPair>
    requires e.Valid()
  {
    if out.Accepted? && out.received.recipientKeyId == k.ourKeyId && rnd.Some? then Some(NewPair(e.group, rnd.value)) else None
  }

  lemma ProcessSlots(e: Setting, p: Party, header: bytes, body: bytes, rnd: Option<nat>, m: DataMsg, signed: bytes)
    requires e.Valid() && p.encrypted && Deserialize(body) == Some(Received(m, signed))
    ensures var (p', out) := Process(e, p, header, body, rnd);
            && p'.tags == p.tags && p'.encrypted
            && (out.Accepted? ==> out.received == m)
            && exists their :: Shifted(p.keys, p'.keys, m, Grown(e, p.keys, out, rnd), their)
  {
    hide Deserialize, CounterOf, SetCounter, Counted, Decrypt, CheckSign, SessionKeysFrom, PickOurs, PickTheirs;
    hide Remaining, Picked, KeysOf, Group.Exp;
    var (p', out) := Process(e, p, header, body, rnd);
    var their := out.Accepted? && out.rotated && m.senderKeyId == p.keys.theirKeyId;
    assert Shifted(p.keys, p'.keys, m, Grown(e, p.keys, out, rnd), their);
  }

  lemma ProcessTheirs(e: Setting, p: Party, header: bytes, body: bytes, rnd: Option<nat>, r: Received)
    requires e.Valid() && p.encrypted && Deserialize(body) == Some(r)
    ensures var k' := Process(e, p, header, body, rnd).0.keys;
            forall o, t ::
              var c, c' := CounterOf(p.keys.counters, o, t), CounterOf(k'.counters, o, t);
              && c'.ours == c.ours
              && (c'.theirs == c.theirs || (o == r.msg.recipientKeyId && t == r.msg.senderKeyId && c'.theirs == r.msg.ctr))
  {
    hide *;
    var k' := Process(e, p, header, body, rnd).0.keys;
    ProcessCounterHistory(e, p, header, body, rnd);
    forall o, t
      ensures var c, c' := CounterOf(p.keys.counters, o, t), CounterOf(k'.counters, o, t);
              && c'.ours == c.ours
              && (c'.theirs == c.theirs || (o == r.msg.recipientKeyId && t == r.msg.senderKeyId && c'.theirs == r.msg.ctr))
    {
      CheckCounterFrame(p.keys, r.msg.recipientKeyId, r.msg.senderKeyId, r.msg.ctr, o, t);
    }
  }

  /** What the delivery of a message changes on the receiver's side. */
  ghost predicate Arrived(e: Setting, s: System, s': System, m: DataMsg, own: Option<KeyPair>, their: bool)
    requires e.Valid()
  {
    && s'.a == s.a && s'.ab == s.ab && s'.ba == s.ba
    && s'.b.party.tags == s.b.party.tags && s'.b.party.encrypted && KeyLengths(s'.b.party.keys)
    && s'.b.pairs == s.b.pairs + (if own.Some? then [own.value] else [])
    && (own.Some? ==> IsKeyPair(e.group, own.value))
    && Shifted(s.b.party.keys, s'.b.party.keys, m, own, their)
    && forall o, t ::
         && NextOf(s'.b.party.keys, o, t) == NextOf(s.b.party.keys, o, t)
         && var c, c' := CounterOf(s.b.party.keys.counters, o, t), CounterOf(s'.b.party.keys.counters, o, t);
            c'.theirs == c.theirs || (o == m.recipientKeyId && t == m.senderKeyId && c'.theirs == m.ctr)
  }

  lemma NextSame(k: Keys, k': Keys)
    requires forall o, t :: CounterOf(k'.counters, o, t).ours == CounterOf(k.counters, o, t).ours
    ensures forall o, t :: NextOf(k', o, t) == NextOf(k, o, t)
  {
  }

  lemma DeliveryArrives(e: Setting, s: System, i: nat, rnd: Option<nat>)
    requires e.Valid() && Inv(e, s) && i < |s.ab|
    ensures exists own, their :: Arrived(e, s, DeliverStep(e, s, i, rnd), s.ab[i].msg, own, their)
  {
    hide Process, Serialize, Deserialize, MessageHeader, Arriving, Authentic, CountersBehind, KeyLengths, Arrived, SerializeUnsigned;
    Arrival(e, s, i, rnd);
    var m := s.ab[i].msg;
    var header, body := MessageHeader(e.version, TYPE_DATA, s.a.party.tags), Serialize(m);
    assert s.b.pairs + [] == s.b.pairs;
    ArrivesAs(e, s, DeliverStep(e, s, i, rnd), m, rnd, header, body);
  }

  lemma ArrivesAs(e: Setting, s: System, s': System, m: DataMsg, rnd: Option<nat>, header: bytes, body: bytes)
    requires e.Valid() && s.b.party.encrypted && KeyLengths(s.b.party.keys)
    requires Deserialize(body) == Some(Received(m, SerializeUnsigned(m)))
    requires var (p', out) := Process(e, s.b.party, header, body, rnd);
             var own := Grown(e, s.b.party.keys, out, rnd);
             s' == s.(b := Side(p', s.b.pairs + if own.Some? then [own.value] else []))
    ensures exists own, their :: Arrived(e, s, s', m, own, their)
  {
    var (p', out) := Process(e, s.b.party, header, body, rnd);
    var own := Grown(e, s.b.party.keys, out, rnd);
    assert own.Some? ==> IsKeyPair(e.group, own.value);
    hide Process, Deserialize, SerializeUnsigned, Shifted, CounterOf, KeyLengths, Grown, IsKeyPair, NextOf;
    ProcessSlots(e, s.b.party, header, body, rnd, m, SerializeUnsigned(m));
    ProcessTheirs(e, s.b.party, header, body, rnd, Received(m, SerializeUnsigned(m)));
    NextSame(s.b.party.keys, p'.keys);
    ProcessKeyLengths(e, s.b.party, header, body, rnd);
    var their :| Shifted(s.b.party.keys, p'.keys, m, own, their);
    assert Arrived(e, s, s', m, own, their);
  }

  lemma ArrivedHalf(e: Setting, s: System, s': System, p: Packet, own: Option<KeyPair>, their: bool)
    requires e.Valid() && Inv(e, s) && Within(s') && p in s.ab && Arrived(e, s, s', p.msg, own, their)
    ensures Half(e, s')
  {
    hide NextOf, CounterOf, Made, KeyLengths, Sendable;
    assert Authentic(e, s.a, s.b, p);
    var sender, recipient := p.msg.senderKeyId, p.msg.recipientKeyId;
    assert p.msg.y == s.a.pairs[sender].pub by {
      MadeValue(e, s.a.party.tags, s.a.pairs[sender - 1], s.b.pairs[recipient - 1].pub, p, s.a.pairs[sender].pub);
    }
    hide Authentic;
    forall q <- s'.ab
      ensures Authentic(e, s'.a, s'.b, q)
    {
      AuthenticStays(e, s.a, s'.a, s.b, s'.b, q);
    }
  }

  lemma MadeValue(e: Setting, tags: Tags, own: KeyPair, their: nat, p: Packet, y: nat)
    requires e.Valid()
    ensures Made(e, tags, own, their, p, y).y == y
  {
  }

  lemma ArrivedOwn(e: Setting, s: System, s': System, p: Packet, own: Option<KeyPair>, their: bool)
    requires e.Valid() && OwnKeys(e, s.b) && InStep(s.b, s.a) && Within(s') && Arrived(e, s, s', p.msg, own, their)
    requires p.msg.recipientKeyId <= s.a.party.keys.theirKeyId
    ensures OwnKeys(e, s'.b) && InStep(s'.b, s'.a)
  {
    hide NextOf, CounterOf, KeyLengths, IsKeyPair;
  }

  lemma ArrivedOther(e: Setting, s: System, s': System, p: Packet, own: Option<KeyPair>, their: bool)
    requires e.Valid() && Inv(e, s) && Within(s') && p in s.ab && Arrived(e, s, s', p.msg, own, their)
    ensures Half(e, s'.Flip())
  {
    hide NextOf, CounterOf, KeyLengths, Authentic, OwnKeys, InStep, Shifted;
    InvAuthentic(e, s, p);
    AuthenticIds(e, s, p);
    InvFlip(e, s);
    InvSide(e, s.Flip());
    ArrivedOwn(e, s, s', p, own, their);
    TheirsGrow(s, s', p.msg, own, their);
    forall q <- s'.ba
      ensures Authentic(e, s'.b, s'.a, q)
    {
      AuthenticStays(e, s.b, s'.b, s.a, s'.a, q);
    }
  }

  lemma AuthenticIds(e: Setting, s: System, p: Packet)
    requires e.Valid() && Authentic(e, s.a, s.b, p)
    ensures p.msg.recipientKeyId <= s.a.party.keys.theirKeyId && p.msg.senderKeyId < |s.a.pairs|
  {
    hide Made, NextOf, Sendable;
  }

  lemma TheirsGrow(s: System, s': System, m: DataMsg, own: Option<KeyPair>, their: bool)
    requires Shifted(s.b.party.keys, s'.b.party.keys, m, own, their) && m.senderKeyId < WORD_LIMIT - 1
    ensures s'.b.party.keys.theirKeyId >= s.b.party.keys.theirKeyId
  {
  }

  /** Delivery keeps both directions of the invariant. */
  lemma DeliverKeeps(e: Setting, s: System, i: nat, rnd: Option<nat>)
    requires e.Valid() && Inv(e, s) && i < |s.ab| && Within(DeliverStep(e, s, i, rnd))
    ensures Inv(e, DeliverStep(e, s, i, rnd))
  {
    hide DeliverStep, Arrived, Half, Within;
    var s' := DeliverStep(e, s, i, rnd);
    DeliveryArrives(e, s, i, rnd);
    var own, their :| Arrived(e, s, s', s.ab[i].msg, own, their);
    ArrivedHalf(e, s, s', s.ab[i], own, their);
    ArrivedOther(e, s, s', s.ab[i], own, their);
  }

  // ------------------------------------------------------------ every run

  ghost predicate Growing(s: System, s': System) {
    s.a.pairs <= s'.a.pairs && s.b.pairs <= s'.b.pairs && s.ab <= s'.ab && s.ba <= s'.ba
  }

  lemma MoveGrows(e: Setting, s: System, m: Move)
    requires e.Valid() && (m.Deliver? ==> m.index < |s.ba|)
    ensures Growing(s, MoveA(e, s, m))
  {
  }

  lemma FlipTwice(s: System)
    ensures s.Flip().Flip() == s
  {
  }

  lemma MoveKeeps(e: Setting, s: System, m: Move)
    requires e.Valid() && Inv(e, s) && (m.Deliver? ==> m.index < |s.ba|) && Fits(e, s, m) && Within(MoveA(e, s, m))
    ensures Inv(e, MoveA(e, s, m))
  {
    hide Half, SayStep, DeliverStep, Fits;
    FlipTwice(s);
    match m
    case Say(_, _, _) => SayKeeps(e, s, m);
    case Deliver(i, rnd) =>
      FlipTwice(DeliverStep(e, s.Flip(), i, rnd));
      DeliverKeeps(e, s.Flip(), i, rnd);
  }

  lemma StepGrows(e: Setting, s: System, s': System)
    requires e.Valid() && NextState(e, s, s')
    ensures Growing(s, s')
  {
    hide MoveA, Fits;
    if m: Move :| (m.Deliver? ==> m.index < |s.ba|) && Fits(e, s, m) && s' == MoveA(e, s, m) {
      MoveGrows(e, s, m);
    } else {
      var m: Move :| (m.Deliver? ==> m.index < |s.ab|) && Fits(e, s.Flip(), m) && s' == MoveA(e, s.Flip(), m).Flip();
      MoveGrows(e, s.Flip(), m);
    }
  }

  lemma StepKeeps(e: Setting, s: System, s': System)
    requires e.Valid() && Inv(e, s) && NextState(e, s, s') && Within(s')
    ensures Inv(e, s')
  {
    hide MoveA, Fits, Half;
    if m: Move :| (m.Deliver? ==> m.index < |s.ba|) && Fits(e, s, m) && s' == MoveA(e, s, m) {
      MoveKeeps(e, s, m);
    } else {
      var m: Move :| (m.Deliver? ==> m.index < |s.ab|) && Fits(e, s.Flip(), m) && s' == MoveA(e, s.Flip(), m).Flip();
      FlipTwice(s);
      FlipTwice(MoveA(e, s.Flip(), m));
      MoveKeeps(e, s.Flip(), m);
    }
  }

  lemma InitialHalf(e: Setting, s: System)
    requires e.Valid() && Initial(e, s)
    ensures Half(e, s)
  {
  }

  lemma InitialInv(e: Setting, s: System)
    requires e.Valid() && Initial(e, s)
    ensures Inv(e, s)
  {
    hide Half, Fresh;
    InitialHalf(e, s);
    InitialHalf(e, s.Flip());
  }

  lemma RunStarts(e: Setting, ss: seq<System>)
    requires e.Valid() && IsRun(e, ss)
    ensures |ss| > 0 && Initial(e, ss[0])
  {
    hide NextState, Initial;
  }

  lemma RunNext(e: Setting, ss: seq<System>, i: nat)
    requires e.Valid() && IsRun(e, ss) && 0 < i < |ss|
    ensures NextState(e, ss[i - 1], ss[i])
  {
  }

  lemma WithinBefore(s: System, s': System)
    requires Growing(s, s') && Within(s')
    ensures Within(s)
  {
  }

  /** The invariant holds at every state of every run, whatever is lost, repeated or reordered. */
  lemma {:induction false} RunInvariant(e: Setting, ss: seq<System>, i: nat)
    requires e.Valid() && IsRun(e, ss) && i < |ss| && Within(ss[i])
    ensures Inv(e, ss[i])
  {
    hide *;
    if i == 0 {
      RunStarts(e, ss);
      InitialInv(e, ss[0]);
    } else {
      RunNext(e, ss, i);
      StepGrows(e, ss[i - 1], ss[i]);
      WithinBefore(ss[i - 1], ss[i]);
      RunInvariant(e, ss, i - 1);
      StepKeeps(e, ss[i - 1], ss[i]);
    }
  }

  /** The ratchet: each side's view of its peer is at most one rotation behind, and the peer values
      it holds are the public values of exactly the peer's pairs with those ids. */
  lemma RatchetInStep(e: Setting, ss: seq<System>, i: nat)
    requires e.Valid() && IsRun(e, ss) && i < |ss| && Within(ss[i])
    ensures var ka, kb := ss[i].a.party.keys, ss[i].b.party.keys;
            && ka.ourKeyId - 1 <= kb.theirKeyId <= ka.ourKeyId && kb.ourKeyId - 1 <= ka.theirKeyId <= kb.ourKeyId
            && HoldsPairs(ka, ss[i].a, ss[i].b) && HoldsPairs(kb, ss[i].b, ss[i].a)
  {
    hide *;
    RunInvariant(e, ss, i);
    InvHoldsPairs(e, ss[i]);
  }

  /** Whatever key id these keys can select, it stands for that very pair of its owner. */
  ghost predicate HoldsPairs(k: Keys, own: Side, peer: Side) {
    && (forall id: uint32 :: PickOurs(k, id).Some? ==>
          1 <= id <= |own.pairs| && PickOurs(k, id) == Some(own.pairs[id - 1]))
    && (forall id: uint32 :: PickTheirs(k, id).Some? ==>
          1 <= id <= |peer.pairs| && PickTheirs(k, id) == Some(peer.pairs[id - 1].pub))
  }

  lemma SideHoldsPairs(e: Setting, a: Side, b: Side)
    requires e.Valid() && OwnKeys(e, a) && InStep(b, a)
    ensures HoldsPairs(a.party.keys, a, b) && a.party.keys.ourKeyId == |a.pairs|
    ensures |b.pairs| - 1 <= a.party.keys.theirKeyId <= |b.pairs|
  {
    hide IsKeyPair;
  }

  lemma InvHoldsPairs(e: Setting, s: System)
    requires e.Valid() && Inv(e, s)
    ensures var ka, kb := s.a.party.keys, s.b.party.keys;
            && ka.ourKeyId - 1 <= kb.theirKeyId <= ka.ourKeyId && kb.ourKeyId - 1 <= ka.theirKeyId <= kb.ourKeyId
            && HoldsPairs(ka, s.a, s.b) && HoldsPairs(kb, s.b, s.a)
  {
    hide *;
    InvSide(e, s);
    InvFlip(e, s);
    InvSide(e, s.Flip());
    SideHoldsPairs(e, s.a, s.b);
    SideHoldsPairs(e, s.b, s.a);
  }

  lemma InvFlip(e: Setting, s: System)
    requires e.Valid() && Inv(e, s)
    ensures Inv(e, s.Flip()) && s.Flip().a == s.b && s.Flip().b == s.a
  {
  }

  // ------------------------------------------------------------ what delivery yields

  /** The receiver still holds the key pair the message is for, and the peer value it was sent under. */
  ghost predicate Known(k: Keys, m: DataMsg) {
    m.recipientKeyId >= k.ourKeyId - 1 && m.senderKeyId >= k.theirKeyId - 1
  }

  ghost predicate Newer(k: Keys, m: DataMsg) {
    m.ctr > CounterOf(k.counters, m.recipientKeyId, m.senderKeyId).theirs
  }

  /** The pair a sent under and the value of b it was sent to. */
  ghost function SenderKeys(e: Setting, s: System, p: Packet): SessionKeys
    requires e.Valid() && Authentic(e, s.a, s.b, p)
  {
    var own := s.a.pairs[p.msg.senderKeyId - 1];
    SessionKeysFrom(e.crypto, e.group, own.priv, own.pub, s.b.pairs[p.msg.recipientKeyId - 1].pub)
  }

  ghost function ReceiverKeys(e: Setting, s: System, p: Packet): SessionKeys
    requires e.Valid() && Authentic(e, s.a, s.b, p)
  {
    var own := s.b.pairs[p.msg.recipientKeyId - 1];
    SessionKeysFrom(e.crypto, e.group, own.priv, own.pub, s.a.pairs[p.msg.senderKeyId - 1].pub)
  }

  /** Public values of the two pairs a message travels under. */
  ghost predicate Distinct(e: Setting, s: System, p: Packet)
    requires e.Valid() && Authentic(e, s.a, s.b, p)
  {
    s.a.pairs[p.msg.senderKeyId - 1].pub != s.b.pairs[p.msg.recipientKeyId - 1].pub
  }

  lemma MirroredKeys(e: Setting, s: System, p: Packet)
    requires e.Valid() && Inv(e, s) && p in s.ab && Authentic(e, s.a, s.b, p)
    ensures var sk, rk := SenderKeys(e, s, p), ReceiverKeys(e, s, p);
            && rk.extra == sk.extra
            && (Distinct(e, s, p) ==> rk.receivingAes == sk.sendingAes && rk.receivingMac == sk.sendingMac)
  {
    hide CountersBehind, KeyLengths, Made, Sendable, NextOf;
    var a, b := s.a.pairs[p.msg.senderKeyId - 1], s.b.pairs[p.msg.recipientKeyId - 1];
    assert a in s.a.pairs && b in s.b.pairs;
    hide SessionKeysFrom, Authentic, IsKeyPair;
    SessionKeysAgree(e.crypto, e.group, a, b);
  }

  /** The receiver selects keys for a message exactly while its ids are at most one rotation old, and
      what it then picks gives the sender's keys mirrored (the public values being distinct). */
  lemma SelectedKeysAgree(e: Setting, s: System, p: Packet)
    requires e.Valid() && Inv(e, s) && p in s.ab
    ensures Authentic(e, s.a, s.b, p)
    ensures var k := s.b.party.keys;
            var own, peer := PickOurs(k, p.msg.recipientKeyId), PickTheirs(k, p.msg.senderKeyId);
            && (own.Some? && peer.Some? <==> Known(k, p.msg))
            && (Known(k, p.msg) ==>
                  var rk := SessionKeysFrom(e.crypto, e.group, own.value.priv, own.value.pub, peer.value);
                  && rk == ReceiverKeys(e, s, p) && rk.extra == SenderKeys(e, s, p).extra
                  && (Distinct(e, s, p) ==> && rk.receivingAes == SenderKeys(e, s, p).sendingAes
                                            && rk.receivingMac == SenderKeys(e, s, p).sendingMac))
  {
    hide Inv, Authentic, SessionKeysFrom, PickOurs, PickTheirs, Known;
    SlotsThemselves(s.b.party.keys);
    KnownSelects(e, s, p, s.b.party.keys);
    MirroredKeys(e, s, p);
  }

  lemma SlotsThemselves(k: Keys)
    ensures SameSlots(k, k)
  {
  }

  lemma KnownSelects(e: Setting, s: System, p: Packet, k: Keys)
    requires e.Valid() && Inv(e, s) && p in s.ab && SameSlots(k, s.b.party.keys)
    ensures Authentic(e, s.a, s.b, p)
    ensures var o, t := PickOurs(k, p.msg.recipientKeyId), PickTheirs(k, p.msg.senderKeyId);
            && (o.Some? && t.Some? <==> Known(k, p.msg))
            && (Known(k, p.msg) ==> && o == Some(s.b.pairs[p.msg.recipientKeyId - 1])
                                    && t == Some(s.a.pairs[p.msg.senderKeyId - 1].pub))
  {
    hide CountersBehind, KeyLengths, Made, Sendable, NextOf;
    assert Authentic(e, s.a, s.b, p);
  }

  lemma SignatureChecks(e: Setting, s: System, p: Packet)
    requires e.Valid() && Authentic(e, s.a, s.b, p)
    ensures CheckSign(e.crypto, SenderKeys(e, s, p).sendingMac, MessageHeader(e.version, TYPE_DATA, s.a.party.tags),
                      Received(p.msg, SerializeUnsigned(p.msg)))
    ensures p.msg.encrypted == Encrypt(e.crypto, SenderKeys(e, s, p).sendingAes, p.msg.ctr, Plain(p.message, p.tlvs))
    ensures forall t <- p.tlvs :: WellFormed(t)
  {
    hide SessionKeysFrom, Encrypt, MessageHeader, NextOf, Sendable;
  }

  /** The authenticator, computed with the sender's key, is also the one under the receiver's. */
  ghost predicate MacPasses(e: Setting, s: System, p: Packet)
    requires e.Valid() && Authentic(e, s.a, s.b, p)
  {
    var signed := MessageHeader(e.version, TYPE_DATA, s.a.party.tags) + SerializeUnsigned(p.msg);
    e.crypto.hmacSha1(ReceiverKeys(e, s, p).receivingMac, signed) == e.crypto.hmacSha1(SenderKeys(e, s, p).sendingMac, signed)
  }

  /** In every reachable state, the outcome of delivering any message ever sent is decided by its ids,
      its counter and the two public values: an older counter is a regression, ids more than one
      rotation old are refused, and everything else is accepted (with equal public values only if two
      MACs collide), with the sender's text exactly when it has no NUL. */
  lemma DeliveryDecided(e: Setting, ss: seq<System>, i: nat, j: nat, rnd: Option<nat>)
    requires e.Valid() && IsRun(e, ss) && i < |ss| && Within(ss[i]) && j < |ss[i].ab|
    ensures Authentic(e, ss[i].a, ss[i].b, ss[i].ab[j])
    ensures Delivered(e, ss[i], ss[i].ab[j], Arriving(e, ss[i], j, rnd).1)
  {
    hide *;
    RunInvariant(e, ss, i);
    DeliveryOf(e, ss[i], j, rnd);
  }

  ghost predicate Delivered(e: Setting, s: System, p: Packet, out: Outcome)
    requires e.Valid() && Authentic(e, s.a, s.b, p)
  {
    var k := s.b.party.keys;
    && (out.Regressed? <==> !Newer(k, p.msg))
    && (out.BadKeyId? <==> Newer(k, p.msg) && !Known(k, p.msg))
    && (out.Accepted? <==> Newer(k, p.msg) && Known(k, p.msg) && MacPasses(e, s, p))
    && (out.BadMac? <==> Newer(k, p.msg) && Known(k, p.msg) && !MacPasses(e, s, p))
    && (Distinct(e, s, p) ==> MacPasses(e, s, p))
    && (out.Accepted? ==> out.received == p.msg && out.extra == SenderKeys(e, s, p).extra)
    && (out.Accepted? && Distinct(e, s, p) ==>
          && (out.plain.message == p.message <==> NulFree(p.message))
          && (NulFree(p.message) ==> out.plain == Pad(Plain(p.message, p.tlvs))))
  }

  lemma DeliveryOf(e: Setting, s: System, j: nat, rnd: Option<nat>)
    requires e.Valid() && Inv(e, s) && j < |s.ab|
    ensures Authentic(e, s.a, s.b, s.ab[j])
    ensures Delivered(e, s, s.ab[j], Arriving(e, s, j, rnd).1)
  {
    hide *;
    InvEncrypted(e, s);
    Arrival(e, s, j, rnd);
    InvAuthentic(e, s, s.ab[j]);
    SignatureChecks(e, s, s.ab[j]);
    ProcessAuthentic(e, s, s.ab[j], rnd);
  }

  lemma InvEncrypted(e: Setting, s: System)
    requires e.Valid() && Inv(e, s)
    ensures s.b.party.encrypted
  {
  }

  lemma InvAuthentic(e: Setting, s: System, p: Packet)
    requires e.Valid() && Inv(e, s) && p in s.ab
    ensures Authentic(e, s.a, s.b, p)
  {
    hide Authentic, CountersBehind, KeyLengths, OwnKeys, InStep;
  }

  lemma MacChecks(e: Setting, s: System, p: Packet)
    requires e.Valid() && Authentic(e, s.a, s.b, p)
    requires CheckSign(e.crypto, SenderKeys(e, s, p).sendingMac, MessageHeader(e.version, TYPE_DATA, s.a.party.tags),
                       Received(p.msg, SerializeUnsigned(p.msg)))
    ensures MacPasses(e, s, p) <==>
            CheckSign(e.crypto, ReceiverKeys(e, s, p).receivingMac, MessageHeader(e.version, TYPE_DATA, s.a.party.tags),
                      Received(p.msg, SerializeUnsigned(p.msg)))
    ensures ReceiverKeys(e, s, p).receivingMac == SenderKeys(e, s, p).sendingMac ==> MacPasses(e, s, p)
  {
    hide Authentic, SessionKeysFrom, MessageHeader, SerializeUnsigned;
  }

  lemma ProcessAuthentic(e: Setting, s: System, p: Packet, rnd: Option<nat>)
    requires e.Valid() && Inv(e, s) && p in s.ab && Authentic(e, s.a, s.b, p)
    requires Deserialize(Serialize(p.msg)) == Some(Received(p.msg, SerializeUnsigned(p.msg))) && s.b.party.encrypted
    requires CheckSign(e.crypto, SenderKeys(e, s, p).sendingMac, MessageHeader(e.version, TYPE_DATA, s.a.party.tags),
                       Received(p.msg, SerializeUnsigned(p.msg)))
    requires p.msg.encrypted == Encrypt(e.crypto, SenderKeys(e, s, p).sendingAes, p.msg.ctr, Plain(p.message, p.tlvs))
    requires forall t <- p.tlvs :: WellFormed(t)
    ensures Delivered(e, s, p, Process(e, s.b.party, MessageHeader(e.version, TYPE_DATA, s.a.party.tags), Serialize(p.msg), rnd).1)
  {
    hide Process, Inv, Authentic, Encrypt, Decrypt, CheckSign, SessionKeysFrom, MessageHeader, Serialize, SerializeUnsigned, Deserialize;
    hide CounterOf, PickOurs, PickTheirs, Known, Pad, NulFree, MacPasses, SenderKeys, ReceiverKeys, Distinct;
    var m := p.msg;
    SelectedKeysAgree(e, s, p);
    MirroredKeys(e, s, p);
    MacChecks(e, s, p);
    ProcessOutcome(e, s.b.party, MessageHeader(e.version, TYPE_DATA, s.a.party.tags), Serialize(m), rnd,
                   Received(m, SerializeUnsigned(m)));
    DecryptsEncrypted(e.crypto, SenderKeys(e, s, p).sendingAes, m.ctr, Plain(p.message, p.tlvs));
  }

  /** A message sent from any reachable state and delivered next is accepted, with the sender's extra
      key and, exactly without a NUL, the sent text, where the two public values are distinct; where
      they are equal it is accepted only if two MACs collide. */
  lemma FreshDelivered(e: Setting, ss: seq<System>, i: nat, message: bytes, flag: byte, tlvs: seq<Tlv>, rnd: Option<nat>)
    requires e.Valid() && IsRun(e, ss) && i < |ss| && Within(SayStep(e, ss[i], message, flag, tlvs))
    requires Fits(e, ss[i], Say(message, flag, tlvs))
    ensures Send(e, ss[i].a.party, message, flag, tlvs).Sent?
    ensures var s := SayStep(e, ss[i], message, flag, tlvs); var n := |ss[i].ab|;
            && |s.ab| == n + 1 && Authentic(e, s.a, s.b, s.ab[n])
            && var out := Arriving(e, s, n, rnd).1;
            && (if MacPasses(e, s, s.ab[n]) then out.Accepted? else out.BadMac?)
            && (out.Accepted? ==> out.extra == Send(e, ss[i].a.party, message, flag, tlvs).extra)
            && (Distinct(e, s, s.ab[n]) ==>
                  && out.Accepted? && (out.plain.message == message <==> NulFree(message))
                  && (NulFree(message) ==> out.plain == Pad(Plain(message, tlvs))))
  {
    var s0, s := ss[i], SayStep(e, ss[i], message, flag, tlvs);
    assert Growing(s0, s) by { hide Send; }
    hide *;
    WithinBefore(s0, s);
    RunInvariant(e, ss, i);
    JustSaid(e, s0, message, flag, tlvs);
    MoveIsSay(e, s0, message, flag, tlvs);
    SayKeeps(e, s0, Say(message, flag, tlvs));
    DeliveryOf(e, s, |s0.ab|, rnd);
    DeliveredMeans(e, s, s.ab[|s0.ab|], Arriving(e, s, |s0.ab|, rnd).1);
  }

  lemma MoveIsSay(e: Setting, s: System, message: bytes, flag: byte, tlvs: seq<Tlv>)
    requires e.Valid()
    ensures MoveA(e, s, Say(message, flag, tlvs)) == SayStep(e, s, message, flag, tlvs)
  {
  }

  lemma DeliveredMeans(e: Setting, s: System, p: Packet, out: Outcome)
    requires e.Valid() && Authentic(e, s.a, s.b, p) && Delivered(e, s, p, out)
    requires Newer(s.b.party.keys, p.msg) && Known(s.b.party.keys, p.msg)
    ensures if MacPasses(e, s, p) then out.Accepted? else out.BadMac?
    ensures out.Accepted? ==> out.extra == SenderKeys(e, s, p).extra
    ensures Distinct(e, s, p) ==>
              && out.Accepted? && (out.plain.message == p.message <==> NulFree(p.message))
              && (NulFree(p.message) ==> out.plain == Pad(Plain(p.message, p.tlvs)))
  {
    hide MacPasses, Distinct, SenderKeys, Newer, Known, Authentic;
  }

  lemma JustSaid(e: Setting, s: System, message: bytes, flag: byte, tlvs: seq<Tlv>)
    requires e.Valid() && Inv(e, s) && Fits(e, s, Say(message, flag, tlvs)) && Within(SayStep(e, s, message, flag, tlvs))
    ensures Send(e, s.a.party, message, flag, tlvs).Sent?
    ensures var s', n := SayStep(e, s, message, flag, tlvs), |s.ab|;
            && |s'.ab| == n + 1 && s'.ab[n].message == message && s'.ab[n].tlvs == tlvs
            && Authentic(e, s'.a, s'.b, s'.ab[n])
            && Newer(s'.b.party.keys, s'.ab[n].msg) && Known(s'.b.party.keys, s'.ab[n].msg)
            && SenderKeys(e, s', s'.ab[n]).extra == Send(e, s.a.party, message, flag, tlvs).extra
  {
    hide Send, Made, NextOf, CounterOf, SessionKeysFrom, KeyLengths, Fits, SayStep, Said, Authentic, Inv, CountersBehind, OwnKeys;
    InvSide(e, s);
    SendShape(e, s.a, s.b, message, flag, tlvs);
    SaidState(e, s, message, flag, tlvs);
    SayIsSaid(e, s, message, flag, tlvs);
    InvHoldsPairs(e, s);
    var out := Send(e, s.a.party, message, flag, tlvs);
    SendCounters(e, s.a.party, message, flag, tlvs, out.msg.senderKeyId, out.msg.recipientKeyId);
    BehindAt(s.a, s.b, |s.ab|, out.msg.senderKeyId, out.msg.recipientKeyId);
    OwnId(e, s.a);
  }

  lemma BehindAt(a: Side, b: Side, sent: nat, o: uint32, t: uint32)
    requires CountersBehind(a, b, sent)
    ensures CounterOf(b.party.keys.counters, t, o).theirs < NextOf(a.party.keys, o, t)
  {
  }

  lemma OwnId(e: Setting, a: Side)
    requires e.Valid() && OwnKeys(e, a)
    ensures a.party.keys.ourKeyId == |a.pairs|
  {
  }

  /** A key id that has wrapped to 0, our own or the peer's, ends the session: nothing is sent, nothing
      accepted, and it stays 0. */
  lemma WrappedIdEndsSession(e: Setting, p: Party, message: bytes, flag: byte, tlvs: seq<Tlv>,
                             header: bytes, body: bytes, rnd: Option<nat>)
    requires e.Valid() && (p.keys.ourKeyId == 0 || p.keys.theirKeyId == 0)
    ensures Send(e, p, message, flag, tlvs).Refused?
    ensures var (p', out) := Process(e, p, header, body, rnd);
            !out.Accepted? && p'.keys.ourKeyId == p.keys.ourKeyId && p'.keys.theirKeyId == p.keys.theirKeyId
  {
    hide Deserialize, CounterOf, SetCounter, Counted;
  }
}
