/** SMP inside an encrypted session: its records travel in data messages of the ratchet, at any points
    of any run. */
module SmpSession {
  import opened Wire
  import opened Crypto
  import opened Headers
  import opened Tlvs
  import opened KeyManagement
  import opened DataMessages
  import opened Session
  import opened Ratchet
  import Machines = SmpMachine
  import Smp
  import Exchange = SmpExchange

  type SmpMessage = Machines.Message

  function Records(ms: seq<SmpMessage>): (ts: seq<Tlv>)
    ensures |ts| == |ms|
  {
    seq(|ms|, i requires 0 <= i < |ms| => ToTlv(ms[i]))
  }

  predicate IsSmp(t: Tlv) {
    SMP1 <= t.tlvType <= SMP1_WITH_QUESTION
  }

  /** processTLVs as far as SMP goes: other records are passed over, a corrupt one ends it. */
  function Read(ts: seq<Tlv>): seq<SmpMessage> {
    if ts == [] then []
    else if !IsSmp(ts[0]) then Read(ts[1..])
    else
      match FromTlv(ts[0])
      case None => []
      case Some(m) => [m] + Read(ts[1..])
  }

  lemma CarriedReads(m: SmpMessage)
    requires Carried(m, []) == Some(m)
    ensures WellFormed(ToTlv(m)) && IsSmp(ToTlv(m)) && FromTlv(ToTlv(m)) == Some(m)
  {
    SmpTlvRoundTrip(m, []);
    SerializeRoundTrip(ToTlv(m), []);
    SmpType(m);
    hide ToTlv, FromTlv;
  }

  lemma SmpType(m: SmpMessage)
    ensures IsSmp(ToTlv(m))
  {
    hide Mpis, Word;
  }

  /** Behind padding the records of messages that can be carried read back as those messages. */
  lemma {:induction false} ReadRecords(ms: seq<SmpMessage>, padding: Tlv)
    requires (forall m <- ms :: Carried(m, []) == Some(m)) && padding.tlvType == PADDING
    ensures Read(Records(ms) + [padding]) == ms && forall t <- Records(ms) :: WellFormed(t)
    decreases |ms|
  {
    hide ToTlv, FromTlv, Carried;
    var ts := Records(ms) + [padding];
    if ms == [] {
      assert ts == [padding] && ts[1..] == [];
      assert Read([]) == [];
    } else {
      CarriedReads(ms[0]);
      ReadRecords(ms[1..], padding);
      assert ts[1..] == Records(ms[1..]) + [padding] && ts[0] == ToTlv(ms[0]);
      assert forall i :: 0 < i < |ms| ==> Records(ms)[i] == Records(ms[1..])[i - 1];
    }
  }

  /** A corrupt SMP record ends the reading; what came before it was read. */
  lemma {:induction false} ReadStops(ms: seq<SmpMessage>, bad: Tlv, rest: seq<Tlv>)
    requires (forall m <- ms :: Carried(m, []) == Some(m)) && IsSmp(bad) && FromTlv(bad).None?
    ensures Read(Records(ms) + [bad] + rest) == ms
    decreases |ms|
  {
    hide ToTlv, FromTlv, Carried;
    var ts := Records(ms) + [bad] + rest;
    if ms == [] {
      assert ts[0] == bad;
    } else {
      CarriedReads(ms[0]);
      ReadStops(ms[1..], bad, rest);
      assert ts[1..] == Records(ms[1..]) + [bad] + rest && ts[0] == ToTlv(ms[0]);
    }
  }

  // ------------------------------------------------------------ one data message

  /** What b's machine gets to see of the messages that a's machine sends from state s, delivered next. */
  ghost function Travelled(e: Setting, s: System, flag: byte, ms: seq<SmpMessage>, rnd: nat): seq<SmpMessage>
    requires e.Valid()
  {
    if ms == [] then [] else
    var s1 := SayStep(e, s, [], flag, Records(ms));
    if |s1.ab| <= |s.ab| then [] else
    match Arriving(e, s1, |s.ab|, Some(rnd)).1
    case Accepted(_, plain, _, rotated) => if rotated then Read(plain.tlvs) else []
    case _ => []
  }

  /** The widths of the source's integers leave room for one more message, and the two public values
      it travels under are distinct. */
  ghost predicate Open(s: System) {
    var k := s.a.party.keys;
    && Within(s) && |s.ab| + 1 < LONG_LIMIT - 1 && HASH_LENGTH * |k.oldMacs| < WORD_LIMIT
    && k.ourPrevious.Some? && k.theirCurrent.Some? && k.ourPrevious.value.pub != k.theirCurrent.value
  }

  lemma RecordsLength(ts: seq<Tlv>)
    requires |ts| <= 2 && forall t <- ts :: WellFormed(t)
    ensures |SerializeTlvs(ts)| <= 2 * (4 + 0x1_0000)
  {
    hide SerializeTlv;
    if |ts| == 1 {
      assert ts[0] in ts && ts[1..] == [];
    } else if |ts| == 2 {
      assert ts[0] in ts && ts[1] in ts && ts[1..][0] == ts[1] && ts[1..][1..] == [];
      assert SerializeTlvs(ts[1..]) == SerializeTlv(ts[1]) + SerializeTlvs([]);
    }
  }

  /** The padding behind an empty text. */
  ghost function PaddingRecord(): (t: Tlv)
    ensures t.tlvType == PADDING && |t.value| <= GRANULARITY
  {
    Tlv(PADDING, PaddingFor(0), Zeros(PaddingFor(0)))
  }

  lemma PadsWith(ts: seq<Tlv>)
    ensures Pad(Plain([], ts)) == Plain([], ts + [PaddingRecord()])
  {
  }

  lemma SmallPlain(ms: seq<SmpMessage>)
    requires |ms| <= 2 && forall t <- Records(ms) :: WellFormed(t)
    ensures |SerializePlain(Pad(Plain([], Records(ms))))| < WORD_LIMIT
  {
    hide SerializeTlvs, SerializeTlv, Records, PaddingRecord, Pad;
    PadsWith(Records(ms));
    SerializeTlvsAppend(Records(ms), PaddingRecord());
    RecordsLength(Records(ms));
  }

  lemma SentLengths(e: Setting, p: Party, flag: byte, tlvs: seq<Tlv>)
    requires e.Valid() && Send(e, p, [], flag, tlvs).Sent?
    ensures var m := Send(e, p, [], flag, tlvs).msg;
            |m.encrypted| == |SerializePlain(Pad(Plain([], tlvs)))| && m.oldMacKeys == p.keys.oldMacs
  {
    hide CounterOf, SetCounter, SessionKeysFrom, SerializeUnsigned, PickOurs, PickTheirs, SerializePlain, Pad, MessageHeader;
  }

  lemma OpenFits(e: Setting, s: System, flag: byte, ms: seq<SmpMessage>)
    requires e.Valid() && Open(s) && |ms| <= 2 && forall t <- Records(ms) :: WellFormed(t)
    ensures Fits(e, s, Say([], flag, Records(ms))) && Within(SayStep(e, s, [], flag, Records(ms)))
  {
    hide Send, Records, SerializePlain, Pad;
    SmallPlain(ms);
    if Send(e, s.a.party, [], flag, Records(ms)).Sent? {
      SentLengths(e, s.a.party, flag, Records(ms));
    }
  }

  lemma OpenDistinct(e: Setting, s: System, flag: byte, tlvs: seq<Tlv>)
    requires e.Valid() && Inv(e, s) && Open(s)
    requires var s1 := SayStep(e, s, [], flag, tlvs); |s1.ab| == |s.ab| + 1 && Authentic(e, s1.a, s1.b, s1.ab[|s.ab|])
    ensures var s1 := SayStep(e, s, [], flag, tlvs); Distinct(e, s1, s1.ab[|s.ab|])
  {
    hide Send, Inv, Authentic, Made, IsKeyPair, CountersBehind, KeyLengths;
    InvSide(e, s);
    SendShape(e, s.a, s.b, [], flag, tlvs);
    SaidState(e, s, [], flag, tlvs);
  }

  lemma RotatesWhenRandom(e: Setting, p: Party, wire: bytes, x: nat)
    requires e.Valid() && Receive(e, p, wire, Some(x)).1.Accepted?
    ensures Receive(e, p, wire, Some(x)).1.rotated
  {
    hide Deserialize, CheckCounter, DeriveKeys, CheckSign, Decrypt, RotateTheirs, ParseMessageHeader;
  }

  /** From every reachable state, whatever a machine sends at once and can be carried reaches the
      other machine, all of it and in order. */
  lemma SmpTravels(e: Setting, ss: seq<System>, i: nat, flag: byte, ms: seq<SmpMessage>, rnd: nat)
    requires e.Valid() && IsRun(e, ss) && i < |ss| && Open(ss[i]) && Exchange.Carriable(ms)
    ensures Travelled(e, ss[i], flag, ms, rnd) == ms
  {
    hide *;
    var s, ts := ss[i], Records(ms);
    CarriableMeans(ms);
    ReadRecords(ms, PaddingRecord());
    OpenFits(e, s, flag, ms);
    OpenWithin(s);
    RunInvariant(e, ss, i);
    FreshDelivered(e, ss, i, [], flag, ts, Some(rnd));
    OpenDistinct(e, s, flag, ts);
    NothingIsNulFree();
    PadsWith(ts);
    ArrivesRotated(e, SayStep(e, s, [], flag, ts), |s.ab|, rnd);
    TravelsWhenDelivered(e, s, flag, ms, rnd);
  }

  lemma CarriableMeans(ms: seq<SmpMessage>)
    requires Exchange.Carriable(ms)
    ensures |ms| <= 2 && forall m <- ms :: Carried(m, []) == Some(m)
  {
  }

  lemma OpenWithin(s: System)
    requires Open(s)
    ensures Within(s)
  {
  }

  lemma NothingIsNulFree()
    ensures NulFree([])
  {
  }

  lemma ArrivesRotated(e: Setting, s: System, i: nat, rnd: nat)
    requires e.Valid() && i < |s.ab| && Arriving(e, s, i, Some(rnd)).1.Accepted?
    ensures Arriving(e, s, i, Some(rnd)).1.rotated
  {
    hide Receive;
    RotatesWhenRandom(e, s.b.party, OnWire(e, s.a.party.tags, s.ab[i].msg), rnd);
  }

  lemma TravelsWhenDelivered(e: Setting, s: System, flag: byte, ms: seq<SmpMessage>, rnd: nat)
    requires e.Valid()
    requires var s1 := SayStep(e, s, [], flag, Records(ms));
             && |s1.ab| == |s.ab| + 1
             && var out := Arriving(e, s1, |s.ab|, Some(rnd)).1; out.Accepted? && out.rotated && Read(out.plain.tlvs) == ms
    ensures Travelled(e, s, flag, ms, rnd) == ms
  {
    hide SayStep, Arriving, Read, Records;
  }

  // ------------------------------------------------------------ the whole exchange

  lemma FlippedRun(e: Setting, ss: seq<System>)
    requires e.Valid() && IsRun(e, ss)
    ensures IsRun(e, Flipped(ss))
  {
    hide MoveA, Fits, Fresh;
    var fs := Flipped(ss);
    forall i, j {:trigger fs[i], fs[j]} | 0 <= i && j == i + 1 < |fs|
      ensures NextState(e, fs[i], fs[j])
    {
      assert NextState(e, ss[i], ss[j]);
      FlippedStep(e, ss[i], ss[j]);
    }
  }

  ghost function Flipped(ss: seq<System>): seq<System> {
    seq(|ss|, i requires 0 <= i < |ss| => ss[i].Flip())
  }

  lemma FlippedStep(e: Setting, s: System, s': System)
    requires e.Valid() && NextState(e, s, s')
    ensures NextState(e, s.Flip(), s'.Flip())
  {
    hide MoveA, Fits;
    assert s.Flip().Flip() == s && s'.Flip().Flip() == s';
    if m: Move :| (m.Deliver? ==> m.index < |s.ba|) && Fits(e, s, m) && s' == MoveA(e, s, m) {
      assert s'.Flip() == MoveA(e, s.Flip().Flip(), m).Flip();
    } else {
      var m: Move :| (m.Deliver? ==> m.index < |s.ab|) && Fits(e, s.Flip(), m) && s' == MoveA(e, s.Flip(), m).Flip();
      assert s'.Flip() == MoveA(e, s.Flip(), m);
    }
  }

  /** A point of a run at which a leg of the exchange is sent, with the flag and the receiver's next
      exponent. */
  datatype Leg = Leg(at: nat, flag: byte, rnd: nat)

  /** Odd legs go from a to b, even ones back. */
  ghost function OverRatchet(e: Setting, ss: seq<System>, legs: seq<Leg>, leg: nat, ms: seq<SmpMessage>): seq<SmpMessage>
    requires e.Valid()
  {
    if leg == 0 || leg > |legs| || legs[leg - 1].at >= |ss| then ms else
    var l := legs[leg - 1];
    Travelled(e, if leg % 2 == 1 then ss[l.at] else ss[l.at].Flip(), l.flag, ms, l.rnd)
  }

  /** All four legs are sent where there is room for them. */
  ghost predicate OpenLegs(ss: seq<System>, legs: seq<Leg>) {
    |legs| == 4 && forall k :: 0 <= k < |legs| ==> legs[k].at < |ss| && Open(if k % 2 == 0 then ss[legs[k].at] else ss[legs[k].at].Flip())
  }

  lemma RatchetFaithful(e: Setting, ss: seq<System>, legs: seq<Leg>, leg: nat, ms: seq<SmpMessage>)
    requires e.Valid() && IsRun(e, ss) && OpenLegs(ss, legs) && Exchange.Carriable(ms)
    ensures OverRatchet(e, ss, legs, leg, ms) == ms
  {
    hide IsRun, Open, Exchange.Carriable, Travelled;
    if 0 < leg <= |legs| {
      var l := legs[leg - 1];
      if leg % 2 == 1 {
        SmpTravels(e, ss, l.at, l.flag, ms, l.rnd);
      } else {
        FlippedRun(e, ss);
        SmpTravels(e, Flipped(ss), l.at, l.flag, ms, l.rnd);
      }
    }
  }

  ghost function EnvOf(e: Setting): Smp.Env {
    Smp.Env(e.crypto, e.group, e.version)
  }

  /** The exchange of two honest machines, each leg in a data message sent from any reachable state of
      an encrypted session and delivered next, ends as the draws and the secrets decide; in turn and
      with ordinary draws in success exactly when what the users typed matches. */
  lemma ExchangeOverRatchet(e: Setting, ss: seq<System>, legs: seq<Leg>, pa: Machines.Peer, pb: Machines.Peer,
                            ma: Machines.Machine, mb: Machines.Machine, s: Exchange.Session)
    requires e.Valid() && IsRun(e, ss) && OpenLegs(ss, legs) && Exchange.Meeting(EnvOf(e), pa, pb, s)
    ensures Exchange.EndsAs(Exchange.Decided(EnvOf(e), s.Run(EnvOf(e), pa), Exchange.InTurn(ma, mb)), ma, s,
                            Exchange.Talked(EnvOf(e), pa, pb, ma, mb, s, RatchetChannel(e, ss, legs)))
    ensures Exchange.InTurn(ma, mb) && Exchange.NonDegenerate(EnvOf(e), s.Run(EnvOf(e), pa)) ==>
              Exchange.EndsAs(if Exchange.SecretsMatch(EnvOf(e), pa, s) then Exchange.Agreed else Exchange.Differed, ma, s,
                              Exchange.Talked(EnvOf(e), pa, pb, ma, mb, s, RatchetChannel(e, ss, legs)))
  {
    hide *;
    EnvValid(e);
    RatchetIsFaithful(e, ss, legs);
    Exchange.HonestExchange(EnvOf(e), pa, pb, ma, mb, s, RatchetChannel(e, ss, legs));
  }

  ghost function RatchetChannel(e: Setting, ss: seq<System>, legs: seq<Leg>): Exchange.Channel
    requires e.Valid()
  {
    (leg: nat, ms: seq<SmpMessage>) => OverRatchet(e, ss, legs, leg, ms)
  }

  lemma RatchetIsFaithful(e: Setting, ss: seq<System>, legs: seq<Leg>)
    requires e.Valid() && IsRun(e, ss) && OpenLegs(ss, legs)
    ensures Exchange.Faithful(RatchetChannel(e, ss, legs))
  {
    hide IsRun, OpenLegs, Exchange.Carriable, OverRatchet;
    forall leg: nat, ms: seq<SmpMessage> | Exchange.Carriable(ms)
      ensures RatchetChannel(e, ss, legs)(leg, ms) == ms
    {
      RatchetFaithful(e, ss, legs, leg, ms);
    }
  }

  lemma EnvValid(e: Setting)
    requires e.Valid()
    ensures EnvOf(e).Valid()
  {
  }
}
