/** Type-length-value records and the SMP messages inside them (tlv.go, smp.go, smp_msg*.go). */
module Tlvs {
  import opened Wire
  import opened Smp
  import opened SmpMachine

  const PADDING := 0x00
  const SMP1 := 0x02
  const SMP2 := 0x03
  const SMP3 := 0x04
  const SMP4 := 0x05
  const SMP_ABORT := 0x06
  const SMP1_WITH_QUESTION := 0x07

  /** The length field is kept apart from the value, as in the source: nothing ties them. */
  datatype Tlv = Tlv(tlvType: uint16, tlvLength: uint16, value: bytes)

  function SerializeTlv(t: Tlv): (b: bytes)
    ensures |b| == 4 + |t.value|
  {
    Short(t.tlvType) + Short(t.tlvLength) + t.value
  }

  function DeserializeTlv(b: bytes): Option<Tlv> {
    match ExtractShort(b)
    case Corrupt => None
    case Parsed(r1, tp) =>
      match ExtractShort(r1)
      case Corrupt => None
      case Parsed(r2, n) => if |r2| < n then None else Some(Tlv(tp, n, r2[..n]))
  }

  ghost predicate WellFormed(t: Tlv) {
    t.tlvLength == |t.value|
  }

  /** Reading a written record gives it back, whatever follows it, exactly when its length field is honest. */
  lemma SerializeRoundTrip(t: Tlv, rest: bytes)
    ensures DeserializeTlv(SerializeTlv(t) + rest) == Some(t) <==> WellFormed(t)
  {
    var tail := t.value + rest;
    assert SerializeTlv(t) + rest == Short(t.tlvType) + (Short(t.tlvLength) + tail);
    ShortRoundTrip(t.tlvType, Short(t.tlvLength) + tail);
    ShortRoundTrip(t.tlvLength, tail);
    if WellFormed(t) {
      assert tail[..t.tlvLength] == t.value;
    }
  }

  // ------------------------------------------------------------ SMP messages

  /** genSMPTLV: a count, then that many MPIs; the length is a uint16 conversion. */
  function GenSmpTlv(tp: uint16, mpis: seq<nat>): Tlv
    requires |mpis| < WORD_LIMIT
  {
    var data := Word(|mpis|) + Mpis(mpis);
    Tlv(tp, |data| % 0x1_0000, data)
  }

  function Msg1Mpis(m: Msg1): seq<nat> {
    [m.g2a, m.c2, m.d2, m.g3a, m.c3, m.d3]
  }

  function Msg2Mpis(m: Msg2): seq<nat> {
    [m.g2b, m.c2, m.d2, m.g3b, m.c3, m.d3, m.pb, m.qb, m.cp, m.d5, m.d6]
  }

  function Msg3Mpis(m: Msg3): seq<nat> {
    [m.pa, m.qa, m.cp, m.d5, m.d6, m.ra, m.cr, m.d7]
  }

  function Msg4Mpis(m: Msg4): seq<nat> {
    [m.rb, m.cr, m.d7]
  }

  function ToTlv(m: Message): Tlv {
    match m
    case First(m1) =>
      var t := GenSmpTlv(SMP1, Msg1Mpis(m1));
      if m1.question.None? then t else
      var value := m1.question.value + [0] + t.value;
      Tlv(SMP1_WITH_QUESTION, |value| % 0x1_0000, value)
    case Second(m2) => GenSmpTlv(SMP2, Msg2Mpis(m2))
    case Third(m3) => GenSmpTlv(SMP3, Msg3Mpis(m3))
    case Fourth(m4) => GenSmpTlv(SMP4, Msg4Mpis(m4))
    case Abort => GenSmpTlv(SMP_ABORT, [])
  }

  function ToMsg1(value: bytes): Option<Msg1> {
    var p := ExtractMpis(value);
    if p.Corrupt? || |p.value| < 6 then None else
    var v := p.value;
    Some(Msg1(v[0], v[3], v[1], v[4], v[2], v[5], None))
  }

  function FromTlv(t: Tlv): Option<Message> {
    if t.tlvType == SMP1 then
      var m := ToMsg1(t.value);
      if m.None? then None else Some(First(m.value))
    else if t.tlvType == SMP1_WITH_QUESTION then
      var n := Find(t.value, 0);
      if n == |t.value| then None else
      var m := ToMsg1(t.value[n + 1..]);
      if m.None? then None else Some(First(m.value.(question := Some(t.value[..n]))))
    else if t.tlvType == SMP_ABORT then Some(Abort)
    else
      var p := ExtractMpis(t.value);
      if p.Corrupt? then None else
      var v := p.value;
      if t.tlvType == SMP2 && |v| >= 11 then
        Some(Second(Msg2(v[0], v[3], v[1], v[4], v[2], v[5], v[6], v[7], v[8], v[9], v[10])))
      else if t.tlvType == SMP3 && |v| >= 8 then
        Some(Third(Msg3(v[0], v[1], v[2], v[3], v[4], v[7], v[5], v[6])))
      else if t.tlvType == SMP4 && |v| >= 3 then
        Some(Fourth(Msg4(v[1], v[2], v[0])))
      else None
  }

  ghost predicate NulFree(b: bytes) {
    forall i :: 0 <= i < |b| ==> b[i] != 0
  }

  ghost predicate QuestionNulFree(m: Message) {
    m.First? && m.m1.question.Some? ==> NulFree(m.m1.question.value)
  }

  /** What the other side decodes from an SMP message written as a record, with more bytes after it. */
  function Carried(m: Message, rest: bytes): Option<Message> {
    match DeserializeTlv(SerializeTlv(ToTlv(m)) + rest)
    case None => None
    case Some(t) => FromTlv(t)
  }

  /** An SMP message comes out of its written record unchanged exactly when its question holds no NUL
      and the value is short enough for the 16-bit length field. */
  lemma SmpTlvRoundTrip(m: Message, rest: bytes)
    ensures Carried(m, rest) == Some(m) <==> QuestionNulFree(m) && WellFormed(ToTlv(m))
  {
    hide FromTlv, ToTlv, SerializeTlv, DeserializeTlv, QuestionNulFree, WellFormed;
    if WellFormed(ToTlv(m)) {
      SerializeRoundTrip(ToTlv(m), rest);
      WellFormedFits(m);
      ReadsBack(m);
    } else {
      TruncatedRecord(ToTlv(m), rest);
      LengthIsTruncated(m);
      var t := DeserializeTlv(SerializeTlv(ToTlv(m)) + rest).value;
      ShorterDiffers(m, t);
    }
  }

  /** A record whose length field lost its high bits reads as the start of its value. */
  lemma TruncatedRecord(t: Tlv, rest: bytes)
    ensures t.tlvLength <= |t.value| ==> DeserializeTlv(SerializeTlv(t) + rest) == Some(t.(value := t.value[..t.tlvLength]))
  {
    var tail := t.value + rest;
    assert SerializeTlv(t) + rest == Short(t.tlvType) + (Short(t.tlvLength) + tail);
    ShortRoundTrip(t.tlvType, Short(t.tlvLength) + tail);
    ShortRoundTrip(t.tlvLength, tail);
    if t.tlvLength <= |t.value| {
      assert tail[..t.tlvLength] == t.value[..t.tlvLength];
    }
  }

  lemma LengthIsTruncated(m: Message)
    ensures ToTlv(m).tlvLength <= |ToTlv(m).value| && (WellFormed(ToTlv(m)) <==> |ToTlv(m).value| < 0x1_0000)
  {
    hide Mpis, Word;
    assert ToTlv(m).tlvLength == |ToTlv(m).value| % 0x1_0000;
    LowBits(|ToTlv(m).value|);
  }

  lemma LowBits(n: nat)
    ensures n % 0x1_0000 <= n && (n % 0x1_0000 == n <==> n < 0x1_0000)
  {
  }

  // ------------------------------------------------------------ values that arrive whole

  ghost predicate MpisFit(vs: seq<nat>) {
    forall v <- vs :: FitsMpi(v)
  }

  /** The numbers of a message. */
  function MpisOf(m: Message): seq<nat> {
    match m
    case First(m1) => Msg1Mpis(m1)
    case Second(m2) => Msg2Mpis(m2)
    case Third(m3) => Msg3Mpis(m3)
    case Fourth(m4) => Msg4Mpis(m4)
    case Abort => []
  }

  lemma {:induction false} MpisLonger(vs: seq<nat>, v: nat)
    requires v in vs
    ensures |NatBytes(v)| < |Mpis(vs)|
  {
    if v != vs[0] {
      MpisLonger(vs[1..], v);
    }
  }

  lemma WellFormedFits(m: Message)
    requires WellFormed(ToTlv(m))
    ensures MpisFit(MpisOf(m))
  {
    hide Mpis, NatBytes;
    assert |ToTlv(m).value| >= |Mpis(MpisOf(m))|;
    forall v <- MpisOf(m)
      ensures FitsMpi(v)
    {
      MpisLonger(MpisOf(m), v);
    }
  }

  lemma SmpTlvExtracts(tp: uint16, mpis: seq<nat>)
    requires |mpis| < WORD_LIMIT && MpisFit(mpis)
    ensures ExtractMpis(GenSmpTlv(tp, mpis).value) == Parsed([], mpis)
  {
    MpisRoundTrip(mpis, []);
    assert Word(|mpis|) + Mpis(mpis) + [] == Word(|mpis|) + Mpis(mpis);
  }

  /** How many numbers an SMP record must hold. */
  ghost function Needs(tp: uint16): nat {
    if tp == SMP1 then 6 else if tp == SMP2 then 11 else if tp == SMP3 then 8 else 3
  }

  /** A record with any list of numbers: its type decides what message it is, it is refused exactly with
      too few numbers, and numbers beyond those are ignored. */
  lemma DecodesList(tp: uint16, vs: seq<nat>)
    requires |vs| < WORD_LIMIT && MpisFit(vs) && tp != SMP1_WITH_QUESTION
    ensures var r := FromTlv(GenSmpTlv(tp, vs));
            if tp == SMP_ABORT then r == Some(Abort)
            else if tp == SMP1 || tp == SMP2 || tp == SMP3 || tp == SMP4 then
              && (r.Some? <==> |vs| >= Needs(tp))
              && (r.Some? ==> && MpisOf(r.value) == vs[..Needs(tp)]
                              && (tp == SMP1 <==> r.value.First?) && (tp == SMP2 <==> r.value.Second?)
                              && (tp == SMP3 <==> r.value.Third?) && (tp == SMP4 <==> r.value.Fourth?)
                              && (r.value.First? ==> r.value.m1.question.None?))
            else r.None?
  {
    hide ExtractMpis, Mpis, FitsMpi;
    SmpTlvExtracts(tp, vs);
  }

  lemma ReadsBack(m: Message)
    requires MpisFit(MpisOf(m))
    ensures FromTlv(ToTlv(m)) == Some(m) <==> QuestionNulFree(m)
  {
    hide ExtractMpis, Mpis, FitsMpi, MpisFit;
    match m
    case First(m1) => FirstReadsBack(m1);
    case Second(m2) => SmpTlvExtracts(SMP2, Msg2Mpis(m2));
    case Third(m3) => SmpTlvExtracts(SMP3, Msg3Mpis(m3));
    case Fourth(m4) => SmpTlvExtracts(SMP4, Msg4Mpis(m4));
    case Abort => assert ToTlv(m).tlvType == SMP_ABORT;
  }

  lemma FirstReadsBack(m1: Msg1)
    requires MpisFit(Msg1Mpis(m1))
    ensures FromTlv(ToTlv(First(m1))) == Some(First(m1)) <==> QuestionNulFree(First(m1))
  {
    hide ExtractMpis, Mpis, FitsMpi, MpisFit;
    var t := GenSmpTlv(SMP1, Msg1Mpis(m1));
    SmpTlvExtracts(SMP1, Msg1Mpis(m1));
    assert ToMsg1(t.value) == Some(m1.(question := None));
    if m1.question.Some? {
      var q := m1.question.value;
      var value := q + [0] + t.value;
      assert value[|q|] == 0 && value[..|q|] == q && value[|q| + 1..] == t.value;
      if NulFree(q) {
        FindUnique(value, 0, |q|);
      } else {
        var n := Find(value, 0);
        assert n < |q|;
      }
    }
  }

  // ------------------------------------------------------------ values that are cut off

  /** Numbers never read from fewer bytes than they take when written. */
  lemma {:induction false} ExtractNeeds(d: bytes, n: nat)
    ensures var p := ExtractMpiCount(d, n); p.Parsed? ==> |p.value| == n && |Mpis(p.value)| + |p.rest| <= |d|
    decreases n
  {
    if n > 0 && ExtractMpi(d).Parsed? {
      var b := ExtractData(d).value;
      NatBytesLength(FromBytes(b), |b|);
      ExtractNeeds(ExtractMpi(d).rest, n - 1);
      var p := ExtractMpiCount(d, n);
      if p.Parsed? {
        assert p.value[1..] == ExtractMpiCount(ExtractMpi(d).rest, n - 1).value;
      }
    }
  }

  /** A list of numbers does not read from a cut-off text. */
  lemma CutListDiffers(mpis: seq<nat>, d: bytes)
    requires |mpis| < WORD_LIMIT && d < Word(|mpis|) + Mpis(mpis)
    ensures ExtractMpis(d).Parsed? ==> |ExtractMpis(d).value| == |mpis| && ExtractMpis(d).value != mpis
  {
    hide Mpis, ExtractMpiCount, Word, ExtractWord;
    if |d| < 4 {
      NoWord(d);
    } else {
      PrefixSplits(d, Word(|mpis|), Mpis(mpis));
      WordRoundTrip(|mpis|, d[4..]);
      ExtractNeeds(d[4..], |mpis|);
    }
  }

  lemma PrefixSplits(d: bytes, w: bytes, r: bytes)
    requires d < w + r && |d| >= |w|
    ensures d == w + d[|w|..] && |d[|w|..]| < |r|
  {
    assert forall i :: 0 <= i < |w| ==> d[i] == (w + r)[i] == w[i];
    assert |d| < |w| + |r|;
  }

  lemma NoWord(d: bytes)
    requires |d| < 4
    ensures ExtractWord(d).Corrupt?
  {
  }

  lemma ShorterDiffers(m: Message, t: Tlv)
    requires t.tlvType == ToTlv(m).tlvType && t.value < ToTlv(m).value && !WellFormed(ToTlv(m))
    ensures FromTlv(t) != Some(m)
  {
    hide ExtractMpis, Mpis;
    match m
    case First(m1) => ShorterFirstDiffers(m1, t);
    case Second(m2) => CutListDiffers(Msg2Mpis(m2), t.value);
    case Third(m3) => CutListDiffers(Msg3Mpis(m3), t.value);
    case Fourth(m4) => CutListDiffers(Msg4Mpis(m4), t.value);
    case Abort => NoMpis();
  }

  lemma NoMpis()
    ensures |GenSmpTlv(SMP_ABORT, []).value| == 4
  {
  }

  lemma ShorterFirstDiffers(m1: Msg1, t: Tlv)
    requires t.tlvType == ToTlv(First(m1)).tlvType && t.value < ToTlv(First(m1)).value
    ensures FromTlv(t) != Some(First(m1))
  {
    hide ExtractMpis, Mpis;
    var whole := GenSmpTlv(SMP1, Msg1Mpis(m1)).value;
    if m1.question.None? {
      CutListDiffers(Msg1Mpis(m1), t.value);
    } else {
      var q, n := m1.question.value, Find(t.value, 0);
      var value := q + [0] + whole;
      if n < |t.value| && t.value[..n] == q {
        assert n == |q|;
        assert t.value[n + 1..] < whole by {
          assert value[|q| + 1..] == whole;
        }
        CutListDiffers(Msg1Mpis(m1), t.value[n + 1..]);
      }
    }
  }
}
