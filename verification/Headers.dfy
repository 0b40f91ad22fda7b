/** Message headers and instance tags (otrv2.go, otrv3.go). */
module Headers {
  import opened Wire

  const MIN_VALID_TAG := 0x100
  const V2_HEADER := 3
  const V3_HEADER := 11
  const TYPE_DATA: byte := 0x03

  /** ourInstanceTag and theirInstanceTag; 0 is not set yet. */
  datatype Tags = Tags(ours: uint32, theirs: uint32) {
    function Flip(): Tags { Tags(theirs, ours) }
  }

  datatype TagCheck = Matching | Invalid | OtherInstance

  /** verifyInstanceTags: an unset peer tag is taken from the message before it is checked. */
  function VerifyTags(t: Tags, their: uint32, our: uint32): (Tags, TagCheck) {
    var t1 := if t.theirs == 0 then t.(theirs := their) else t;
    if 0 < our < MIN_VALID_TAG || their < MIN_VALID_TAG then (t1, Invalid)
    else if (our != 0 && t1.ours != our) || t1.theirs != their then (t1, OtherInstance)
    else (t1, Matching)
  }

  function MessageHeader(v: Version, msgType: byte, t: Tags): (h: bytes)
    ensures |h| == if v.V2? then V2_HEADER else V3_HEADER
  {
    match v
    case V2 => Short(2) + [msgType]
    case V3 => Short(3) + [msgType] + Word(t.ours) + Word(t.theirs)
  }

  datatype HeaderParse = BadHeader | ForOther | Header(header: bytes, body: bytes)

  function ParseMessageHeader(v: Version, t: Tags, msg: bytes): (Tags, HeaderParse) {
    match v
    case V2 =>
      if |msg| < V2_HEADER then (t, BadHeader) else (t, Header(msg[..V2_HEADER], msg[V2_HEADER..]))
    case V3 =>
      if |msg| < V3_HEADER then (t, BadHeader) else
      var their, our := ExtractWord(msg[3..]).value, ExtractWord(msg[7..]).value;
      match VerifyTags(t, their, our)
      case (t1, Invalid) => (t1, BadHeader)
      case (t1, OtherInstance) => (t1, ForOther)
      case (t1, Matching) => (t1, Header(msg[..V3_HEADER], msg[V3_HEADER..]))
  }

  /** What a header carries: the version, the type, and in version 3 the sender's tag before the receiver's. */
  lemma HeaderCarries(v: Version, msgType: byte, t: Tags, body: bytes)
    ensures var msg := MessageHeader(v, msgType, t) + body;
            && ExtractShort(msg) == Parsed(msg[2..], if v.V2? then 2 else 3) && msg[2] == msgType
            && (v.V3? ==> ExtractWord(msg[3..]) == Parsed(msg[7..], t.ours) && ExtractWord(msg[7..]) == Parsed(body, t.theirs))
  {
    var msg := MessageHeader(v, msgType, t) + body;
    hide Short, Word, ExtractShort, ExtractWord;
    match v
    case V2 =>
      assert msg == Short(2) + ([msgType] + body);
      ShortRoundTrip(2, [msgType] + body);
      assert msg[2..] == [msgType] + body;
    case V3 =>
      var tags := Word(t.ours) + (Word(t.theirs) + body);
      assert msg == Short(3) + ([msgType] + tags);
      ShortRoundTrip(3, [msgType] + tags);
      assert msg[2..] == [msgType] + tags && msg[3..] == tags && msg[7..] == Word(t.theirs) + body;
      WordRoundTrip(t.ours, Word(t.theirs) + body);
      WordRoundTrip(t.theirs, body);
  }

  ghost predicate ValidTags(t: Tags) {
    t.ours >= MIN_VALID_TAG && t.theirs >= MIN_VALID_TAG
  }

  /** Anything shorter than a header is refused, and nothing is learnt from it. */
  lemma TooShort(v: Version, t: Tags, msg: bytes)
    ensures |msg| < (if v.V2? then V2_HEADER else V3_HEADER) ==> ParseMessageHeader(v, t, msg) == (t, BadHeader)
  {
  }

  /** A message of a party with tags s is for a party with tags t: it names a valid sender, the one
      known already if any, and either no receiver or this one. */
  ghost predicate Addressed(s: Tags, t: Tags) {
    && s.ours >= MIN_VALID_TAG && (t.theirs == 0 || t.theirs == s.ours)
    && (s.theirs == 0 || (s.theirs >= MIN_VALID_TAG && s.theirs == t.ours))
  }

  /** A receiver splits a message where the header was put in front exactly if it is addressed, and
      its tags change only by taking over a sender it did not know. */
  lemma HeaderRoundTrip(v: Version, msgType: byte, s: Tags, t: Tags, body: bytes)
    ensures var h := MessageHeader(v, msgType, s);
            var (t1, r) := ParseMessageHeader(v, t, h + body);
            && (r == Header(h, body) <==> v.V2? || Addressed(s, t))
            && (r.BadHeader? <==> v.V3? && (s.ours < MIN_VALID_TAG || 0 < s.theirs < MIN_VALID_TAG))
            && t1 == if v.V3? && t.theirs == 0 then t.(theirs := s.ours) else t
  {
    var h := MessageHeader(v, msgType, s);
    var msg := h + body;
    assert msg[..|h|] == h && msg[|h|..] == body;
    if v.V3? {
      assert msg[3..] == Word(s.ours) + (Word(s.theirs) + body);
      assert msg[7..] == Word(s.theirs) + body;
      WordRoundTrip(s.ours, Word(s.theirs) + body);
      WordRoundTrip(s.theirs, body);
    }
  }

  lemma SplitsAfterHeader(v: Version, msgType: byte, s: Tags, t: Tags, body: bytes)
    ensures var h := MessageHeader(v, msgType, s);
            var r := ParseMessageHeader(v, t, h + body).1; r.Header? ==> r == Header(h, body)
  {
    var h := MessageHeader(v, msgType, s);
    assert (h + body)[..|h|] == h && (h + body)[|h|..] == body;
    hide Word, ExtractWord;
  }
}
