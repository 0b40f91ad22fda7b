/** Data messages (messages.go): the wire format, the signature over its prefix, and the padded,
    encrypted plaintext with its TLV records. */
module DataMessages {
  import opened Wire
  import opened Crypto
  import opened Tlvs

  datatype DataMsg = DataMsg(
    flag: byte, senderKeyId: uint32, recipientKeyId: uint32, y: nat, ctr: uint64,
    encrypted: bytes, authenticator: bytes, oldMacKeys: seq<bytes>)

  // ------------------------------------------------------------ wire format

  function SerializeUnsigned(m: DataMsg): bytes {
    [m.flag] + Word(m.senderKeyId) + Word(m.recipientKeyId) + Mpi(m.y) + Long(m.ctr) + Data(m.encrypted)
  }

  function Concat(keys: seq<bytes>): bytes {
    if keys == [] then [] else keys[0] + Concat(keys[1..])
  }

  function Serialize(m: DataMsg): bytes {
    SerializeUnsigned(m) + m.authenticator + Data(Concat(m.oldMacKeys))
  }

  function DeserializeUnsigned(b: bytes): Parsed<DataMsg> {
    if b == [] then Corrupt else
    match ExtractWord(b[1..])
    case Corrupt => Corrupt
    case Parsed(r1, sender) =>
      match ExtractWord(r1)
      case Corrupt => Corrupt
      case Parsed(r2, recipient) =>
        match ExtractMpi(r2)
        case Corrupt => Corrupt
        case Parsed(r3, y) =>
          if |r3| < 8 || FromBytes(r3[..8]) == 0 then Corrupt else
          match ExtractData(r3[8..])
          case Corrupt => Corrupt
          case Parsed(rest, encrypted) =>
            Pow256Widths();
            Parsed(rest, DataMsg(b[0], sender, recipient, y, FromBytes(r3[..8]), encrypted, [], []))
  }

  /** The revealed MAC keys, cut into hash-length pieces. */
  function SplitKeys(b: bytes): Option<seq<bytes>>
    decreases |b|
  {
    if b == [] then Some([])
    else if |b| < HASH_LENGTH then None
    else
      match SplitKeys(b[HASH_LENGTH..])
      case None => None
      case Some(keys) => Some([b[..HASH_LENGTH]] + keys)
  }

  /** A received message and the prefix of its bytes that its signature covers. */
  datatype Received = Received(msg: DataMsg, signed: bytes)

  function Deserialize(b: bytes): Option<Received> {
    match DeserializeUnsigned(b)
    case Corrupt => None
    case Parsed(rest, m) =>
      if |rest| < HASH_LENGTH || |rest| > |b| then None else
      match ExtractData(rest[HASH_LENGTH..])
      case Corrupt => None
      case Parsed(_, revealed) =>
        match SplitKeys(revealed)
        case None => None
        case Some(keys) =>
          Some(Received(m.(authenticator := rest[..HASH_LENGTH], oldMacKeys := keys), b[..|b| - |rest|]))
  }

  /** The loop that copies the revealed keys out of their DATA field. */
  method ReadRevealedKeys(b: bytes) returns (ok: bool, keys: seq<bytes>)
    ensures ok <==> SplitKeys(b).Some?
    ensures ok ==> SplitKeys(b) == Some(keys)
  {
    keys := [];
    var rest := b;
    assert SplitKeys(b).Some? ==> keys + SplitKeys(b).value == SplitKeys(b).value;
    while |rest| > 0
      invariant match SplitKeys(rest)
                case None => SplitKeys(b).None?
                case Some(more) => SplitKeys(b) == Some(keys + more)
      decreases |rest|
    {
      if |rest| < HASH_LENGTH {
        return false, [];
      }
      ghost var more := SplitKeys(rest[HASH_LENGTH..]);
      assert more.Some? ==> keys + ([rest[..HASH_LENGTH]] + more.value) == (keys + [rest[..HASH_LENGTH]]) + more.value;
      keys := keys + [rest[..HASH_LENGTH]];
      rest := rest[HASH_LENGTH..];
    }
    assert keys + [] == keys;
    ok := true;
  }

  /** What the sender guarantees about the parts of a message it serializes. */
  ghost predicate Sendable(m: DataMsg) {
    && FitsMpi(m.y) && |m.encrypted| < WORD_LIMIT && |m.authenticator| == HASH_LENGTH
    && (forall k <- m.oldMacKeys :: |k| == HASH_LENGTH)
    && |Concat(m.oldMacKeys)| < WORD_LIMIT
  }

  lemma {:induction false} SplitKeysRoundTrip(keys: seq<bytes>)
    requires forall k <- keys :: |k| == HASH_LENGTH
    ensures SplitKeys(Concat(keys)) == Some(keys) && |Concat(keys)| == HASH_LENGTH * |keys|
  {
    if keys != [] {
      SplitKeysRoundTrip(keys[1..]);
      var b := Concat(keys);
      assert b[..HASH_LENGTH] == keys[0] && b[HASH_LENGTH..] == Concat(keys[1..]);
      assert [keys[0]] + keys[1..] == keys;
    }
  }

  lemma UnsignedRoundTrip(m: DataMsg, tail: bytes)
    requires FitsMpi(m.y) && |m.encrypted| < WORD_LIMIT
    ensures DeserializeUnsigned(SerializeUnsigned(m) + tail)
            == if m.ctr == 0 then Corrupt else Parsed(tail, m.(authenticator := [], oldMacKeys := []))
  {
    hide Mpi, Data, Word, Long, ExtractWord, ExtractMpi, ExtractData;
    var t5 := Data(m.encrypted) + tail;
    var t4 := Long(m.ctr) + t5;
    var t3 := Mpi(m.y) + t4;
    var t2 := Word(m.recipientKeyId) + t3;
    var t1 := Word(m.senderKeyId) + t2;
    assert SerializeUnsigned(m) + tail == [m.flag] + t1;
    assert ([m.flag] + t1)[1..] == t1;
    WordRoundTrip(m.senderKeyId, t2);
    WordRoundTrip(m.recipientKeyId, t3);
    MpiRoundTrip(m.y, t4);
    LongRoundTrip(m.ctr);
    assert t4[..8] == Long(m.ctr) && t4[8..] == t5;
    DataRoundTrip(m.encrypted, tail);
  }

  /** A serialized message reads back unchanged exactly when its counter is not zero, and the
      receiver's signed prefix is byte for byte what the sender signed. */
  lemma DataMsgRoundTrip(m: DataMsg)
    requires Sendable(m)
    ensures Deserialize(Serialize(m)) == Some(Received(m, SerializeUnsigned(m))) <==> m.ctr != 0
  {
    hide Data, ExtractData, SplitKeys, Concat, SerializeUnsigned, DeserializeUnsigned, FitsMpi;
    var u := SerializeUnsigned(m);
    var keys := Data(Concat(m.oldMacKeys));
    var tail := m.authenticator + keys;
    assert Serialize(m) == u + tail;
    UnsignedRoundTrip(m, tail);
    if m.ctr != 0 {
      assert tail[..HASH_LENGTH] == m.authenticator && tail[HASH_LENGTH..] == keys;
      DataRoundTrip(Concat(m.oldMacKeys), []);
      assert keys + [] == keys;
      SplitKeysRoundTrip(m.oldMacKeys);
      assert (u + tail)[..|u + tail| - |tail|] == u;
    }
  }

  // ------------------------------------------------------------ signature

  function Sign(c: Primitives, key: bytes, header: bytes, m: DataMsg): DataMsg {
    m.(authenticator := c.hmacSha1(key, header + SerializeUnsigned(m)))
  }

  /** checkSign, over the bytes that were received. */
  predicate CheckSign(c: Primitives, key: bytes, header: bytes, r: Received) {
    r.msg.authenticator == c.hmacSha1(key, header + r.signed)
  }

  // ------------------------------------------------------------ plaintext

  datatype Plain = Plain(message: bytes, tlvs: seq<Tlv>)

  function SerializeTlvs(ts: seq<Tlv>): bytes {
    if ts == [] then [] else SerializeTlv(ts[0]) + SerializeTlvs(ts[1..])
  }

  function SerializePlain(p: Plain): bytes {
    p.message + [0] + SerializeTlvs(p.tlvs)
  }

  lemma DeserializedLength(b: bytes)
    requires DeserializeTlv(b).Some?
    ensures 4 + DeserializeTlv(b).value.tlvLength <= |b|
  {
  }

  /** The records up to the first one that does not parse. */
  function ParseTlvs(b: bytes): seq<Tlv>
    decreases |b|
  {
    if b == [] then [] else
    match DeserializeTlv(b)
    case None => []
    case Some(t) =>
      DeserializedLength(b);
      [t] + ParseTlvs(b[4 + t.tlvLength..])
  }

  /** plainDataMsg.deserialize; its error is ignored by decrypt. */
  function DeserializePlain(b: bytes): Plain {
    var n := Find(b, 0);
    if n < |b| then Plain(b[..n], ParseTlvs(b[n + 1..])) else Plain(b, [])
  }

  /** The two loops of plainDataMsg.deserialize: up to the NUL, then record by record. */
  method ReadPlain(b: bytes) returns (message: bytes, tlvs: seq<Tlv>)
    ensures Plain(message, tlvs) == DeserializePlain(b)
  {
    hide ParseTlvs, Find;
    var nulPos := 0;
    while nulPos < |b| && b[nulPos] != 0
      invariant 0 <= nulPos <= |b| && forall i :: 0 <= i < nulPos ==> b[i] != 0
    {
      nulPos := nulPos + 1;
    }
    if nulPos == |b| {
      assert Find(b, 0) == |b|;
      return b, [];
    }
    FindUnique(b, 0, nulPos);
    message := b[..nulPos];
    tlvs := ReadTlvs(b[nulPos + 1..]);
  }

  method ReadTlvs(b: bytes) returns (tlvs: seq<Tlv>)
    ensures tlvs == ParseTlvs(b)
  {
    hide DeserializeTlv;
    tlvs := [];
    var rest := b;
    assert tlvs + ParseTlvs(b) == ParseTlvs(b);
    while |rest| > 0
      invariant tlvs + ParseTlvs(rest) == ParseTlvs(b)
      decreases |rest|
    {
      var t := DeserializeTlv(rest);
      if t.None? {
        assert tlvs + [] == tlvs;
        return;
      }
      DeserializedLength(rest);
      var next := rest[4 + t.value.tlvLength..];
      assert tlvs + ([t.value] + ParseTlvs(next)) == (tlvs + [t.value]) + ParseTlvs(next);
      tlvs := tlvs + [t.value];
      rest := next;
    }
    assert tlvs + [] == tlvs;
  }

  lemma {:induction false} TlvsRoundTrip(ts: seq<Tlv>)
    requires forall t <- ts :: WellFormed(t)
    ensures ParseTlvs(SerializeTlvs(ts)) == ts
  {
    if ts != [] {
      var rest := SerializeTlvs(ts[1..]);
      SerializeRoundTrip(ts[0], rest);
      assert (SerializeTlv(ts[0]) + rest)[4 + ts[0].tlvLength..] == rest;
      TlvsRoundTrip(ts[1..]);
      assert [ts[0]] + ts[1..] == ts;
    }
  }

  /** Plaintext and records come back exactly when the text holds no NUL; otherwise the reader
      sees a strictly shorter text. */
  lemma PlainRoundTrip(p: Plain)
    requires forall t <- p.tlvs :: WellFormed(t)
    ensures NulFree(p.message) ==> DeserializePlain(SerializePlain(p)) == p
    ensures DeserializePlain(SerializePlain(p)).message == p.message <==> NulFree(p.message)
  {
    var b, n := SerializePlain(p), |p.message|;
    assert b[..n] == p.message && b[n] == 0 && b[n + 1..] == SerializeTlvs(p.tlvs);
    if NulFree(p.message) {
      FindUnique(b, 0, n);
      TlvsRoundTrip(p.tlvs);
    } else {
      assert Find(b, 0) < n;
    }
  }

  // ------------------------------------------------------------ padding and encryption

  const GRANULARITY := 256

  function PaddingFor(n: nat): (r: nat)
    ensures 1 <= r <= GRANULARITY
  {
    GRANULARITY - (n + 4 + 1) % GRANULARITY
  }

  function Pad(p: Plain): Plain {
    var n := PaddingFor(|p.message|);
    Plain(p.message, p.tlvs + [Tlv(PADDING, n, Zeros(n))])
  }

  lemma {:induction false} SerializeTlvsAppend(ts: seq<Tlv>, t: Tlv)
    ensures SerializeTlvs(ts + [t]) == SerializeTlvs(ts) + SerializeTlv(t)
  {
    if ts == [] {
      assert ts + [t] == [t];
      assert SerializeTlvs([t]) == SerializeTlv(t) + SerializeTlvs([t][1..]);
    } else {
      assert (ts + [t])[1..] == ts[1..] + [t];
      SerializeTlvsAppend(ts[1..], t);
    }
  }

  /** Padding hides the length of the text: without other records, the padded plaintext is a whole
      number of granules.  It changes neither text nor records and comes last, as zeros. */
  lemma PaddedLength(p: Plain)
    ensures (|SerializePlain(Pad(p))| - |SerializeTlvs(p.tlvs)|) % GRANULARITY == 0
    ensures Pad(p).message == p.message && |Pad(p).tlvs| == |p.tlvs| + 1 && p.tlvs < Pad(p).tlvs
    ensures var t := Pad(p).tlvs[|p.tlvs|]; t.tlvType == PADDING && WellFormed(t) && 1 <= |t.value| <= GRANULARITY && forall b <- t.value :: b == 0
  {
    var n := PaddingFor(|p.message|);
    hide SerializeTlvs, SerializeTlv;
    SerializeTlvsAppend(p.tlvs, Tlv(PADDING, n, Zeros(n)));
    assert |SerializePlain(Pad(p))| - |SerializeTlvs(p.tlvs)| == |p.message| + 1 + 4 + n;
  }

  function Iv(ctr: uint64): bytes {
    Long(ctr) + Zeros(AES_BLOCK - 8)
  }

  /** The counter block starts with the message's counter and ends in zeros, so it tells counters apart. */
  lemma IvCarriesCounter(a: uint64, b: uint64)
    ensures |Iv(a)| == AES_BLOCK && FromBytes(Iv(a)[..8]) == a && forall i :: 8 <= i < AES_BLOCK ==> Iv(a)[i] == 0
    ensures Iv(a) == Iv(b) <==> a == b
  {
    LongRoundTrip(a);
    LongRoundTrip(b);
    assert Iv(a)[..8] == Long(a) && Iv(b)[..8] == Long(b);
  }

  function Encrypt(c: Primitives, key: bytes, ctr: uint64, p: Plain): bytes
    requires c.Valid()
  {
    Ctr(c, key, Iv(ctr), SerializePlain(Pad(p)))
  }

  function Decrypt(c: Primitives, key: bytes, ctr: uint64, b: bytes): Plain
    requires c.Valid()
  {
    DeserializePlain(Ctr(c, key, Iv(ctr), b))
  }

  /** The keystream from the message's own counter block takes a ciphertext back to the padded text. */
  lemma EncryptsUnder(c: Primitives, key: bytes, ctr: uint64, p: Plain)
    requires c.Valid()
    ensures var b := Encrypt(c, key, ctr, p); Xor(b, c.keystream(key, Iv(ctr), |b|)) == SerializePlain(Pad(p))
  {
    hide Iv, SerializePlain, Pad;
    CtrTwice(c, key, Iv(ctr), SerializePlain(Pad(p)));
  }

  /** Under the same key and counter the receiver gets the sender's text back exactly when it
      holds no NUL, followed then by the sender's records and the padding. */
  lemma DecryptsEncrypted(c: Primitives, key: bytes, ctr: uint64, p: Plain)
    requires c.Valid() && forall t <- p.tlvs :: WellFormed(t)
    ensures NulFree(p.message) ==> Decrypt(c, key, ctr, Encrypt(c, key, ctr, p)) == Pad(p)
    ensures Decrypt(c, key, ctr, Encrypt(c, key, ctr, p)).message == p.message <==> NulFree(p.message)
  {
    CtrTwice(c, key, Iv(ctr), SerializePlain(Pad(p)));
    PlainRoundTrip(Pad(p));
  }
}
