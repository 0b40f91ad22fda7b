/** The authenticated key exchange (ake.go, auth_state_machine.go, sendDHCommit in send.go) over
    values: what each message does to a conversation, with every local failure.  Random reads,
    signatures and message headers may fail; they are the draws of a step. */
module Ake {
  import opened Wire
  import opened DhGroup
  import opened Crypto
  import opened KeyManagement
  import Session

  type Setting = Session.Setting

  datatype AuthState = NoAuth | AwaitingDhKey | AwaitingRevealSig | AwaitingSig(revealSig: bytes)

  datatype AkeKeys = AkeKeys(c: bytes, m1: bytes, m2: bytes)

  datatype Ake = Ake(
    state: AuthState,
    exponent: Option<nat>, ourValue: Option<nat>, theirValue: Option<nat>,
    r: bytes, encryptedGx: bytes, hashedGx: bytes,
    revealKey: AkeKeys, sigKey: AkeKeys, keys: Keys)

  datatype MsgState = PlainText | Encrypted | Finished

  /** The part of a conversation the key exchange works on; theirKey is None as long as no key
      parsed completely. */
  datatype Party = Party(ake: Ake, keys: Keys, msgState: MsgState, sentRevealSig: bool, ssid: bytes, theirKey: Option<PublicKey>)

  /** The randomness of one step: None is a failed read; `header` says whether an instance tag could
      be drawn for the header; `sign` gives the signature of a hash under our long-term key. */
  datatype Draws = Draws(exponent: Option<nat>, r: Option<bytes>, header: bool, sign: bytes -> Option<bytes>, next: Option<nat>)

  datatype Reply = Reply(msgType: byte, body: bytes)
  datatype Result = Result(party: Party, reply: Option<Reply>, ok: bool)

  const TYPE_DH_COMMIT: byte := 0x02
  const TYPE_DH_KEY: byte := 0x0A
  const TYPE_REVEAL_SIG: byte := 0x11
  const TYPE_SIG: byte := 0x12
  const R_LENGTH := 16
  const SSID_LENGTH := 8
  const MAC_LENGTH := 20        // truncateLength
  const SIGNATURE_LENGTH := 40

  const NO_SLOTS := Keys(0, 0, None, None, None, None, [], [], [])
  const NO_KEYS := AkeKeys([], [], [])

  /** initAKE */
  function NewAke(): Ake {
    Ake(NoAuth, None, None, None, Zeros(R_LENGTH), [], [], NO_KEYS, NO_KEYS, NO_SLOTS)
  }

  // ------------------------------------------------------------ keys and signatures

  /** calculateAKEKeys: the session id, the keys of the Reveal Signature and of the Signature. */
  function AkeKeysFrom(c: Primitives, secret: nat): (bytes, AkeKeys, AkeKeys)
    requires c.Valid()
  {
    var s := Mpi(secret);
    var k := c.sha256([1] + s);
    (c.sha256([0] + s)[..SSID_LENGTH],
     AkeKeys(k[..AES_KEY_LENGTH], c.sha256([2] + s), c.sha256([3] + s)),
     AkeKeys(k[AES_KEY_LENGTH..], c.sha256([4] + s), c.sha256([5] + s)))
  }

  function SerializeKey(k: PublicKey): bytes {
    Short(0) + Mpi(k.p) + Mpi(k.q) + Mpi(k.g) + Mpi(k.y)
  }

  function ParseKey(b: bytes): Parsed<PublicKey> {
    match ExtractShort(b)
    case Corrupt => Corrupt
    case Parsed(rest, tag) =>
      if tag != 0 then Corrupt else
      match ExtractMpiCount(rest, 4)
      case Corrupt => Corrupt
      case Parsed(rest', v) => if |v| == 4 then Parsed(rest', PublicKey(v[0], v[1], v[2], v[3])) else Corrupt
  }

  /** appendAll */
  function Identified(one: nat, two: nat, key: PublicKey, keyId: uint32): bytes {
    Mpi(one) + Mpi(two) + SerializeKey(key) + Word(keyId)
  }

  /** The hash both sides sign and verify: the signer's value first. */
  function SignedHash(c: Primitives, k: AkeKeys, one: nat, two: nat, key: PublicKey, keyId: uint32): bytes {
    c.hmacSha256(k.m1, Identified(one, two, key, keyId))
  }

  function FixedSize(n: nat, b: bytes): bytes {
    if |b| < n then b + Zeros(n - |b|) else b
  }

  /** encrypt and decrypt: counter mode from a zero initialisation vector. */
  function Cipher(c: Primitives, key: bytes, data: bytes): (r: bytes)
    requires c.Valid()
    ensures |r| == |data|
  {
    Ctr(c, key, Zeros(AES_BLOCK), data)
  }

  function Seal(c: Primitives, k: AkeKeys, key: PublicKey, keyId: uint32, sig: bytes): bytes
    requires c.Valid()
  {
    Cipher(c, FixedSize(AES_KEY_LENGTH, k.c), SerializeKey(key) + Word(keyId) + sig)
  }

  function SealMac(c: Primitives, k: AkeKeys, sealed: bytes): bytes
    requires c.Valid()
  {
    c.hmacSha256(k.m2, Data(sealed))[..MAC_LENGTH]
  }

  /** The key that was found, if one parsed, and its id if the signature is good. */
  datatype Opened = BadMac | Unsigned(found: Option<PublicKey>) | Signed(key: PublicKey, keyId: uint32)

  /** processEncryptedSig */
  function Open(c: Primitives, k: AkeKeys, ours: nat, theirs: nat, sealed: bytes, mac: bytes): Opened
    requires c.Valid()
  {
    if SealMac(c, k, sealed) != mac then BadMac else
    match ParseKey(Cipher(c, FixedSize(AES_KEY_LENGTH, k.c), sealed))
    case Corrupt => Unsigned(None)
    case Parsed(rest, key) =>
      match ExtractWord(rest)
      case Corrupt => Unsigned(Some(key))
      case Parsed(sig, keyId) =>
        if |sig| == SIGNATURE_LENGTH && c.dsaVerify(key, SignedHash(c, k, theirs, ours, key, keyId), sig)
        then Signed(key, keyId) else Unsigned(Some(key))
  }

  // ------------------------------------------------------------ message bodies

  function CommitBody(c: Primitives, encryptedGx: bytes, value: nat): bytes {
    Data(encryptedGx) + Data(c.sha256(Mpi(value)))
  }

  function ParseCommit(b: bytes): Option<(bytes, bytes)> {
    match ExtractData(b)
    case Corrupt => None
    case Parsed(rest, gx) =>
      match ExtractData(rest)
      case Corrupt => None
      case Parsed(_, hash) => Some((gx, hash))
  }

  function SigBody(c: Primitives, k: AkeKeys, sealed: bytes): bytes
    requires c.Valid()
  {
    Data(sealed) + SealMac(c, k, sealed)
  }

  function ParseSig(b: bytes): Option<(bytes, bytes)> {
    match ExtractData(b)
    case Corrupt => None
    case Parsed(mac, sealed) => if |mac| == MAC_LENGTH then Some((sealed, mac)) else None
  }

  /** r is read into a fixed array of 16 bytes. */
  function ParseRevealSig(b: bytes): Option<(bytes, bytes, bytes)> {
    match ExtractData(b)
    case Corrupt => None
    case Parsed(rest, r) =>
      match ParseSig(rest)
      case None => None
      case Some((sealed, mac)) => Some((FixedSize(R_LENGTH, if |r| > R_LENGTH then r[..R_LENGTH] else r), sealed, mac))
  }

  /** bytes.Compare(a, b) == 1 */
  predicate Above(a: bytes, b: bytes) {
    if a == [] then false
    else if b == [] then true
    else if a[0] != b[0] then a[0] > b[0]
    else Above(a[1..], b[1..])
  }

  // ------------------------------------------------------------ the steps

  /** Where a step would otherwise dereference a nil number. */
  predicate Ready(c: Party) {
    && (!c.ake.state.NoAuth? ==> c.ake.exponent.Some? && c.ake.ourValue.Some?)
    && (c.ake.state.AwaitingSig? ==> c.ake.theirValue.Some?)
  }

  function Fail(c: Party): Result { Result(c, None, false) }

  function Ignore(c: Party): Result { Result(c, None, true) }

  function WithExponent(gr: Group, a: Ake, x: nat): Ake
    requires gr.p > 0
  {
    a.(exponent := Some(x), ourValue := Some(gr.Exp(G1, x)))
  }

  /** sendDHCommit, from any state.  None: the value is so short that encrypt slices out of range. */
  function SendDhCommit(e: Setting, c: Party, d: Draws): Option<Result>
    requires e.Valid()
  {
    var c0 := c.(ake := NewAke());
    if d.exponent.None? then Some(Fail(c0)) else
    var a1 := WithExponent(e.group, NewAke(), d.exponent.value);
    if d.r.None? then Some(Fail(c.(ake := a1))) else
    var gx := Mpi(a1.ourValue.value);
    if |gx| < AES_BLOCK then None else
    var a2 := a1.(r := d.r.value, encryptedGx := Cipher(e.crypto, d.r.value, gx));
    if !d.header then Some(Fail(c.(ake := a2))) else
    Some(Result(c.(ake := a2.(state := AwaitingDhKey)),
                Some(Reply(TYPE_DH_COMMIT, CommitBody(e.crypto, a2.encryptedGx, a2.ourValue.value))), true))
  }

  /** A DH Commit answered with a new exchange: the old one is wiped and replaced. */
  function AnswerCommit(e: Setting, c: Party, msg: bytes, d: Draws): Result
    requires e.Valid()
  {
    if d.exponent.None? then Fail(c.(ake := NewAke())) else
    var a := WithExponent(e.group, NewAke(), d.exponent.value);
    if !d.header then Fail(c.(ake := a)) else
    match ParseCommit(msg)
    case None => Fail(c.(ake := a))
    case Some((gx, hash)) =>
      Result(c.(ake := a.(encryptedGx := gx, hashedGx := hash, state := AwaitingRevealSig)),
             Some(Reply(TYPE_DH_KEY, Mpi(a.ourValue.value))), true)
  }

  /** wipeAndKeepRevealKeys: the keys kept share their bytes with the ones wiped. */
  function WipedKept(k: Keys): Keys {
    NO_SLOTS.(oldMacs := Zeroed(k.oldMacs))
  }

  function Zeroed(ks: seq<bytes>): seq<bytes> {
    seq(|ks|, i requires 0 <= i < |ks| => Zeros(|ks[i]|))
  }

  /** A second DH Commit while a Reveal Signature is awaited: same exponent, new commitment. */
  function RepeatedCommit(e: Setting, c: Party, msg: bytes, d: Draws): Result
    requires e.Valid() && c.ake.ourValue.Some?
  {
    var a := c.ake.(keys := WipedKept(c.ake.keys), encryptedGx := [], hashedGx := []);
    match ParseCommit(msg)
    case None => Fail(c.(ake := a))
    case Some((gx, hash)) =>
      var a' := a.(encryptedGx := gx, hashedGx := hash);
      if !d.header then Fail(c.(ake := a')) else
      Result(c.(ake := a'), Some(Reply(TYPE_DH_KEY, Mpi(a'.ourValue.value))), true)
  }

  /** Both sides sent a DH Commit: the higher hash of the two resends its own. */
  function CrossedCommit(e: Setting, c: Party, msg: bytes, d: Draws): Result
    requires e.Valid() && c.ake.ourValue.Some?
  {
    match ParseCommit(msg)
    case None => Fail(c)
    case Some((_, hash)) =>
      if !Above(e.crypto.sha256(Mpi(c.ake.ourValue.value)), hash) then AnswerCommit(e, c, msg, d) else
      if !d.header then Fail(c) else
      Result(c.(ake := c.ake.(state := AwaitingRevealSig)),
             Some(Reply(TYPE_DH_COMMIT, CommitBody(e.crypto, c.ake.encryptedGx, c.ake.ourValue.value))), true)
  }

  function ReceiveCommit(e: Setting, c: Party, msg: bytes, d: Draws): Result
    requires e.Valid() && Ready(c)
  {
    match c.ake.state
    case AwaitingDhKey => CrossedCommit(e, c, msg, d)
    case AwaitingRevealSig => RepeatedCommit(e, c, msg, d)
    case _ => AnswerCommit(e, c, msg, d)
  }

  /** calcAKEKeys of the shared secret. */
  function WithAkeKeys(e: Setting, c: Party): Party
    requires e.Valid() && c.ake.exponent.Some? && c.ake.theirValue.Some?
  {
    var (ssid, rk, sk) := AkeKeysFrom(e.crypto, e.group.Exp(c.ake.theirValue.value, c.ake.exponent.value));
    c.(ssid := ssid, ake := c.ake.(revealKey := rk, sigKey := sk))
  }

  /** The next key id, and our signature under it if it could be made. */
  function Signing(e: Setting, me: PublicKey, c: Party, k: AkeKeys, d: Draws): (Party, Option<bytes>)
    requires e.Valid() && c.ake.ourValue.Some? && c.ake.theirValue.Some?
  {
    var id := Inc(c.ake.keys.ourKeyId);
    var c' := c.(ake := c.ake.(keys := c.ake.keys.(ourKeyId := id)));
    match d.sign(SignedHash(e.crypto, k, c.ake.ourValue.value, c.ake.theirValue.value, me, id))
    case None => (c', None)
    case Some(sig) => (c', Some(Seal(e.crypto, k, me, id, sig)))
  }

  /** setTheirCurrentDHPubKey and setOurCurrentDHKeys */
  function WithSlots(c: Party): Party
    requires c.ake.exponent.Some? && c.ake.ourValue.Some?
  {
    c.(ake := c.ake.(keys := c.ake.keys.(theirCurrent := c.ake.theirValue,
                                         ourCurrent := Some(KeyPair(c.ake.ourValue.value, c.ake.exponent.value)))))
  }

  function ReceiveDhKey(e: Setting, me: PublicKey, c: Party, msg: bytes, d: Draws): Result
    requires e.Valid() && Ready(c)
  {
    if c.ake.state.NoAuth? || c.ake.state.AwaitingRevealSig? then Ignore(c) else
    match ExtractMpi(msg)
    case Corrupt => Fail(c)
    case Parsed(_, gy) =>
      if !e.group.IsGroupElement(gy) then Fail(c) else
      if c.ake.state.AwaitingSig? then
        if c.ake.theirValue == Some(gy) then Result(c, Some(Reply(TYPE_REVEAL_SIG, c.ake.state.revealSig)), true) else Ignore(c)
      else
        RevealSignature(e, me, if c.ake.theirValue.Some? then c else c.(ake := c.ake.(theirValue := Some(gy))), d)
  }

  function RevealSignature(e: Setting, me: PublicKey, c: Party, d: Draws): Result
    requires e.Valid() && c.ake.exponent.Some? && c.ake.ourValue.Some? && c.ake.theirValue.Some?
  {
    var c1 := WithAkeKeys(e, c);
    match Signing(e, me, c1, c1.ake.revealKey, d)
    case (c2, None) => Fail(c2)
    case (c2, Some(sealed)) =>
      if !d.header then Fail(c2) else
      var body := Data(c2.ake.r) + SigBody(e.crypto, c2.ake.revealKey, sealed);
      var c3 := WithSlots(c2);
      Result(c3.(sentRevealSig := true, ake := c3.ake.(state := AwaitingSig(body))), Some(Reply(TYPE_REVEAL_SIG, body)), true)
  }

  /** processEncryptedSig, with what it leaves behind. */
  function Verified(e: Setting, c: Party, k: AkeKeys, sealed: bytes, mac: bytes): (Party, bool)
    requires e.Valid() && c.ake.ourValue.Some? && c.ake.theirValue.Some?
  {
    match Open(e.crypto, k, c.ake.ourValue.value, c.ake.theirValue.value, sealed, mac)
    case BadMac => (c, false)
    case Unsigned(key) => (c.(theirKey := key), false)
    case Signed(key, keyId) =>
      (c.(theirKey := Some(key), ake := c.ake.(keys := c.ake.keys.(theirKeyId := keyId))), true)
  }

  /** processRevealSig: the value read from the commitment is stored before it is checked. */
  function Revealed(e: Setting, c: Party, msg: bytes): (Party, bool)
    requires e.Valid() && c.ake.exponent.Some? && c.ake.ourValue.Some?
  {
    match ParseRevealSig(msg)
    case None => (c, false)
    case Some((r, sealed, mac)) =>
      var gx := Cipher(e.crypto, r, c.ake.encryptedGx);
      if e.crypto.sha256(gx) != c.ake.hashedGx then (c, false) else
      match ExtractMpi(gx)
      case Corrupt => (c.(ake := c.ake.(theirValue := None)), false)
      case Parsed(rest, value) =>
        var c1 := c.(ake := c.ake.(theirValue := Some(value)));
        if rest != [] || !e.group.IsGroupElement(value) then (c1, false) else
        var c2 := WithAkeKeys(e, c1);
        Verified(e, c2, c2.ake.revealKey, sealed, mac)
  }

  /** akeHasFinished: the exchanged keys become the session's, with a new pair on top if one can be drawn. */
  function HasFinished(e: Setting, c: Party, next: Option<nat>): (Party, bool)
    requires e.Valid()
  {
    var k := c.ake.keys;
    var c1 := c.(keys := k, msgState := Encrypted, ake := NewAke().(state := c.ake.state));
    match next
    case None => (c1, false)
    case Some(x) =>
      (c1.(keys := k.(ourPrevious := k.ourCurrent, ourCurrent := Some(NewPair(e.group, x)), ourKeyId := Inc(k.ourKeyId))), true)
  }

  function ReceiveRevealSig(e: Setting, me: PublicKey, c: Party, msg: bytes, d: Draws): Result
    requires e.Valid() && Ready(c)
  {
    if !c.ake.state.AwaitingRevealSig? then Ignore(c) else
    match Revealed(e, c, msg)
    case (c1, false) => Fail(c1)
    case (c1, true) =>
      match Signing(e, me, c1, c1.ake.sigKey, d)
      case (c2, None) => Fail(c2)
      case (c2, Some(sealed)) =>
        if !d.header then Fail(c2) else
        var body := SigBody(e.crypto, c2.ake.sigKey, sealed);
        var (c3, ok) := HasFinished(e, WithSlots(c2).(sentRevealSig := false), d.next);
        Result(c3.(ake := c3.ake.(state := NoAuth)), Some(Reply(TYPE_SIG, body)), ok)
  }

  function ReceiveSig(e: Setting, c: Party, msg: bytes, d: Draws): Result
    requires e.Valid() && Ready(c)
  {
    if !c.ake.state.AwaitingSig? then Ignore(c) else
    match ParseSig(msg)
    case None => Fail(c)
    case Some((sealed, mac)) =>
      match Verified(e, c, c.ake.sigKey, sealed, mac)
      case (c1, false) => Fail(c1)
      case (c1, true) =>
        var (c2, ok) := HasFinished(e, c1.(ake := c1.ake.(keys := c1.ake.keys.(theirCurrent := c1.ake.theirValue))), d.next);
        Result(c2.(ake := c2.ake.(state := NoAuth)), None, ok)
  }

  /** processAKE */
  function ProcessAke(e: Setting, me: PublicKey, c: Party, msgType: byte, msg: bytes, d: Draws): Result
    requires e.Valid() && Ready(c)
  {
    if msgType == TYPE_DH_COMMIT then ReceiveCommit(e, c, msg, d)
    else if msgType == TYPE_DH_KEY then ReceiveDhKey(e, me, c, msg, d)
    else if msgType == TYPE_REVEAL_SIG then ReceiveRevealSig(e, me, c, msg, d)
    else if msgType == TYPE_SIG then ReceiveSig(e, c, msg, d)
    else Fail(c)
  }
}
