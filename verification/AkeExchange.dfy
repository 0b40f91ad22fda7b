/** An honest key exchange, from whatever state the two sides were in before. */
module AkeExchange {
  import opened Wire
  import opened DhGroup
  import opened Crypto
  import opened KeyManagement
  import opened Ake
  import opened AkeRuns
  import Headers
  import Session
  import Ratchet

  // ------------------------------------------------------------ the message bodies round-trip

  /** A long-term key whose sealed form fits a DATA field. */
  ghost predicate Usable(k: PublicKey) {
    |SerializeKey(k)| + 4 + SIGNATURE_LENGTH < WORD_LIMIT
  }

  lemma KeyRoundTrip(k: PublicKey, rest: bytes)
    requires Usable(k)
    ensures ParseKey(SerializeKey(k) + rest) == Parsed(rest, k)
  {
    hide Mpi, Mpis, ExtractMpiCount, ExtractShort, Short, FitsMpi, Usable;
    var v := [k.p, k.q, k.g, k.y];
    UsableFits(k);
    FourMpis(v);
    assert SerializeKey(k) + rest == Short(0) + (Mpis(v) + rest);
    ShortRoundTrip(0, Mpis(v) + rest);
    MpiCountRoundTrip(v, rest);
  }

  lemma UsableFits(k: PublicKey)
    requires Usable(k)
    ensures FitsMpi(k.p) && FitsMpi(k.q) && FitsMpi(k.g) && FitsMpi(k.y)
  {
  }

  lemma FourMpis(v: seq<nat>)
    requires |v| == 4
    ensures Mpis(v) == Mpi(v[0]) + Mpi(v[1]) + Mpi(v[2]) + Mpi(v[3])
  {
    hide Mpi;
    assert v[1..][1..] == v[2..] && v[2..][1..] == v[3..] && v[3..][1..] == [];
    assert Mpis(v[3..]) == Mpi(v[3]) + Mpis([]);
    assert Mpis(v[2..]) == Mpi(v[2]) + Mpis(v[3..]);
    assert Mpis(v[1..]) == Mpi(v[1]) + Mpis(v[2..]);
  }

  /** A DH Commit reads back; what follows it is ignored. */
  lemma CommitRoundTrip(c: Primitives, gx: bytes, value: nat, rest: bytes)
    requires c.Valid() && |gx| < WORD_LIMIT
    ensures ParseCommit(CommitBody(c, gx, value) + rest) == Some((gx, c.sha256(Mpi(value))))
    ensures rest == [] ==> CommitBody(c, gx, value) + rest == CommitBody(c, gx, value)
  {
    hide Data, ExtractData, Mpi;
    var h := c.sha256(Mpi(value));
    assert CommitBody(c, gx, value) + rest == Data(gx) + (Data(h) + rest);
    DataRoundTrip(gx, Data(h) + rest);
    DataRoundTrip(h, rest);
  }

  /** Sealed bytes and MAC read back, exactly when the MAC has its length. */
  lemma SigReads(sealed: bytes, mac: bytes)
    requires |sealed| < WORD_LIMIT
    ensures ParseSig(Data(sealed) + mac) == if |mac| == MAC_LENGTH then Some((sealed, mac)) else None
  {
    hide Data, ExtractData;
    DataRoundTrip(sealed, mac);
  }

  lemma SigRoundTrip(c: Primitives, k: AkeKeys, sealed: bytes)
    requires c.Valid() && |sealed| < WORD_LIMIT
    ensures ParseSig(SigBody(c, k, sealed)) == Some((sealed, SealMac(c, k, sealed)))
  {
    hide Data, ParseSig;
    SigReads(sealed, SealMac(c, k, sealed));
  }

  lemma RevealSigRoundTrip(c: Primitives, r: bytes, k: AkeKeys, sealed: bytes)
    requires c.Valid() && |sealed| < WORD_LIMIT && |r| < WORD_LIMIT
    ensures var m := ParseRevealSig(Data(r) + SigBody(c, k, sealed));
            && m.Some? && m.value.1 == sealed && m.value.2 == SealMac(c, k, sealed) && |m.value.0| == R_LENGTH
            && (forall i :: 0 <= i < R_LENGTH ==> m.value.0[i] == if i < |r| then r[i] else 0)
            && (|r| == R_LENGTH ==> m.value.0 == r)
  {
    hide Data, ExtractData, SigBody, ParseSig;
    DataRoundTrip(r, SigBody(c, k, sealed));
    SigRoundTrip(c, k, sealed);
  }

  /** What one side seals the other opens, if both derived the same keys and the signature is good. */
  lemma SealOpens(c: Primitives, k: AkeKeys, ours: nat, theirs: nat, key: PublicKey, keyId: uint32, sig: bytes)
    requires c.Valid() && Usable(key) && |sig| == SIGNATURE_LENGTH
    requires c.dsaVerify(key, SignedHash(c, k, theirs, ours, key, keyId), sig)
    ensures var sealed := Seal(c, k, key, keyId, sig);
            |sealed| < WORD_LIMIT && Open(c, k, ours, theirs, sealed, SealMac(c, k, sealed)) == Signed(key, keyId)
  {
    hide SerializeKey, ParseKey, SignedHash, SealMac, Word, ExtractWord, Ctr;
    var text := SerializeKey(key) + Word(keyId) + sig;
    CtrTwice(c, FixedSize(AES_KEY_LENGTH, k.c), Zeros(AES_BLOCK), text);
    assert text == SerializeKey(key) + (Word(keyId) + sig);
    KeyRoundTrip(key, Word(keyId) + sig);
    WordRoundTrip(keyId, sig);
  }

  // ------------------------------------------------------------ the exchange

  /** Every random read works and our long-term key signs. */
  ghost predicate Working(e: Setting, me: PublicKey, d: Draws) {
    && d.exponent.Some? && d.r.Some? && |d.r.value| == R_LENGTH && d.header && d.next.Some?
    && forall h :: d.sign(h).Some? && |d.sign(h).value| == SIGNATURE_LENGTH && e.crypto.dsaVerify(me, h, d.sign(h).value)
  }

  lemma ValueFits(gr: Group, x: nat)
    requires gr.Valid()
    ensures FitsMpi(gr.Exp(G1, x)) && |Mpi(gr.Exp(G1, x))| <= 196
  {
    NatBytesMonotone(gr.Exp(G1, x), gr.p);
    MpiLength(gr.Exp(G1, x));
  }

  /** A side that has sent its DH Commit. */
  ghost predicate Committed(e: Setting, c: Party, x: nat, r: bytes)
    requires e.Valid()
  {
    && c.ake == WithExponent(e.group, NewAke(), x).(r := r, state := AwaitingDhKey,
                  encryptedGx := Cipher(e.crypto, r, Mpi(e.group.Exp(G1, x))))
    && |r| == R_LENGTH
  }

  lemma CommitSent(e: Setting, me: PublicKey, c: Party, d: Draws)
    requires e.Valid() && Working(e, me, d) && e.group.Exp(G1, d.exponent.value) >= Pow256(AES_BLOCK - 5)
    ensures var s := SendDhCommit(e, c, d); var x := d.exponent.value;
            && s.Some? && s.value.ok && Committed(e, s.value.party, x, d.r.value)
            && s.value.party == c.(ake := s.value.party.ake)
            && s.value.reply == Some(Reply(TYPE_DH_COMMIT, CommitBody(e.crypto, Cipher(e.crypto, d.r.value, Mpi(e.group.Exp(G1, x))), e.group.Exp(G1, x))))
  {
    hide Group.Exp, Mpi, Cipher, CommitBody, NatBytes, Pow256;
    MpiLength(e.group.Exp(G1, d.exponent.value));
    NatBytesLength(e.group.Exp(G1, d.exponent.value), AES_BLOCK - 5);
  }

  /** A side that has answered the commitment with a DH Key. */
  ghost predicate Answered(e: Setting, c: Party, y: nat, gx: bytes, hash: bytes)
    requires e.Valid()
  {
    && c.ake.state.AwaitingRevealSig? && c.ake.exponent == Some(y) && c.ake.ourValue == Some(e.group.Exp(G1, y))
    && c.ake.encryptedGx == gx && c.ake.hashedGx == hash && c.ake.keys == NO_SLOTS
  }

  /** The responder's own commitment outranks the one that arrives. */
  ghost predicate Outranks(e: Setting, c: Party, value: nat)
    requires e.Valid()
  {
    && c.ake.state.AwaitingDhKey? && c.ake.ourValue.Some?
    && Above(e.crypto.sha256(Mpi(c.ake.ourValue.value)), e.crypto.sha256(Mpi(value)))
  }

  /** The exponent the responder goes on with. */
  ghost function AnswerExponent(c: Party, d: Draws): nat
    requires d.exponent.Some? && Ready(c)
  {
    if c.ake.state.AwaitingRevealSig? then c.ake.exponent.value else d.exponent.value
  }

  lemma CommitAnswered(e: Setting, me: PublicKey, c: Party, gx: bytes, value: nat, d: Draws)
    requires e.Valid() && Coherent(e, c) && Working(e, me, d) && |gx| < WORD_LIMIT && !Outranks(e, c, value)
    ensures var s, y := ReceiveCommit(e, c, CommitBody(e.crypto, gx, value), d), AnswerExponent(c, d);
            && s.ok && Ready(s.party) && Answered(e, s.party, y, gx, e.crypto.sha256(Mpi(value)))
            && s.party.(ake := c.ake) == c
            && s.reply == Some(Reply(TYPE_DH_KEY, Mpi(e.group.Exp(G1, y))))
  {
    CommitRoundTrip(e.crypto, gx, value, []);
    hide Group.Exp, Mpi, CommitBody, ParseCommit, Above, AkeKeysFrom;
    assert WipedKept(c.ake.keys) == NO_SLOTS;
  }

  /** The slots one side has agreed on. */
  ghost function Agreed(own: KeyPair, their: nat, theirId: uint32): Keys {
    Keys(1, theirId, Some(own), None, Some(their), None, [], [], [])
  }

  /** The signature of a side, under key id 1. */
  ghost function SignatureOf(e: Setting, me: PublicKey, k: AkeKeys, own: nat, their: nat, d: Draws): bytes
    requires e.Valid() && Working(e, me, d)
  {
    Seal(e.crypto, k, me, 1, d.sign(SignedHash(e.crypto, k, own, their, me, 1)).value)
  }

  lemma DhKeyAnswered(e: Setting, me: PublicKey, c: Party, x: nat, r: bytes, gy: nat, d: Draws)
    requires e.Valid() && Working(e, me, d) && Committed(e, c, x, r) && FitsMpi(gy)
    ensures Ready(c) && Ready(ReceiveDhKey(e, me, c, Mpi(gy), d).party)
    ensures var s := ReceiveDhKey(e, me, c, Mpi(gy), d); var pair := NewPair(e.group, x);
            var (ssid, rk, sk) := AkeKeysFrom(e.crypto, e.group.Exp(gy, x));
            && (!e.group.IsGroupElement(gy) ==> !s.ok && s.reply.None?)
            && (e.group.IsGroupElement(gy) ==>
                  var body := RevealBody(e, me, x, gy, r, d);
                  && s.ok && s.reply == Some(Reply(TYPE_REVEAL_SIG, body))
                  && s.party.keys == c.keys && s.party.ssid == ssid && s.party.sentRevealSig
                  && s.party.ake.state == AwaitingSig(body) && s.party.ake.sigKey == sk
                  && s.party.ake.ourValue == Some(pair.pub) && s.party.ake.theirValue == Some(gy)
                  && s.party.ake.keys == Agreed(pair, gy, 0))
  {
    hide Group.Exp, Mpi, ExtractMpi, SigBody, Data, Seal, SignedHash, AkeKeysFrom, Cipher, FitsMpi;
    assert ExtractMpi(Mpi(gy)) == Parsed([], gy) by {
      MpiReads(gy);
    }
  }

  lemma MpiReads(v: nat)
    requires FitsMpi(v)
    ensures ExtractMpi(Mpi(v)) == Parsed([], v)
  {
    MpiRoundTrip(v, []);
    assert Mpi(v) + [] == Mpi(v);
  }

  /** The final state of either side. */
  ghost predicate Done(e: Setting, c: Party, own: nat, their: nat, next: nat, secret: nat, theirKey: PublicKey)
    requires e.Valid()
  {
    && c.msgState == Encrypted && c.ake == NewAke() && c.theirKey == Some(theirKey)
    && c.ssid == AkeKeysFrom(e.crypto, secret).0
    && c.keys == Keys(2, 1, Some(NewPair(e.group, next)), Some(NewPair(e.group, own)), Some(their), None, [], [], [])
  }

  lemma CommitmentOpens(e: Setting, r: bytes, x: nat)
    requires e.Valid()
    ensures var gx := e.group.Exp(G1, x);
            && Cipher(e.crypto, r, Cipher(e.crypto, r, Mpi(gx))) == Mpi(gx)
            && ExtractMpi(Mpi(gx)) == Parsed([], gx)
            && (e.group.IsGroupElement(gx) <==> x % e.group.q != 0)
  {
    var gx := e.group.Exp(G1, x);
    ValueFits(e.group, x);
    MpiReads(gx);
    CtrTwice(e.crypto, r, Zeros(AES_BLOCK), Mpi(gx));
    GenPower(e.group, x);
    GenIsGroupElement(e.group, x);
  }

  /** The body of the Reveal Signature of a side with exponent x, sent to one with value gy. */
  ghost function RevealBody(e: Setting, me: PublicKey, x: nat, gy: nat, r: bytes, d: Draws): bytes
    requires e.Valid() && Working(e, me, d)
  {
    var rk := AkeKeysFrom(e.crypto, e.group.Exp(gy, x)).1;
    Data(r) + SigBody(e.crypto, rk, SignatureOf(e, me, rk, e.group.Exp(G1, x), gy, d))
  }

  /** processRevealSig passes exactly when the committed value is in range. */
  lemma RevealPasses(e: Setting, peer: PublicKey, c: Party, x: nat, y: nat, r: bytes, d: Draws)
    requires e.Valid() && Working(e, peer, d) && Usable(peer) && |r| == R_LENGTH
    requires var gx := e.group.Exp(G1, x); Answered(e, c, y, Cipher(e.crypto, r, Mpi(gx)), e.crypto.sha256(Mpi(gx)))
    ensures var gx, gy := e.group.Exp(G1, x), e.group.Exp(G1, y);
            var (ssid, rk, sk) := AkeKeysFrom(e.crypto, e.group.Exp(gy, x));
            var (c', ok) := Revealed(e, c, RevealBody(e, peer, x, gy, r, d));
            && (ok <==> x % e.group.q != 0)
            && (ok ==> c' == c.(ssid := ssid, theirKey := Some(peer),
                                ake := c.ake.(theirValue := Some(gx), revealKey := rk, sigKey := sk, keys := NO_SLOTS.(theirKeyId := 1))))
  {
    hide Group.Exp, Mpi, ExtractMpi, RevealBody, SignatureOf, SealMac, AkeKeysFrom, Cipher, ParseRevealSig, Open, Group.IsGroupElement, Working, Usable;
    SharedSecret(e.group, x, y);
    RevealBodyOpens(e, peer, x, e.group.Exp(G1, y), r, d);
    CommitmentOpens(e, r, x);
  }

  lemma RevealBodyOpens(e: Setting, peer: PublicKey, x: nat, gy: nat, r: bytes, d: Draws)
    requires e.Valid() && Working(e, peer, d) && Usable(peer) && |r| == R_LENGTH
    ensures var gx, rk := e.group.Exp(G1, x), AkeKeysFrom(e.crypto, e.group.Exp(gy, x)).1;
            var sealed := SignatureOf(e, peer, rk, gx, gy, d);
            && ParseRevealSig(RevealBody(e, peer, x, gy, r, d)) == Some((r, sealed, SealMac(e.crypto, rk, sealed)))
            && Open(e.crypto, rk, gy, gx, sealed, SealMac(e.crypto, rk, sealed)) == Signed(peer, 1)
  {
    hide Group.Exp, SigBody, SealMac, AkeKeysFrom, ParseRevealSig, Open, Seal, SignedHash;
    var gx, rk := e.group.Exp(G1, x), AkeKeysFrom(e.crypto, e.group.Exp(gy, x)).1;
    var sig := d.sign(SignedHash(e.crypto, rk, gx, gy, peer, 1)).value;
    SealOpens(e.crypto, rk, gy, gx, peer, 1, sig);
    RevealSigRoundTrip(e.crypto, r, rk, Seal(e.crypto, rk, peer, 1, sig));
  }

  /** The responder accepts the Reveal Signature exactly when the committed value is in range. */
  lemma RevealSigAccepted(e: Setting, me: PublicKey, peer: PublicKey, c: Party, x: nat, y: nat, r: bytes, dPeer: Draws, d: Draws)
    requires e.Valid() && Working(e, me, d) && Working(e, peer, dPeer) && Usable(peer) && |r| == R_LENGTH
    requires var gx := e.group.Exp(G1, x); Answered(e, c, y, Cipher(e.crypto, r, Mpi(gx)), e.crypto.sha256(Mpi(gx)))
    ensures var gx, gy := e.group.Exp(G1, x), e.group.Exp(G1, y);
            var (ssid, rk, sk) := AkeKeysFrom(e.crypto, e.group.Exp(gy, x));
            var s := ReceiveRevealSig(e, me, c, RevealBody(e, peer, x, gy, r, dPeer), d);
            && (x % e.group.q == 0 ==> !s.ok && s.reply.None?)
            && (x % e.group.q != 0 ==>
                  && s.ok && s.reply == Some(Reply(TYPE_SIG, SigBody(e.crypto, sk, SignatureOf(e, me, sk, gy, gx, d))))
                  && !s.party.sentRevealSig && Done(e, s.party, y, gx, d.next.value, e.group.Exp(gy, x), peer))
  {
    hide Group.Exp, Mpi, Revealed, RevealBody, SigBody, Seal, SignedHash, AkeKeysFrom, Cipher;
    RevealPasses(e, peer, c, x, y, r, dPeer);
  }

  lemma SigAccepted(e: Setting, me: PublicKey, peer: PublicKey, c: Party, x: nat, gy: nat, dPeer: Draws, d: Draws)
    requires e.Valid() && Working(e, me, d) && Working(e, peer, dPeer) && Usable(peer) && Ready(c) && c.ake.state.AwaitingSig?
    requires var gx := e.group.Exp(G1, x); var (ssid, rk, sk) := AkeKeysFrom(e.crypto, e.group.Exp(gy, x));
             && c.ssid == ssid && c.ake.sigKey == sk && c.ake.ourValue == Some(gx) && c.ake.theirValue == Some(gy)
             && c.ake.keys == Agreed(NewPair(e.group, x), gy, 0)
    ensures var sk := AkeKeysFrom(e.crypto, e.group.Exp(gy, x)).2;
            var s := ReceiveSig(e, c, SigBody(e.crypto, sk, SignatureOf(e, peer, sk, gy, e.group.Exp(G1, x), dPeer)), d);
            && s.ok && s.reply.None? && s.party.sentRevealSig == c.sentRevealSig
            && Done(e, s.party, x, gy, d.next.value, e.group.Exp(gy, x), peer)
  {
    hide Group.Exp, SigBody, SignatureOf, AkeKeysFrom, ParseSig, Open, Working, Usable;
    SigBodyOpens(e, peer, AkeKeysFrom(e.crypto, e.group.Exp(gy, x)).2, gy, e.group.Exp(G1, x), dPeer);
    assert d.next.Some? by { WorkingNext(e, me, d); }
  }

  lemma WorkingNext(e: Setting, me: PublicKey, d: Draws)
    requires Working(e, me, d)
    ensures d.next.Some?
  {
  }

  lemma SigBodyOpens(e: Setting, peer: PublicKey, k: AkeKeys, own: nat, their: nat, d: Draws)
    requires e.Valid() && Working(e, peer, d) && Usable(peer)
    ensures var sealed := SignatureOf(e, peer, k, own, their, d);
            && ParseSig(SigBody(e.crypto, k, sealed)) == Some((sealed, SealMac(e.crypto, k, sealed)))
            && Open(e.crypto, k, their, own, sealed, SealMac(e.crypto, k, sealed)) == Signed(peer, 1)
  {
    hide SigBody, SealMac, ParseSig, Open, Seal, SignedHash;
    var sig := d.sign(SignedHash(e.crypto, k, own, their, peer, 1)).value;
    SealOpens(e.crypto, k, their, own, peer, 1, sig);
    SigRoundTrip(e.crypto, k, Seal(e.crypto, k, peer, 1, sig));
  }

  lemma InRange(gr: Group, x: nat)
    requires gr.Valid()
    ensures gr.IsGroupElement(gr.Exp(G1, x)) <==> x % gr.q != 0
    ensures FitsMpi(gr.Exp(G1, x)) && |Mpi(gr.Exp(G1, x))| < WORD_LIMIT
  {
    GenPower(gr, x);
    GenIsGroupElement(gr, x);
    ValueFits(gr, x);
  }

  /** The peer's reply arrives and is processed; nothing happens without one. */
  ghost function Relayed(e: Setting, me: PublicKey, c: Party, sent: Option<Reply>, d: Draws): Result
    requires e.Valid()
  {
    if sent.None? || !Ready(c) then Ignore(c) else ProcessAke(e, me, c, sent.value.msgType, sent.value.body, d)
  }

  ghost predicate Finishes(e: Setting, me: PublicKey, c: Party, sent: Option<Reply>, d: Draws)
    requires e.Valid()
  {
    sent.Some? && Ready(c) && Completes(e, me, c, Deliver(sent.value.msgType, sent.value.body, d))
  }

  /** The draws of the five steps of an exchange, the initiator's first. */
  datatype Randomness = Randomness(d1: Draws, d2: Draws, d3: Draws, d4: Draws, d5: Draws)

  ghost predicate AllWorking(e: Setting, iKey: PublicKey, rKey: PublicKey, ds: Randomness) {
    && Working(e, iKey, ds.d1) && Working(e, rKey, ds.d2) && Working(e, iKey, ds.d3) && Working(e, rKey, ds.d4) && Working(e, iKey, ds.d5)
  }

  /** The initiator sends its DH Commit and each side answers what the other sent. */
  datatype Exchange = Exchange(s1: Result, s2: Result, s3: Result, s4: Result, s5: Result)

  /** None: the first step panicked. */
  ghost function Exchanged(e: Setting, iKey: PublicKey, rKey: PublicKey, i: Party, r: Party, ds: Randomness): Option<Exchange>
    requires e.Valid()
  {
    match SendDhCommit(e, i, ds.d1)
    case None => None
    case Some(s1) =>
      var s2 := Relayed(e, rKey, r, s1.reply, ds.d2);
      var s3 := Relayed(e, iKey, s1.party, s2.reply, ds.d3);
      var s4 := Relayed(e, rKey, s2.party, s3.reply, ds.d4);
      Some(Exchange(s1, s2, s3, s4, Relayed(e, iKey, s3.party, s4.reply, ds.d5)))
  }

  /** Both sides reached akeHasFinished, the responder at the Reveal Signature and the initiator at the Signature. */
  ghost predicate Completed(e: Setting, iKey: PublicKey, rKey: PublicKey, i: Party, r: Party, ds: Randomness)
    requires e.Valid()
  {
    var x := Exchanged(e, iKey, rKey, i, r, ds);
    && x.Some?
    && Finishes(e, rKey, x.value.s2.party, x.value.s3.reply, ds.d4)
    && Finishes(e, iKey, x.value.s3.party, x.value.s4.reply, ds.d5)
  }

  /** What decides: the first value does not panic, the responder's own commitment does not outrank
      it, and the responder's value is in range. */
  ghost predicate GoesThrough(e: Setting, r: Party, ds: Randomness)
    requires e.Valid() && ds.d1.exponent.Some? && ds.d2.exponent.Some? && Ready(r)
  {
    var gx := e.group.Exp(G1, ds.d1.exponent.value);
    gx >= Pow256(AES_BLOCK - 5) && !Outranks(e, r, gx) && AnswerExponent(r, ds.d2) % e.group.q != 0
  }

  /** An honest exchange with working randomness, whatever the two sides did before: the exact
      condition under which it completes, and what both sides then hold. */
  lemma ExchangeCompletes(e: Setting, iKey: PublicKey, rKey: PublicKey, i: Party, r: Party, ds: Randomness)
    requires e.Valid() && Coherent(e, r) && Usable(iKey) && Usable(rKey) && AllWorking(e, iKey, rKey, ds)
    ensures Completed(e, iKey, rKey, i, r, ds) <==> GoesThrough(e, r, ds)
    ensures Completed(e, iKey, rKey, i, r, ds) ==>
              var s4, s5 := Exchanged(e, iKey, rKey, i, r, ds).value.s4, Exchanged(e, iKey, rKey, i, r, ds).value.s5;
              var x, y := ds.d1.exponent.value, AnswerExponent(r, ds.d2);
              var gx, gy := e.group.Exp(G1, x), e.group.Exp(G1, y);
              && s4.ok && s5.ok && s4.party.ssid == s5.party.ssid && s5.party.sentRevealSig && !s4.party.sentRevealSig
              && Done(e, s5.party, x, gy, ds.d5.next.value, e.group.Exp(gy, x), rKey)
              && Done(e, s4.party, y, gx, ds.d4.next.value, e.group.Exp(gy, x), iKey)
  {
    CoherentReady(e, r);
    WorkingDraws(e, iKey, rKey, ds);
    SafePrimeSize(e.group);
    var gx := e.group.Exp(G1, ds.d1.exponent.value);
    var large, small := gx >= Pow256(AES_BLOCK - 5), AnswerExponent(r, ds.d2) % e.group.q == 0;
    hide *;
    GoesThroughIs(e, r, ds);
    PanicStops(e, iKey, rKey, i, r, ds);
    if large {
      if Outranks(e, r, gx) {
        OutrankedStops(e, iKey, rKey, i, r, ds);
      } else if small {
        SmallAnswerStops(e, iKey, rKey, i, r, ds);
      } else {
        AllFiveSteps(e, iKey, rKey, i, r, ds);
      }
    }
  }

  lemma CoherentReady(e: Setting, c: Party)
    requires e.Valid() && Coherent(e, c)
    ensures Ready(c)
  {
    hide AkeKeysFrom;
  }

  lemma WorkingDraws(e: Setting, iKey: PublicKey, rKey: PublicKey, ds: Randomness)
    requires AllWorking(e, iKey, rKey, ds)
    ensures Working(e, iKey, ds.d1) && Working(e, rKey, ds.d2) && Working(e, iKey, ds.d3) && Working(e, rKey, ds.d4) && Working(e, iKey, ds.d5)
    ensures ds.d1.exponent.Some? && ds.d2.exponent.Some? && ds.d1.r.Some? && |ds.d1.r.value| == R_LENGTH && ds.d4.next.Some? && ds.d5.next.Some?
  {
  }

  lemma GoesThroughIs(e: Setting, r: Party, ds: Randomness)
    requires e.Valid() && ds.d1.exponent.Some? && ds.d2.exponent.Some? && Ready(r)
    ensures var gx := e.group.Exp(G1, ds.d1.exponent.value);
            GoesThrough(e, r, ds) <==> gx >= Pow256(AES_BLOCK - 5) && !Outranks(e, r, gx) && AnswerExponent(r, ds.d2) % e.group.q != 0
  {
    hide Outranks, Pow256, Group.Exp;
  }

  lemma PanicStops(e: Setting, iKey: PublicKey, rKey: PublicKey, i: Party, r: Party, ds: Randomness)
    requires e.Valid() && Working(e, iKey, ds.d1)
    ensures e.group.Exp(G1, ds.d1.exponent.value) < Pow256(AES_BLOCK - 5) ==> !Completed(e, iKey, rKey, i, r, ds)
  {
    hide Group.Exp, Mpi, Cipher, CommitBody, NatBytes, Pow256, Relayed, Finishes;
    var gx := e.group.Exp(G1, ds.d1.exponent.value);
    MpiLength(gx);
    NatBytesLength(gx, AES_BLOCK - 5);
  }

  /** The first two messages. */
  lemma Opening(e: Setting, iKey: PublicKey, rKey: PublicKey, i: Party, r: Party, ds: Randomness)
    requires e.Valid() && Coherent(e, r) && AllWorking(e, iKey, rKey, ds)
    requires e.group.Exp(G1, ds.d1.exponent.value) >= Pow256(AES_BLOCK - 5)
    ensures var x, r0 := ds.d1.exponent.value, ds.d1.r.value; var gx := e.group.Exp(G1, x);
            var sealed := Cipher(e.crypto, r0, Mpi(gx)); var w := Exchanged(e, iKey, rKey, i, r, ds);
            && w.Some? && Committed(e, w.value.s1.party, x, r0) && |sealed| < WORD_LIMIT
            && Ready(r) && w.value.s2 == ReceiveCommit(e, r, CommitBody(e.crypto, sealed, gx), ds.d2)
            && w.value.s3 == Relayed(e, iKey, w.value.s1.party, w.value.s2.reply, ds.d3)
            && w.value.s4 == Relayed(e, rKey, w.value.s2.party, w.value.s3.reply, ds.d4)
            && w.value.s5 == Relayed(e, iKey, w.value.s3.party, w.value.s4.reply, ds.d5)
  {
    CoherentReady(e, r);
    CommitSent(e, iKey, i, ds.d1);
    InRange(e.group, ds.d1.exponent.value);
    hide SendDhCommit, ReceiveCommit, Group.Exp, Mpi, Cipher, CommitBody, Coherent, Ready, Committed, ProcessAke, FitsMpi, Pow256;
    var s1 := SendDhCommit(e, i, ds.d1).value;
    DispatchIs(e, rKey, r, TYPE_DH_COMMIT, s1.reply.value.body, ds.d2);
  }

  lemma OutrankedStops(e: Setting, iKey: PublicKey, rKey: PublicKey, i: Party, r: Party, ds: Randomness)
    requires e.Valid() && Coherent(e, r) && AllWorking(e, iKey, rKey, ds)
    requires var gx := e.group.Exp(G1, ds.d1.exponent.value); gx >= Pow256(AES_BLOCK - 5) && Outranks(e, r, gx)
    ensures !Completed(e, iKey, rKey, i, r, ds)
  {
    hide Group.Exp, Mpi, Cipher, CommitBody, Coherent, Pow256, Relayed, Completes, ReceiveCommit, Exchanged, Above, Usable, Outranks, Committed;
    Opening(e, iKey, rKey, i, r, ds);
    var w := Exchanged(e, iKey, rKey, i, r, ds).value;
    var x := ds.d1.exponent.value;
    ResendsCommit(e, rKey, r, Cipher(e.crypto, ds.d1.r.value, Mpi(e.group.Exp(G1, x))), e.group.Exp(G1, x), ds.d2);
    AnswersInKind(e, iKey, w.s1.party, w.s2.reply, ds.d3);
    NotReveal(e, rKey, w.s2.party, w.s3.reply, ds.d4);
  }

  /** A reply to a DH Commit is never a Reveal Signature. */
  lemma AnswersInKind(e: Setting, me: PublicKey, c: Party, sent: Option<Reply>, d: Draws)
    requires e.Valid() && sent.Some? && sent.value.msgType == TYPE_DH_COMMIT
    ensures var s := Relayed(e, me, c, sent, d); s.reply.Some? ==> s.reply.value.msgType == TYPE_DH_COMMIT || s.reply.value.msgType == TYPE_DH_KEY
  {
    hide ParseCommit, CommitBody, Group.Exp, Mpi, Above;
  }

  lemma NotReveal(e: Setting, me: PublicKey, c: Party, sent: Option<Reply>, d: Draws)
    requires e.Valid() && (sent.Some? ==> sent.value.msgType == TYPE_DH_COMMIT || sent.value.msgType == TYPE_DH_KEY)
    ensures !Finishes(e, me, c, sent, d)
  {
    hide Revealed, Signing, Verified, ParseSig;
  }

  lemma ResendsCommit(e: Setting, me: PublicKey, c: Party, gx: bytes, value: nat, d: Draws)
    requires e.Valid() && Ready(c) && Working(e, me, d) && |gx| < WORD_LIMIT && Outranks(e, c, value)
    ensures var s := ReceiveCommit(e, c, CommitBody(e.crypto, gx, value), d);
            && s.ok && s.party == c.(ake := c.ake.(state := AwaitingRevealSig))
            && s.reply == Some(Reply(TYPE_DH_COMMIT, CommitBody(e.crypto, c.ake.encryptedGx, c.ake.ourValue.value)))
  {
    CommitRoundTrip(e.crypto, gx, value, []);
    hide Group.Exp, Mpi, CommitBody, ParseCommit, Above;
  }

  /** The first three messages when the responder answers. */
  lemma Answering(e: Setting, iKey: PublicKey, rKey: PublicKey, i: Party, r: Party, ds: Randomness)
    requires e.Valid() && Coherent(e, r) && AllWorking(e, iKey, rKey, ds)
    requires var gx := e.group.Exp(G1, ds.d1.exponent.value); gx >= Pow256(AES_BLOCK - 5) && !Outranks(e, r, gx)
    ensures Ready(r)
    ensures var x, y, r0 := ds.d1.exponent.value, AnswerExponent(r, ds.d2), ds.d1.r.value;
            var gx, gy := e.group.Exp(G1, x), e.group.Exp(G1, y);
            var w := Exchanged(e, iKey, rKey, i, r, ds);
            && w.Some? && Committed(e, w.value.s1.party, x, r0) && Ready(w.value.s1.party) && Ready(w.value.s2.party)
            && Answered(e, w.value.s2.party, y, Cipher(e.crypto, r0, Mpi(gx)), e.crypto.sha256(Mpi(gx)))
            && w.value.s3 == ReceiveDhKey(e, iKey, w.value.s1.party, Mpi(gy), ds.d3)
            && w.value.s4 == Relayed(e, rKey, w.value.s2.party, w.value.s3.reply, ds.d4)
            && w.value.s5 == Relayed(e, iKey, w.value.s3.party, w.value.s4.reply, ds.d5)
  {
    hide Group.Exp, Mpi, Cipher, CommitBody, Coherent, Pow256, ReceiveCommit, ReceiveDhKey, ProcessAke, Exchanged, Above, Outranks, Committed, Answered, FitsMpi;
    Opening(e, iKey, rKey, i, r, ds);
    var w := Exchanged(e, iKey, rKey, i, r, ds).value;
    var x, y := ds.d1.exponent.value, AnswerExponent(r, ds.d2);
    CommitAnswered(e, rKey, r, Cipher(e.crypto, ds.d1.r.value, Mpi(e.group.Exp(G1, x))), e.group.Exp(G1, x), ds.d2);
    InRange(e.group, y);
    DhKeyAnswered(e, iKey, w.s1.party, x, ds.d1.r.value, e.group.Exp(G1, y), ds.d3);
    DispatchIs(e, iKey, w.s1.party, TYPE_DH_KEY, Mpi(e.group.Exp(G1, y)), ds.d3);
  }

  lemma SmallAnswerStops(e: Setting, iKey: PublicKey, rKey: PublicKey, i: Party, r: Party, ds: Randomness)
    requires e.Valid() && Coherent(e, r) && AllWorking(e, iKey, rKey, ds)
    requires var gx := e.group.Exp(G1, ds.d1.exponent.value); gx >= Pow256(AES_BLOCK - 5) && !Outranks(e, r, gx)
    requires AnswerExponent(r, ds.d2) % e.group.q == 0
    ensures !Completed(e, iKey, rKey, i, r, ds)
  {
    hide Group.Exp, Mpi, Cipher, Coherent, Pow256, ReceiveDhKey, Exchanged, Outranks, Committed, Answered, FitsMpi, Completes, Group.IsGroupElement, RevealBody, SigBody, AkeKeysFrom;
    Answering(e, iKey, rKey, i, r, ds);
    var w := Exchanged(e, iKey, rKey, i, r, ds).value;
    var x, y := ds.d1.exponent.value, AnswerExponent(r, ds.d2);
    InRange(e.group, y);
    DhKeyAnswered(e, iKey, w.s1.party, x, ds.d1.r.value, e.group.Exp(G1, y), ds.d3);
  }

  lemma LargeIsInRange(gr: Group, x: nat)
    requires gr.Valid() && gr.Exp(G1, x) >= Pow256(AES_BLOCK - 5)
    ensures x % gr.q != 0
  {
    hide Group.Exp, Group.Gen;
    GenPower(gr, x);
    GenIsOne(gr, x);
    Pow256Monotone(1, AES_BLOCK - 5);
  }

  lemma AllFiveSteps(e: Setting, iKey: PublicKey, rKey: PublicKey, i: Party, r: Party, ds: Randomness)
    requires e.Valid() && Coherent(e, r) && AllWorking(e, iKey, rKey, ds) && Usable(iKey) && Usable(rKey)
    requires var gx := e.group.Exp(G1, ds.d1.exponent.value); gx >= Pow256(AES_BLOCK - 5) && !Outranks(e, r, gx)
    requires Ready(r) && AnswerExponent(r, ds.d2) % e.group.q != 0
    ensures Completed(e, iKey, rKey, i, r, ds)
    ensures var s4, s5 := Exchanged(e, iKey, rKey, i, r, ds).value.s4, Exchanged(e, iKey, rKey, i, r, ds).value.s5;
            var x, y := ds.d1.exponent.value, AnswerExponent(r, ds.d2);
            var gx, gy := e.group.Exp(G1, x), e.group.Exp(G1, y);
            && s4.ok && s5.ok && s4.party.ssid == s5.party.ssid && s5.party.sentRevealSig && !s4.party.sentRevealSig
            && Done(e, s5.party, x, gy, ds.d5.next.value, e.group.Exp(gy, x), rKey)
            && Done(e, s4.party, y, gx, ds.d4.next.value, e.group.Exp(gy, x), iKey)
  {
    hide Group.Exp, Mpi, Cipher, Coherent, Pow256, Exchanged, Outranks, Committed, Answered, FitsMpi, Group.IsGroupElement, RevealBody, SigBody, SignatureOf;
    hide ReceiveDhKey, ReceiveRevealSig, ReceiveSig, ProcessAke, Completes, AkeKeysFrom, Usable, Ready, AnswerExponent;
    Answering(e, iKey, rKey, i, r, ds);
    var w := Exchanged(e, iKey, rKey, i, r, ds).value;
    var x, y, r0 := ds.d1.exponent.value, AnswerExponent(r, ds.d2), ds.d1.r.value;
    var gy := e.group.Exp(G1, y);
    LargeIsInRange(e.group, x);
    InRange(e.group, y);
    DhKeyAnswered(e, iKey, w.s1.party, x, r0, gy, ds.d3);
    RevealSigAccepted(e, rKey, iKey, w.s2.party, x, y, r0, ds.d3, ds.d4);
    RevealSigFinishes(e, rKey, w.s2.party, w.s3.reply.value.body, ds.d4);
    DispatchIs(e, rKey, w.s2.party, TYPE_REVEAL_SIG, w.s3.reply.value.body, ds.d4);
    SigAccepted(e, iKey, rKey, w.s3.party, x, gy, ds.d4, ds.d5);
    SigFinishes(e, iKey, w.s3.party, w.s4.reply.value.body, ds.d5);
    DispatchIs(e, iKey, w.s3.party, TYPE_SIG, w.s4.reply.value.body, ds.d5);
  }

  lemma RevealSigFinishes(e: Setting, me: PublicKey, c: Party, msg: bytes, d: Draws)
    requires e.Valid() && Ready(c)
    ensures ReceiveRevealSig(e, me, c, msg, d).reply.Some? ==> Completes(e, me, c, Deliver(TYPE_REVEAL_SIG, msg, d))
  {
    hide Revealed, Signing, SigBody;
    if c.ake.state.AwaitingRevealSig? {
      RevealedSound(e, c, msg);
    }
  }

  lemma SigFinishes(e: Setting, me: PublicKey, c: Party, msg: bytes, d: Draws)
    requires e.Valid() && Ready(c) && c.ake.state.AwaitingSig?
    ensures ReceiveSig(e, c, msg, d).ok ==> Completes(e, me, c, Deliver(TYPE_SIG, msg, d))
  {
    hide ParseSig, Verified;
  }

  /** Two sides that completed an exchange are a session as the ratchet starts from. */
  lemma ExchangeStartsRatchet(e: Setting, i: Party, r: Party, x: nat, y: nat, x2: nat, y2: nat, secret: nat,
                              iKey: PublicKey, rKey: PublicKey, tags: Headers.Tags)
    requires e.Valid() && Headers.ValidTags(tags)
    requires Done(e, i, x, e.group.Exp(G1, y), x2, secret, rKey) && Done(e, r, y, e.group.Exp(G1, x), y2, secret, iKey)
    ensures Ratchet.Initial(e, Ratchet.System(
              Ratchet.Side(Session.Party(i.msgState.Encrypted?, tags, i.keys), [NewPair(e.group, x), NewPair(e.group, x2)]),
              Ratchet.Side(Session.Party(r.msgState.Encrypted?, tags.Flip(), r.keys), [NewPair(e.group, y), NewPair(e.group, y2)]),
              [], []))
  {
    hide Group.Exp, AkeKeysFrom;
  }

  // ------------------------------------------------------------ crossing commitments

  /** Of strings of one length the one with the larger value is above. */
  lemma {:induction false} AboveIsGreater(a: bytes, b: bytes)
    requires |a| == |b|
    ensures Above(a, b) <==> FromBytes(a) > FromBytes(b)
    decreases |a|
  {
    if a != [] {
      hide FromBytes, Pow256;
      LeadingByte(a);
      LeadingByte(b);
      AboveIsGreater(a[1..], b[1..]);
      LeadingDecides(a[0], b[0], Pow256(|a| - 1), FromBytes(a[1..]), FromBytes(b[1..]));
    }
  }

  lemma LeadingDecides(d: nat, l: nat, w: nat, x: nat, y: nat)
    requires x < w && y < w
    ensures d * w + x > l * w + y <==> d > l || (d == l && x > y)
  {
    if d > l {
      AtLeastOneMore(d, l, w);
    } else if d < l {
      AtLeastOneMore(l, d, w);
    }
  }

  lemma AtLeastOneMore(d: nat, l: nat, w: nat)
    requires d > l
    ensures d * w >= l * w + w
  {
    var n := d - l - 1;
    assert n * w >= 0;
    assert d * w == (l + 1 + n) * w == l * w + w + n * w;
  }

  lemma {:induction false} LeadingByte(a: bytes)
    requires a != []
    ensures FromBytes(a) == a[0] * Pow256(|a| - 1) + FromBytes(a[1..])
  {
    if |a| == 1 {
      assert a[..0] == [] && a[1..] == [];
      assert FromBytes(a) == 256 * FromBytes(a[..0]) + a[0];
    } else {
      var init, n := a[..|a| - 1], |a| - 1;
      LeadingByte(init);
      assert init[1..] == a[1..][..n - 1] && a[1..][n - 1] == a[n];
      assert FromBytes(a[1..]) == 256 * FromBytes(init[1..]) + a[n];
      assert FromBytes(a) == 256 * FromBytes(init) + a[n];
      Rescaled(a[0], Pow256(n - 1), FromBytes(init[1..]), a[n]);
    }
  }

  lemma Rescaled(d: nat, w: nat, x: nat, l: nat)
    ensures 256 * (d * w + x) + l == d * (256 * w) + (256 * x + l)
  {
  }

  /** A side that has committed and receives a commitment goes on to await a Reveal Signature,
      whichever of the two is higher. */
  lemma CrossedMoves(e: Setting, me: PublicKey, c: Party, x: nat, r: bytes, gx: bytes, value: nat, d: Draws)
    requires e.Valid() && Committed(e, c, x, r) && Working(e, me, d) && |gx| < WORD_LIMIT
    ensures Ready(c)
    ensures var s := ReceiveCommit(e, c, CommitBody(e.crypto, gx, value), d);
            && s.ok && Ready(s.party) && s.party.ake.state.AwaitingRevealSig? && s.reply.Some?
            && s.reply.value.msgType == (if Outranks(e, c, value) then TYPE_DH_COMMIT else TYPE_DH_KEY)
  {
    CommitRoundTrip(e.crypto, gx, value, []);
    hide Group.Exp, Mpi, CommitBody, ParseCommit, Above, Cipher;
  }

  lemma CommittedOutranks(e: Setting, c: Party, x: nat, r: bytes, value: nat)
    requires e.Valid() && Committed(e, c, x, r)
    ensures Outranks(e, c, value) <==> Above(e.crypto.sha256(Mpi(e.group.Exp(G1, x))), e.crypto.sha256(Mpi(value)))
  {
    hide Group.Exp, Mpi, Above, Cipher;
  }

  ghost predicate Repeats(s: Result) {
    s.reply.Some? && s.reply.value.msgType == TYPE_DH_COMMIT
  }

  /** Of two sides whose commitments cross the one with the larger hash repeats its own, so at most one
      does, and exactly one unless the two hashes are equal. */
  lemma OneRepeats(e: Setting, iKey: PublicKey, rKey: PublicKey, i: Party, r: Party, x: nat, y: nat, ri: bytes, rr: bytes,
                   di: Draws, dr: Draws)
    requires e.Valid() && Committed(e, i, x, ri) && Committed(e, r, y, rr) && Working(e, iKey, di) && Working(e, rKey, dr)
    requires Ready(i) && Ready(r)
    ensures var gx, gy := e.group.Exp(G1, x), e.group.Exp(G1, y);
            var si := ReceiveCommit(e, i, CommitBody(e.crypto, r.ake.encryptedGx, gy), di);
            var sr := ReceiveCommit(e, r, CommitBody(e.crypto, i.ake.encryptedGx, gx), dr);
            && (Repeats(si) <==> FromBytes(e.crypto.sha256(Mpi(gx))) > FromBytes(e.crypto.sha256(Mpi(gy))))
            && (Repeats(sr) <==> FromBytes(e.crypto.sha256(Mpi(gy))) > FromBytes(e.crypto.sha256(Mpi(gx))))
            && (Repeats(si) || Repeats(sr) <==> e.crypto.sha256(Mpi(gx)) != e.crypto.sha256(Mpi(gy)))
  {
    hide Group.Exp, Cipher, CommitBody, Mpi, Ready, Committed, ReceiveCommit, Working, Outranks, Above;
    var gx, gy := e.group.Exp(G1, x), e.group.Exp(G1, y);
    CommittedFits(e, i, x, ri);
    CommittedFits(e, r, y, rr);
    CrossedMoves(e, iKey, i, x, ri, r.ake.encryptedGx, gy, di);
    CrossedMoves(e, rKey, r, y, rr, i.ake.encryptedGx, gx, dr);
    CommittedOutranks(e, i, x, ri, gy);
    CommittedOutranks(e, r, y, rr, gx);
    var hx, hy := e.crypto.sha256(Mpi(gx)), e.crypto.sha256(Mpi(gy));
    AboveIsGreater(hx, hy);
    AboveIsGreater(hy, hx);
    FromBytesInjective(hx, hy);
  }

  /** Two sides and every key exchange message they sent each other so far. */
  datatype Net = Net(i: Party, r: Party, toR: seq<Reply>, toI: seq<Reply>)

  function Sends(sent: seq<Reply>, s: Result): seq<Reply> {
    if s.reply.Some? then sent + [s.reply.value] else sent
  }

  /** Some message that was sent, at any time before, reaches its side; no one sends a new query. */
  ghost predicate NetStep(e: Setting, iKey: PublicKey, rKey: PublicKey, n: Net, n': Net)
    requires e.Valid()
  {
    || (exists k, d :: && 0 <= k < |n.toR|
                       && var s := Relayed(e, rKey, n.r, Some(n.toR[k]), d); n' == n.(r := s.party, toI := Sends(n.toI, s)))
    || (exists k, d :: && 0 <= k < |n.toI|
                       && var s := Relayed(e, iKey, n.i, Some(n.toI[k]), d); n' == n.(i := s.party, toR := Sends(n.toR, s)))
  }

  ghost predicate NetRun(e: Setting, iKey: PublicKey, rKey: PublicKey, ns: seq<Net>)
    requires e.Valid()
  {
    |ns| > 0 && forall k, l {:trigger ns[k], ns[l]} :: 0 <= k && l == k + 1 < |ns| ==> NetStep(e, iKey, rKey, ns[k], ns[l])
  }

  ghost predicate Early(sent: seq<Reply>) {
    forall m <- sent :: m.msgType == TYPE_DH_COMMIT || m.msgType == TYPE_DH_KEY
  }

  /** Both sides await a Reveal Signature and no one will send one. */
  ghost predicate Stalled(n: Net) {
    && Ready(n.i) && Ready(n.r) && n.i.ake.state.AwaitingRevealSig? && n.r.ake.state.AwaitingRevealSig?
    && Early(n.toR) && Early(n.toI)
  }

  lemma StalledSide(e: Setting, me: PublicKey, c: Party, m: Reply, d: Draws)
    requires e.Valid() && Ready(c) && c.ake.state.AwaitingRevealSig? && (m.msgType == TYPE_DH_COMMIT || m.msgType == TYPE_DH_KEY)
    ensures var s := Relayed(e, me, c, Some(m), d);
            && Ready(s.party) && s.party.ake.state.AwaitingRevealSig?
            && (s.reply.Some? ==> s.reply.value.msgType == TYPE_DH_KEY)
    ensures !Finishes(e, me, c, Some(m), d)
  {
    hide ParseCommit, Mpi, Revealed, Signing, Verified, ParseSig;
  }

  lemma StalledStep(e: Setting, iKey: PublicKey, rKey: PublicKey, n: Net, n': Net)
    requires e.Valid() && Stalled(n) && NetStep(e, iKey, rKey, n, n')
    ensures Stalled(n')
  {
    hide Relayed, Ready, Finishes;
    if k, d :| 0 <= k < |n.toR| && var s := Relayed(e, rKey, n.r, Some(n.toR[k]), d); n' == n.(r := s.party, toI := Sends(n.toI, s)) {
      StalledSide(e, rKey, n.r, n.toR[k], d);
    } else {
      var k, d :| 0 <= k < |n.toI| && var s := Relayed(e, iKey, n.i, Some(n.toI[k]), d); n' == n.(i := s.party, toR := Sends(n.toR, s));
      StalledSide(e, iKey, n.i, n.toI[k], d);
    }
  }

  lemma {:induction false} StalledRun(e: Setting, iKey: PublicKey, rKey: PublicKey, ns: seq<Net>, k: nat)
    requires e.Valid() && NetRun(e, iKey, rKey, ns) && Stalled(ns[0]) && k < |ns|
    ensures Stalled(ns[k])
  {
    if k > 0 {
      hide NetStep, Stalled;
      StalledRun(e, iKey, rKey, ns, k - 1);
      StalledStep(e, iKey, rKey, ns[k - 1], ns[k]);
    }
  }

  /** Both sides after each has received the other's DH Commit. */
  ghost function Crossed(e: Setting, i: Party, r: Party, ci: bytes, cr: bytes, di: Draws, dr: Draws): Net
    requires e.Valid() && Ready(i) && Ready(r)
  {
    var si, sr := ReceiveCommit(e, i, cr, di), ReceiveCommit(e, r, ci, dr);
    Net(si.party, sr.party, Sends([Reply(TYPE_DH_COMMIT, ci)], si), Sends([Reply(TYPE_DH_COMMIT, cr)], sr))
  }

  /** Once the commitments have crossed the exchange never completes without a new query: in every
      run of deliveries, in any order and any number of times, both sides await a Reveal Signature
      and no message ever sent finishes the exchange for either of them. */
  lemma CrossingStalls(e: Setting, iKey: PublicKey, rKey: PublicKey, i: Party, r: Party, x: nat, y: nat, ri: bytes, rr: bytes,
                       di: Draws, dr: Draws, ns: seq<Net>, k: nat)
    requires e.Valid() && Committed(e, i, x, ri) && Committed(e, r, y, rr) && Working(e, iKey, di) && Working(e, rKey, dr)
    requires NetRun(e, iKey, rKey, ns) && k < |ns| && Ready(i) && Ready(r)
    requires ns[0] == Crossed(e, i, r, CommitBody(e.crypto, i.ake.encryptedGx, e.group.Exp(G1, x)),
                              CommitBody(e.crypto, r.ake.encryptedGx, e.group.Exp(G1, y)), di, dr)
    ensures ns[k].i.ake.state.AwaitingRevealSig? && ns[k].r.ake.state.AwaitingRevealSig?
    ensures forall m, d :: m in ns[k].toI ==> !Finishes(e, iKey, ns[k].i, Some(m), d)
    ensures forall m, d :: m in ns[k].toR ==> !Finishes(e, rKey, ns[k].r, Some(m), d)
  {
    var ci, cr := CommitBody(e.crypto, i.ake.encryptedGx, e.group.Exp(G1, x)), CommitBody(e.crypto, r.ake.encryptedGx, e.group.Exp(G1, y));
    assert |ns| > 0 && ns[0] == Crossed(e, i, r, ci, cr, di, dr);
    hide *;
    CrossedStalled(e, iKey, rKey, i, r, x, y, ri, rr, di, dr);
    StalledRun(e, iKey, rKey, ns, k);
    NothingFinishes(e, iKey, rKey, ns[k]);
  }

  lemma CommittedFits(e: Setting, c: Party, x: nat, r: bytes)
    requires e.Valid() && Committed(e, c, x, r)
    ensures |c.ake.encryptedGx| < WORD_LIMIT
  {
    hide Group.Exp, Mpi;
    ValueFits(e.group, x);
  }

  lemma CrossedStalled(e: Setting, iKey: PublicKey, rKey: PublicKey, i: Party, r: Party, x: nat, y: nat, ri: bytes, rr: bytes,
                       di: Draws, dr: Draws)
    requires e.Valid() && Committed(e, i, x, ri) && Committed(e, r, y, rr) && Working(e, iKey, di) && Working(e, rKey, dr)
    requires Ready(i) && Ready(r)
    ensures Stalled(Crossed(e, i, r, CommitBody(e.crypto, i.ake.encryptedGx, e.group.Exp(G1, x)),
                            CommitBody(e.crypto, r.ake.encryptedGx, e.group.Exp(G1, y)), di, dr))
  {
    hide Group.Exp, Cipher, CommitBody, Mpi, Ready, Committed, ReceiveCommit, Working, Outranks;
    CommittedFits(e, i, x, ri);
    CommittedFits(e, r, y, rr);
    CrossedMoves(e, iKey, i, x, ri, r.ake.encryptedGx, e.group.Exp(G1, y), di);
    CrossedMoves(e, rKey, r, y, rr, i.ake.encryptedGx, e.group.Exp(G1, x), dr);
  }

  lemma NothingFinishes(e: Setting, iKey: PublicKey, rKey: PublicKey, n: Net)
    requires e.Valid() && Stalled(n)
    ensures n.i.ake.state.AwaitingRevealSig? && n.r.ake.state.AwaitingRevealSig?
    ensures forall m, d :: m in n.toI ==> !Finishes(e, iKey, n.i, Some(m), d)
    ensures forall m, d :: m in n.toR ==> !Finishes(e, rKey, n.r, Some(m), d)
  {
    hide Finishes, Ready;
    forall m, d
      ensures m in n.toI ==> !Finishes(e, iKey, n.i, Some(m), d)
      ensures m in n.toR ==> !Finishes(e, rKey, n.r, Some(m), d)
    {
      if m in n.toI { StalledSide(e, iKey, n.i, m, d); }
      if m in n.toR { StalledSide(e, rKey, n.r, m, d); }
    }
  }
}
