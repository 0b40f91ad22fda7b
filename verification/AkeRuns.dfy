/** The key exchange against an arbitrary network: whatever messages, queries and local failures
    occur, what the states promise about the numbers they hold, and when a session starts. */
module AkeRuns {
  import opened Wire
  import opened DhGroup
  import opened Crypto
  import opened KeyManagement
  import opened Ake

  /** Awaiting anything, our value is the generator to our exponent.  Awaiting a Signature, the peer's
      value is in range, all keys come from the shared secret, and ake.keys holds exactly these. */
  ghost predicate Coherent(e: Setting, c: Party)
    requires e.Valid()
  {
    var a := c.ake;
    && Ready(c)
    && (!a.state.NoAuth? ==> a.ourValue == Some(e.group.Exp(G1, a.exponent.value)))
    && (a.state.AwaitingDhKey? && a.theirValue.Some? ==> e.group.IsGroupElement(a.theirValue.value))
    && (a.state.AwaitingSig? ==> AgreedKeys(e, c) && HoldsPair(a))
    && NoHistory(a.keys)
  }

  ghost predicate AgreedKeys(e: Setting, c: Party)
    requires e.Valid()
  {
    && c.ake.exponent.Some? && c.ake.theirValue.Some? && e.group.IsGroupElement(c.ake.theirValue.value)
    && (c.ssid, c.ake.revealKey, c.ake.sigKey)
       == AkeKeysFrom(e.crypto, e.group.Exp(c.ake.theirValue.value, c.ake.exponent.value))
  }

  ghost predicate HoldsPair(a: Ake) {
    && a.ourValue.Some? && a.exponent.Some?
    && a.keys.ourCurrent == Some(KeyPair(a.ourValue.value, a.exponent.value)) && a.keys.theirCurrent == a.theirValue
  }

  ghost predicate NoHistory(k: Keys) {
    k.ourPrevious.None? && k.theirPrevious.None? && k.counters == [] && k.macs == [] && k.oldMacs == []
  }

  datatype Action =
    | Query(draws: Draws)                                  // a query or whitespace tag: sendDHCommit
    | Deliver(msgType: byte, msg: bytes, draws: Draws)     // any bytes at all
    | Live(keys: Keys, msgState: MsgState)                 // whatever the running session does to itself

  /** None: the step panicked, on a nil number or on a slice out of range. */
  ghost function Step(e: Setting, me: PublicKey, c: Party, act: Action): Option<Party>
    requires e.Valid()
  {
    if !Ready(c) then None else
    match act
    case Query(d) => (match SendDhCommit(e, c, d) case None => None case Some(r) => Some(r.party))
    case Deliver(t, msg, d) => Some(ProcessAke(e, me, c, t, msg, d).party)
    case Live(k, s) => Some(c.(keys := k, msgState := s))
  }

  lemma StepIsProcess(e: Setting, me: PublicKey, c: Party, t: byte, msg: bytes, d: Draws)
    requires e.Valid() && Ready(c)
    ensures Step(e, me, c, Deliver(t, msg, d)) == Some(ProcessAke(e, me, c, t, msg, d).party)
  {
    hide ProcessAke;
  }

  lemma DispatchIs(e: Setting, me: PublicKey, c: Party, t: byte, msg: bytes, d: Draws)
    requires e.Valid() && Ready(c)
    ensures ProcessAke(e, me, c, t, msg, d)
            == if t == TYPE_DH_COMMIT then ReceiveCommit(e, c, msg, d)
               else if t == TYPE_DH_KEY then ReceiveDhKey(e, me, c, msg, d)
               else if t == TYPE_REVEAL_SIG then ReceiveRevealSig(e, me, c, msg, d)
               else if t == TYPE_SIG then ReceiveSig(e, c, msg, d)
               else Fail(c)
  {
    hide ReceiveCommit, ReceiveDhKey, ReceiveRevealSig, ReceiveSig;
  }

  lemma CommitCoherent(e: Setting, c: Party, msg: bytes, d: Draws)
    requires e.Valid() && Coherent(e, c)
    ensures Coherent(e, ReceiveCommit(e, c, msg, d).party)
  {
    hide ParseCommit, CommitBody, AkeKeysFrom, Group.Exp, Mpi, Above;
  }

  lemma DhKeyCoherent(e: Setting, me: PublicKey, c: Party, msg: bytes, d: Draws)
    requires e.Valid() && Coherent(e, c)
    ensures Coherent(e, ReceiveDhKey(e, me, c, msg, d).party)
  {
    hide ExtractMpi, SigBody, AkeKeysFrom, Group.Exp, Mpi, Data, Seal, SignedHash;
  }

  lemma RevealSigCoherent(e: Setting, me: PublicKey, c: Party, msg: bytes, d: Draws)
    requires e.Valid() && Coherent(e, c)
    ensures Coherent(e, ReceiveRevealSig(e, me, c, msg, d).party)
  {
    hide Revealed, SigBody, AkeKeysFrom, Group.Exp, Seal, SignedHash, SignedBy, AgreedKeys;
    if c.ake.state.AwaitingRevealSig? {
      RevealedSound(e, c, msg);
    }
  }

  lemma SigCoherent(e: Setting, c: Party, msg: bytes, d: Draws)
    requires e.Valid() && Coherent(e, c)
    ensures Coherent(e, ReceiveSig(e, c, msg, d).party)
  {
    hide ParseSig, AkeKeysFrom, Group.Exp, Open;
  }

  lemma QueryCoherent(e: Setting, c: Party, d: Draws)
    requires e.Valid()
    ensures var r := SendDhCommit(e, c, d); r.Some? ==> Coherent(e, r.value.party)
  {
    hide CommitBody, AkeKeysFrom, Group.Exp, Mpi, Cipher;
  }

  lemma StepCoherent(e: Setting, me: PublicKey, c: Party, act: Action)
    requires e.Valid() && Coherent(e, c)
    ensures var c' := Step(e, me, c, act); c'.Some? ==> Coherent(e, c'.value)
  {
    hide SendDhCommit, ReceiveCommit, ReceiveDhKey, ReceiveRevealSig, ReceiveSig, AkeKeysFrom, Group.Exp;
    assert Ready(c);
    match act
    case Query(d) =>
      hide Coherent;
      QueryCoherent(e, c, d);
    case Deliver(t, msg, d) =>
      hide Coherent;
      CommitCoherent(e, c, msg, d);
      DhKeyCoherent(e, me, c, msg, d);
      RevealSigCoherent(e, me, c, msg, d);
      SigCoherent(e, c, msg, d);
    case Live(_, _) =>
  }

  ghost predicate IsRun(e: Setting, me: PublicKey, cs: seq<Party>, acts: seq<Action>)
    requires e.Valid()
  {
    && |cs| == |acts| + 1 && cs[0].ake == NewAke()
    && forall i {:trigger acts[i]} :: 0 <= i < |acts| ==> Step(e, me, cs[i], acts[i]) == Some(cs[i + 1])
  }

  lemma RunStep(e: Setting, me: PublicKey, cs: seq<Party>, acts: seq<Action>, i: nat)
    requires e.Valid() && IsRun(e, me, cs, acts) && 0 < i < |cs|
    ensures i - 1 < |acts| && Step(e, me, cs[i - 1], acts[i - 1]) == Some(cs[i])
  {
  }

  lemma {:induction false} RunCoherent(e: Setting, me: PublicKey, cs: seq<Party>, acts: seq<Action>, i: nat)
    requires e.Valid() && IsRun(e, me, cs, acts) && i < |cs|
    ensures Coherent(e, cs[i])
  {
    hide Step, AkeKeysFrom;
    if i > 0 {
      hide *;
      RunStep(e, me, cs, acts, i);
      RunCoherent(e, me, cs, acts, i - 1);
      StepCoherent(e, me, cs[i - 1], acts[i - 1]);
    }
  }

  /** The only step that can panic in a reachable state is a query for which a public value under
      2^88 is drawn. */
  lemma PanicsExactly(e: Setting, me: PublicKey, cs: seq<Party>, acts: seq<Action>, i: nat, act: Action)
    requires e.Valid() && IsRun(e, me, cs, acts) && i < |cs|
    ensures Step(e, me, cs[i], act).None? <==>
            && act.Query? && act.draws.exponent.Some? && act.draws.r.Some?
            && e.group.Exp(G1, act.draws.exponent.value) < Pow256(AES_BLOCK - 5)
  {
    hide *;
    RunCoherent(e, me, cs, acts, i);
    PanicsAt(e, me, cs[i], act);
  }

  lemma PanicsAt(e: Setting, me: PublicKey, c: Party, act: Action)
    requires e.Valid() && Coherent(e, c)
    ensures Step(e, me, c, act).None? <==>
            && act.Query? && act.draws.exponent.Some? && act.draws.r.Some?
            && e.group.Exp(G1, act.draws.exponent.value) < Pow256(AES_BLOCK - 5)
  {
    hide ProcessAke, CommitBody, Group.Exp, Mpi, Cipher, AkeKeysFrom, NatBytes, Pow256;
    if act.Query? && act.draws.exponent.Some? {
      var gx := e.group.Exp(G1, act.draws.exponent.value);
      MpiLength(gx);
      NatBytesLength(gx, AES_BLOCK - 5);
    }
  }

  // ------------------------------------------------------------ what the keys and signatures depend on

  ghost predicate KeyFits(k: PublicKey) {
    FitsMpi(k.p) && FitsMpi(k.q) && FitsMpi(k.g) && FitsMpi(k.y)
  }

  lemma WordInjective(v: uint32, w: uint32)
    ensures Word(v) == Word(w) <==> v == w
  {
    WordRoundTrip(v, []);
    WordRoundTrip(w, []);
    assert Word(v) + [] == Word(v) && Word(w) + [] == Word(w);
  }

  lemma KeyTextUnique(key: PublicKey, id: uint32, key': PublicKey, id': uint32)
    requires KeyFits(key) && KeyFits(key')
    ensures SerializeKey(key) + Word(id) == SerializeKey(key') + Word(id') <==> key == key' && id == id'
  {
    hide Mpi, Word, Short, FitsMpi;
    var y, y' := Mpi(key.y) + Word(id), Mpi(key'.y) + Word(id');
    var g, g' := Mpi(key.g) + y, Mpi(key'.g) + y';
    var q, q' := Mpi(key.q) + g, Mpi(key'.q) + g';
    var p, p' := Mpi(key.p) + q, Mpi(key'.p) + q';
    WordInjective(id, id');
    MpiInjective(key.y, key'.y, Word(id), Word(id'));
    MpiInjective(key.g, key'.g, y, y');
    MpiInjective(key.q, key'.q, g, g');
    MpiInjective(key.p, key'.p, q, q');
    assert SerializeKey(key) + Word(id) == Short(0) + p && SerializeKey(key') + Word(id') == Short(0) + p';
    assert (Short(0) + p)[2..] == p && (Short(0) + p')[2..] == p';
  }

  /** Different values, long-term keys or key ids are different texts to sign. */
  lemma SignedTextUnique(one: nat, two: nat, key: PublicKey, id: uint32, one': nat, two': nat, key': PublicKey, id': uint32)
    requires FitsMpi(one) && FitsMpi(two) && FitsMpi(one') && FitsMpi(two') && KeyFits(key) && KeyFits(key')
    ensures SignedText(one, two, key, id) == SignedText(one', two', key', id')
            <==> one == one' && two == two' && key == key' && id == id'
  {
    hide Mpi, Word, FitsMpi, SerializeKey, KeyFits;
    var k, k' := SerializeKey(key) + Word(id), SerializeKey(key') + Word(id');
    KeyTextUnique(key, id, key', id');
    MpiInjective(two, two', k, k');
    MpiInjective(one, one', Mpi(two) + k, Mpi(two') + k');
    assert SignedText(one, two, key, id) == Mpi(one) + (Mpi(two) + k);
    assert SignedText(one', two', key', id') == Mpi(one') + (Mpi(two') + k');
  }

  /** So under one MAC key the hashes that are signed agree exactly when all four do, or two different
      texts have the same HMAC. */
  lemma SignedHashesAgree(c: Primitives, k: AkeKeys, one: nat, two: nat, key: PublicKey, id: uint32,
                          one': nat, two': nat, key': PublicKey, id': uint32)
    requires FitsMpi(one) && FitsMpi(two) && FitsMpi(one') && FitsMpi(two') && KeyFits(key) && KeyFits(key')
    ensures var t, t' := SignedText(one, two, key, id), SignedText(one', two', key', id');
            SignedHash(c, k, one, two, key, id) == SignedHash(c, k, one', two', key', id')
            <==> || (one == one' && two == two' && key == key' && id == id')
                 || (t != t' && c.hmacSha256(k.m1, t) == c.hmacSha256(k.m1, t'))
  {
    hide Mpi, Word, FitsMpi, SerializeKey, KeyFits;
    SignedTextUnique(one, two, key, id, one', two', key', id');
    assert SignedHash(c, k, one, two, key, id) == c.hmacSha256(k.m1, SignedText(one, two, key, id));
    assert SignedHash(c, k, one', two', key', id') == c.hmacSha256(k.m1, SignedText(one', two', key', id'));
  }

  /** Two different texts of a byte and a shared secret with the same SHA-256. */
  ghost predicate SecretsCollide(c: Primitives, b: byte, s: nat, b': byte, s': nat) {
    [b] + Mpi(s) != [b'] + Mpi(s') && c.sha256([b] + Mpi(s)) == c.sha256([b'] + Mpi(s'))
  }

  /** The keys of two exchanges agree exactly when the shared secrets do or SHA-256 collides, key by key:
      byte 1 gives both cipher keys, bytes 2 and 3 the MAC keys of the Reveal Signature, 4 and 5 those
      of the Signature; the session id is the start of the hash for byte 0. */
  lemma AkeKeysSeparate(c: Primitives, gr: Group, s: nat, s': nat)
    requires c.Valid() && gr.Valid() && s < gr.p && s' < gr.p
    ensures var ((id, rk, sk), (id', rk', sk')) := (AkeKeysFrom(c, s), AkeKeysFrom(c, s'));
            && |id| == SSID_LENGTH && |rk.c| == |sk.c| == AES_KEY_LENGTH
            && (id == id' <==> c.sha256([0] + Mpi(s))[..SSID_LENGTH] == c.sha256([0] + Mpi(s'))[..SSID_LENGTH])
            && (rk.c + sk.c == rk'.c + sk'.c <==> s == s' || SecretsCollide(c, 1, s, 1, s'))
            && (rk.m1 == rk'.m1 <==> s == s' || SecretsCollide(c, 2, s, 2, s'))
            && (rk.m2 == rk'.m2 <==> s == s' || SecretsCollide(c, 3, s, 3, s'))
            && (sk.m1 == sk'.m1 <==> s == s' || SecretsCollide(c, 4, s, 4, s'))
            && (sk.m2 == sk'.m2 <==> s == s' || SecretsCollide(c, 5, s, 5, s'))
            && (rk.m1 == sk'.m1 <==> SecretsCollide(c, 2, s, 4, s'))
  {
    hide Mpi;
    PrefixedMpi(1, s, 1, s', gr.p);
    PrefixedMpi(2, s, 2, s', gr.p);
    PrefixedMpi(3, s, 3, s', gr.p);
    PrefixedMpi(4, s, 4, s', gr.p);
    PrefixedMpi(5, s, 5, s', gr.p);
    PrefixedMpi(2, s, 4, s', gr.p);
    CutInTwo(c.sha256([1] + Mpi(s)), c.sha256([1] + Mpi(s')));
  }

  lemma CutInTwo(a: bytes, b: bytes)
    requires |a| == |b| >= AES_KEY_LENGTH
    ensures a[..AES_KEY_LENGTH] + a[AES_KEY_LENGTH..] == b[..AES_KEY_LENGTH] + b[AES_KEY_LENGTH..] <==> a == b
  {
    assert a == a[..AES_KEY_LENGTH] + a[AES_KEY_LENGTH..] && b == b[..AES_KEY_LENGTH] + b[AES_KEY_LENGTH..];
  }

  /** What is sealed is enciphered under the key c, from a zero block. */
  lemma SealedUnder(c: Primitives, k: AkeKeys, key: PublicKey, id: uint32, sig: bytes)
    requires c.Valid() && |k.c| == AES_KEY_LENGTH
    ensures var b := Seal(c, k, key, id, sig); Xor(b, c.keystream(k.c, Zeros(AES_BLOCK), |b|)) == SerializeKey(key) + Word(id) + sig
  {
    hide SerializeKey, Word;
    CtrTwice(c, k.c, Zeros(AES_BLOCK), SerializeKey(key) + Word(id) + sig);
  }

  /** And authenticated under m2: two sealed texts have one MAC exactly when they are equal or the HMAC
      values of two different texts start alike. */
  lemma SealMacsAgree(c: Primitives, k: AkeKeys, a: bytes, b: bytes)
    requires c.Valid() && |a| < WORD_LIMIT && |b| < WORD_LIMIT
    ensures |SealMac(c, k, a)| == MAC_LENGTH
    ensures SealMac(c, k, a) == SealMac(c, k, b)
            <==> || a == b
                 || (Data(a) != Data(b) && c.hmacSha256(k.m2, Data(a))[..MAC_LENGTH] == c.hmacSha256(k.m2, Data(b))[..MAC_LENGTH])
  {
    hide Data, ExtractData;
    DataRoundTrip(a, []);
    DataRoundTrip(b, []);
  }

  /** What opening a sealed signature decides, in this order: the MAC under m2 over the sealed bytes; that
      what they decipher to under c parses as key, key id and rest; that the rest is a signature by
      that key of the other side's text. */
  lemma OpenDecides(c: Primitives, k: AkeKeys, ours: nat, theirs: nat, sealed: bytes, mac: bytes)
    requires c.Valid() && |k.c| == AES_KEY_LENGTH
    ensures var o := Open(c, k, ours, theirs, sealed, mac);
            var plain := Xor(sealed, c.keystream(k.c, Zeros(AES_BLOCK), |sealed|));
            && (o.BadMac? <==> c.hmacSha256(k.m2, Data(sealed))[..MAC_LENGTH] != mac)
            && (o.Signed? ==>
                  && ParseKey(plain).Parsed? && ParseKey(plain).value == o.key
                  && ExtractWord(ParseKey(plain).rest).Parsed? && ExtractWord(ParseKey(plain).rest).value == o.keyId
                  && var sig := ExtractWord(ParseKey(plain).rest).rest;
                     |sig| == SIGNATURE_LENGTH && c.dsaVerify(o.key, c.hmacSha256(k.m1, SignedText(theirs, ours, o.key, o.keyId)), sig))
  {
    hide ParseKey, ExtractWord, Data, SerializeKey, Mpi, Word;
    if Open(c, k, ours, theirs, sealed, mac).Signed? {
      var o := Open(c, k, ours, theirs, sealed, mac);
      assert SignedHash(c, k, theirs, ours, o.key, o.keyId) == c.hmacSha256(k.m1, SignedText(theirs, ours, o.key, o.keyId));
    }
  }

  /** A Reveal Signature is believed only if the key it reveals opens the commitment: what the stored bytes
      decipher to has the committed hash and is exactly the value taken. */
  lemma RevealedCommitted(e: Setting, c: Party, msg: bytes)
    requires e.Valid() && c.ake.exponent.Some? && c.ake.ourValue.Some?
    ensures var (c', ok) := Revealed(e, c, msg);
            ok ==> exists r: bytes ::
                     var gx := Xor(c.ake.encryptedGx, e.crypto.keystream(r, Zeros(AES_BLOCK), |c.ake.encryptedGx|));
                     && e.crypto.sha256(gx) == c.ake.hashedGx && c'.ake.theirValue.Some?
                     && ExtractMpi(gx) == Parsed([], c'.ake.theirValue.value) && e.group.IsGroupElement(c'.ake.theirValue.value)
  {
    hide ParseRevealSig, ExtractMpi, Open, AkeKeysFrom, Group.Exp, Xor;
    var m := ParseRevealSig(msg);
    if m.Some? && Revealed(e, c, msg).1 {
      var gx := Xor(c.ake.encryptedGx, e.crypto.keystream(m.value.0, Zeros(AES_BLOCK), |c.ake.encryptedGx|));
      assert gx == Cipher(e.crypto, m.value.0, c.ake.encryptedGx);
    }
  }

  /** Keys that are kept through a wipe keep their number and lengths and nothing else. */
  lemma KeptAsZeros(k: Keys)
    ensures var kept := WipedKept(k).oldMacs;
            |kept| == |k.oldMacs| && forall i :: 0 <= i < |kept| ==> |kept[i]| == |k.oldMacs[i]| && forall b <- kept[i] :: b == 0
  {
  }

  // ------------------------------------------------------------ when a session starts

  /** The step passes every check of the last message it needs: akeHasFinished is reached. */
  ghost predicate Completes(e: Setting, me: PublicKey, c: Party, act: Action)
    requires e.Valid() && Ready(c)
  {
    && act.Deliver?
    && (|| (&& act.msgType == TYPE_REVEAL_SIG && c.ake.state.AwaitingRevealSig? && act.draws.header
            && var (c1, ok) := Revealed(e, c, act.msg);
               ok && c1.ake.ourValue.Some? && c1.ake.theirValue.Some? && Signing(e, me, c1, c1.ake.sigKey, act.draws).1.Some?)
        || (&& act.msgType == TYPE_SIG && c.ake.state.AwaitingSig?
            && var m := ParseSig(act.msg); m.Some? && Verified(e, c, c.ake.sigKey, m.value.0, m.value.1).1))
  }

  /** What a party signs: its own value, the other one, its long-term key and the id of its session key. */
  ghost function SignedText(one: nat, two: nat, key: PublicKey, keyId: uint32): bytes {
    Mpi(one) + Mpi(two) + SerializeKey(key) + Word(keyId)
  }

  ghost predicate SignedBy(c: Primitives, k: AkeKeys, one: nat, two: nat, key: PublicKey, keyId: uint32) {
    exists sig :: |sig| == SIGNATURE_LENGTH && c.dsaVerify(key, c.hmacSha256(k.m1, SignedText(one, two, key, keyId)), sig)
  }

  /** The session's keys: a peer value in range, which the peer signed together with ours under keys
      that come from the secret the two values share, and no history of another session. */
  ghost predicate Authenticated(e: Setting, c: Party, own: KeyPair)
    requires e.Valid()
  {
    && IsKeyPair(e.group, own) && c.keys.theirCurrent.Some? && e.group.IsGroupElement(c.keys.theirCurrent.value)
    && c.keys.theirPrevious.None? && c.keys.counters == [] && c.keys.macs == [] && c.keys.oldMacs == []
    && c.theirKey.Some?
    && var (ssid, rk, sk) := AkeKeysFrom(e.crypto, e.group.Exp(c.keys.theirCurrent.value, own.priv));
       && c.ssid == ssid
       && (|| SignedBy(e.crypto, rk, c.keys.theirCurrent.value, own.pub, c.theirKey.value, c.keys.theirKeyId)
           || SignedBy(e.crypto, sk, c.keys.theirCurrent.value, own.pub, c.theirKey.value, c.keys.theirKeyId))
  }

  ghost predicate Started(e: Setting, c: Party, next: Option<nat>)
    requires e.Valid()
  {
    && c.msgState == Encrypted
    && (match next
        case None => c.keys.ourCurrent.Some? && c.keys.ourPrevious.None? && Authenticated(e, c, c.keys.ourCurrent.value)
        case Some(x) => && c.keys.ourPrevious.Some? && Authenticated(e, c, c.keys.ourPrevious.value)
                        && c.keys.ourCurrent == Some(NewPair(e.group, x)))
  }

  lemma OpenSound(c: Primitives, k: AkeKeys, ours: nat, theirs: nat, sealed: bytes, mac: bytes)
    requires c.Valid()
    ensures var o := Open(c, k, ours, theirs, sealed, mac);
            o.Signed? ==> SignedBy(c, k, theirs, ours, o.key, o.keyId)
  {
  }

  lemma VerifiedSound(e: Setting, c: Party, k: AkeKeys, sealed: bytes, mac: bytes)
    requires e.Valid() && c.ake.ourValue.Some? && c.ake.theirValue.Some?
    ensures var (c', ok) := Verified(e, c, k, sealed, mac);
            && c'.(theirKey := c.theirKey, ake := c'.ake.(keys := c'.ake.keys.(theirKeyId := c.ake.keys.theirKeyId))) == c
            && (ok ==> c'.theirKey.Some?
                       && SignedBy(e.crypto, k, c.ake.theirValue.value, c.ake.ourValue.value, c'.theirKey.value, c'.ake.keys.theirKeyId))
  {
    hide Open, SignedBy;
    OpenSound(e.crypto, k, c.ake.ourValue.value, c.ake.theirValue.value, sealed, mac);
  }

  lemma RevealedSound(e: Setting, c: Party, msg: bytes)
    requires e.Valid() && c.ake.exponent.Some? && c.ake.ourValue.Some?
    ensures var (c', ok) := Revealed(e, c, msg);
            && c'.keys == c.keys && c'.msgState == c.msgState
            && c'.ake.state == c.ake.state && c'.ake.exponent == c.ake.exponent && c'.ake.ourValue == c.ake.ourValue
            && c'.ake.keys.(theirKeyId := c.ake.keys.theirKeyId) == c.ake.keys
            && (ok ==> && AgreedKeys(e, c') && c'.theirKey.Some?
                       && SignedBy(e.crypto, c'.ake.revealKey, c'.ake.theirValue.value, c'.ake.ourValue.value,
                                   c'.theirKey.value, c'.ake.keys.theirKeyId))
  {
    hide ParseRevealSig, Cipher, ExtractMpi, SignedBy, Verified, AkeKeysFrom, Group.Exp;
    var m := ParseRevealSig(msg);
    if m.Some? {
      var gx := ExtractMpi(Cipher(e.crypto, m.value.0, c.ake.encryptedGx));
      if gx.Parsed? {
        var c2 := WithAkeKeys(e, c.(ake := c.ake.(theirValue := Some(gx.value))));
        VerifiedSound(e, c2, c2.ake.revealKey, m.value.1, m.value.2);
      }
    }
  }

  lemma RevealSigStarts(e: Setting, me: PublicKey, c: Party, act: Action)
    requires e.Valid() && Coherent(e, c) && act.Deliver? && act.msgType == TYPE_REVEAL_SIG
    ensures var c' := ReceiveRevealSig(e, me, c, act.msg, act.draws).party;
            if Completes(e, me, c, act) then Started(e, c', act.draws.next)
            else c'.keys == c.keys && c'.msgState == c.msgState
  {
    hide Revealed, SigBody, Data, Seal, SignedHash, SignedBy, AkeKeysFrom, Group.Exp;
    if c.ake.state.AwaitingRevealSig? {
      RevealedSound(e, c, act.msg);
    }
  }

  lemma SigStarts(e: Setting, me: PublicKey, c: Party, act: Action)
    requires e.Valid() && Coherent(e, c) && act.Deliver? && act.msgType == TYPE_SIG
    ensures var c' := ReceiveSig(e, c, act.msg, act.draws).party;
            if Completes(e, me, c, act) then Started(e, c', act.draws.next)
            else c'.keys == c.keys && c'.msgState == c.msgState
  {
    hide ParseSig, Verified, SignedBy, AkeKeysFrom, Group.Exp;
    var m := ParseSig(act.msg);
    if c.ake.state.AwaitingSig? && m.Some? {
      VerifiedSound(e, c, c.ake.sigKey, m.value.0, m.value.1);
    }
  }

  lemma CommitKeepsSession(e: Setting, c: Party, msg: bytes, d: Draws)
    requires e.Valid() && Ready(c)
    ensures var c' := ReceiveCommit(e, c, msg, d).party; c'.keys == c.keys && c'.msgState == c.msgState
  {
  }

  lemma DhKeyKeepsSession(e: Setting, me: PublicKey, c: Party, msg: bytes, d: Draws)
    requires e.Valid() && Ready(c)
    ensures var c' := ReceiveDhKey(e, me, c, msg, d).party; c'.keys == c.keys && c'.msgState == c.msgState
  {
    hide AkeKeysFrom, Group.Exp, Mpi, ExtractMpi, SigBody, Data, Seal, SignedHash;
  }

  /** In every reachable state, an exchange step either starts a session that the peer signed, or
      leaves the running session's keys and state alone. */
  lemma SessionStartsSigned(e: Setting, me: PublicKey, cs: seq<Party>, acts: seq<Action>, i: nat)
    requires e.Valid() && IsRun(e, me, cs, acts) && i < |acts| && !acts[i].Live?
    ensures Ready(cs[i])
    ensures if Completes(e, me, cs[i], acts[i]) then Started(e, cs[i + 1], acts[i].draws.next)
            else cs[i + 1].keys == cs[i].keys && cs[i + 1].msgState == cs[i].msgState
  {
    assert |cs| == |acts| + 1;
    hide *;
    RunCoherent(e, me, cs, acts, i);
    RunStep(e, me, cs, acts, i + 1);
    StepStarts(e, me, cs[i], acts[i], cs[i + 1]);
  }

  lemma StepStarts(e: Setting, me: PublicKey, c: Party, act: Action, c': Party)
    requires e.Valid() && Coherent(e, c) && Step(e, me, c, act) == Some(c') && !act.Live?
    ensures Ready(c)
    ensures if Completes(e, me, c, act) then Started(e, c', act.draws.next)
            else c'.keys == c.keys && c'.msgState == c.msgState
  {
    match act
    case Query(d) =>
      hide CommitBody, Group.Exp, Mpi, Cipher, AkeKeysFrom;
    case Deliver(t, msg, d) =>
      hide ReceiveCommit, ReceiveDhKey, ReceiveRevealSig, ReceiveSig, Started, Revealed, Verified, Signing, AkeKeysFrom;
      CommitKeepsSession(e, c, msg, d);
      DhKeyKeepsSession(e, me, c, msg, d);
      if t == TYPE_REVEAL_SIG { RevealSigStarts(e, me, c, act); }
      if t == TYPE_SIG { SigStarts(e, me, c, act); }
  }

  /** No exchange finishes between i and j, and the session itself is idle. */
  ghost predicate Quiet(e: Setting, me: PublicKey, cs: seq<Party>, acts: seq<Action>, i: nat, j: nat)
    requires e.Valid() && i <= j <= |acts| < |cs|
  {
    forall k {:trigger acts[k]} :: i <= k < j ==> !acts[k].Live? && (Ready(cs[k]) ==> !Completes(e, me, cs[k], acts[k]))
  }

  /** Any number of exchange steps that do not finish one leaves the running session as it was. */
  lemma {:induction false} UnfinishedExchangesKeepSession(e: Setting, me: PublicKey, cs: seq<Party>, acts: seq<Action>, i: nat, j: nat)
    requires e.Valid() && IsRun(e, me, cs, acts) && i <= j <= |acts| && Quiet(e, me, cs, acts, i, j)
    ensures cs[j].keys == cs[i].keys && cs[j].msgState == cs[i].msgState
    decreases j - i
  {
    if i < j {
      assert Quiet(e, me, cs, acts, i, j - 1) && !acts[j - 1].Live? && (Ready(cs[j - 1]) ==> !Completes(e, me, cs[j - 1], acts[j - 1])) by {
        hide Completes, IsRun, Ready;
      }
      hide *;
      UnfinishedExchangesKeepSession(e, me, cs, acts, i, j - 1);
      SessionStartsSigned(e, me, cs, acts, j - 1);
    }
  }
}
