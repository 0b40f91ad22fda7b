/** The key exchange in place (auth_state_machine.go, ake.go, wipe.go).  Every big integer is a cell
    of memory that a wipe sets to zero; the key slots are a struct of references, so copying it
    shares the cells.  Each method is proved against the value model, with the cells of the live
    session untouched until an exchange has finished. */
module AkeHeap {
  import opened Wire
  import opened DhGroup
  import opened Crypto
  import opened KeyManagement
  import opened AkeValues = Ake
  import AkeRuns

  /** A reference to a cell; None is nil. */
  type Ref = Option<nat>

  datatype PairRef = PairRef(pub: Ref, priv: Ref)

  /** keyManagementContext as a struct. */
  datatype Slots = Slots(
    ourKeyId: uint32, theirKeyId: uint32,
    ourCurrent: PairRef, ourPrevious: PairRef, theirCurrent: Ref, theirPrevious: Ref,
    counters: seq<Counter>, macs: seq<MacUse>, oldMacs: seq<bytes>)

  /** The struct ake. */
  datatype Exchange = Exchange(
    state: AuthState, exponent: Ref, ourValue: Ref, theirValue: Ref,
    r: bytes, encryptedGx: bytes, hashedGx: bytes, revealKey: AkeKeys, sigKey: AkeKeys, keys: Slots)

  const NO_PAIR := PairRef(None, None)
  const EMPTY := Slots(0, 0, NO_PAIR, NO_PAIR, None, None, [], [], [])

  function NewExchange(): Exchange {
    Exchange(NoAuth, None, None, None, Zeros(R_LENGTH), [], [], NO_KEYS, NO_KEYS, EMPTY)
  }

  // ------------------------------------------------------------ values in memory

  ghost function ValueAt(mem: seq<nat>, n: Ref): Option<nat> {
    if n.Some? && n.value < |mem| then Some(mem[n.value]) else None
  }

  ghost function PairAt(mem: seq<nat>, p: PairRef): Option<KeyPair> {
    var pub, priv := ValueAt(mem, p.pub), ValueAt(mem, p.priv);
    if pub.Some? && priv.Some? then Some(KeyPair(pub.value, priv.value)) else None
  }

  ghost function KeysAt(mem: seq<nat>, k: Slots): Keys {
    Keys(k.ourKeyId, k.theirKeyId, PairAt(mem, k.ourCurrent), PairAt(mem, k.ourPrevious),
         ValueAt(mem, k.theirCurrent), ValueAt(mem, k.theirPrevious), k.counters, k.macs, k.oldMacs)
  }

  ghost function AkeAt(mem: seq<nat>, a: Exchange): Ake {
    Ake(a.state, ValueAt(mem, a.exponent), ValueAt(mem, a.ourValue), ValueAt(mem, a.theirValue),
        a.r, a.encryptedGx, a.hashedGx, a.revealKey, a.sigKey, KeysAt(mem, a.keys))
  }

  // ------------------------------------------------------------ who owns a cell

  const EXPONENT: nat := 0
  const OUR_VALUE: nat := 1
  const THEIR_VALUE: nat := 2
  const AKE_SLOTS: nat := 3         // six cells: our current pair, our previous pair, their two values
  const SESSION_SLOTS: nat := 9     // the same six of the session
  const FREED: nat := 15

  /** A reference leads to a cell of that owner, so references of different owners never meet. */
  ghost predicate Owned(owner: seq<nat>, n: Ref, who: nat) {
    n.Some? ==> n.value < |owner| && owner[n.value] == who
  }

  ghost predicate OwnedSlots(owner: seq<nat>, k: Slots, base: nat) {
    && Owned(owner, k.ourCurrent.pub, base) && Owned(owner, k.ourCurrent.priv, base + 1)
    && Owned(owner, k.ourPrevious.pub, base + 2) && Owned(owner, k.ourPrevious.priv, base + 3)
    && Owned(owner, k.theirCurrent, base + 4) && Owned(owner, k.theirPrevious, base + 5)
  }

  ghost predicate OwnedAke(owner: seq<nat>, a: Exchange) {
    && Owned(owner, a.exponent, EXPONENT) && Owned(owner, a.ourValue, OUR_VALUE) && Owned(owner, a.theirValue, THEIR_VALUE)
    && OwnedSlots(owner, a.keys, AKE_SLOTS)
  }

  /** Memory may have grown, and no cell owned by lo..hi changed. */
  ghost predicate SameCells(mem: seq<nat>, mem': seq<nat>, owner: seq<nat>, owner': seq<nat>, lo: nat, hi: nat) {
    && |mem| <= |mem'| && |owner| == |mem| && |owner'| == |mem'|
    && forall i {:trigger owner[i]} :: 0 <= i < |mem| && lo <= owner[i] < hi ==> mem'[i] == mem[i] && owner'[i] == owner[i]
  }

  /** Every reference of another owner still leads to its cell, unchanged. */
  ghost predicate OthersKept(mem: seq<nat>, mem': seq<nat>, owner: seq<nat>, owner': seq<nat>, who: nat) {
    && |mem| <= |mem'| && |owner| == |mem| && |owner'| == |mem'|
    && forall n: Ref, w: nat {:trigger Owned(owner, n, w)} ::
         w != who && Owned(owner, n, w) ==> ValueAt(mem', n) == ValueAt(mem, n) && Owned(owner', n, w)
  }

  lemma OthersSame(mem: seq<nat>, mem': seq<nat>, owner: seq<nat>, owner': seq<nat>, who: nat, lo: nat, hi: nat)
    requires OthersKept(mem, mem', owner, owner', who) && !(lo <= who < hi)
    ensures SameCells(mem, mem', owner, owner', lo, hi)
  {
    forall i {:trigger owner[i]} | 0 <= i < |mem| && lo <= owner[i] < hi
      ensures mem'[i] == mem[i] && owner'[i] == owner[i]
    {
      assert Owned(owner, Some(i), owner[i]);
    }
  }

  lemma SlotsKept(mem: seq<nat>, mem': seq<nat>, owner: seq<nat>, owner': seq<nat>, k: Slots, base: nat)
    requires SameCells(mem, mem', owner, owner', base, base + 6) && OwnedSlots(owner, k, base)
    ensures KeysAt(mem', k) == KeysAt(mem, k) && OwnedSlots(owner', k, base)
  {
  }

  lemma AkeKept(mem: seq<nat>, mem': seq<nat>, owner: seq<nat>, owner': seq<nat>, a: Exchange)
    requires SameCells(mem, mem', owner, owner', EXPONENT, SESSION_SLOTS) && OwnedAke(owner, a)
    ensures AkeAt(mem', a) == AkeAt(mem, a) && OwnedAke(owner', a)
  {
    hide KeysAt, OwnedSlots;
    SlotsKept(mem, mem', owner, owner', a.keys, AKE_SLOTS);
  }

  /** wipeBigInt */
  function Wiped(mem: seq<nat>, n: Ref): (r: seq<nat>)
    ensures |r| == |mem|
  {
    if n.Some? && n.value < |mem| then mem[n.value := 0] else mem
  }

  function WipedPair(mem: seq<nat>, p: PairRef): (r: seq<nat>)
    ensures |r| == |mem|
  {
    Wiped(Wiped(mem, p.pub), p.priv)
  }

  /** keyManagementContext.wipeKeys */
  function WipedSlots(mem: seq<nat>, k: Slots): (r: seq<nat>)
    ensures |r| == |mem|
  {
    Wiped(Wiped(WipedPair(WipedPair(mem, k.ourCurrent), k.ourPrevious), k.theirCurrent), k.theirPrevious)
  }

  /** The cell, if there is one, holds zero. */
  ghost predicate Gone(mem: seq<nat>, n: Ref) {
    n.Some? && n.value < |mem| ==> mem[n.value] == 0
  }

  ghost predicate GonePair(mem: seq<nat>, p: PairRef) {
    Gone(mem, p.pub) && Gone(mem, p.priv)
  }

  ghost predicate GoneSlots(mem: seq<nat>, k: Slots) {
    GonePair(mem, k.ourCurrent) && GonePair(mem, k.ourPrevious) && Gone(mem, k.theirCurrent) && Gone(mem, k.theirPrevious)
  }

  ghost predicate GoneOwn(mem: seq<nat>, a: Exchange) {
    Gone(mem, a.exponent) && Gone(mem, a.ourValue) && Gone(mem, a.theirValue)
  }

  /** Memory may have grown, and every old cell kept its number or lost it. */
  ghost predicate OnlyZeroed(mem: seq<nat>, mem': seq<nat>) {
    |mem| <= |mem'| && forall i {:trigger mem[i]} :: 0 <= i < |mem| ==> mem'[i] == mem[i] || mem'[i] == 0
  }

  lemma WipedOne(mem: seq<nat>, n: Ref)
    ensures Gone(Wiped(mem, n), n) && OnlyZeroed(mem, Wiped(mem, n))
  {
  }

  lemma StillGone(mem: seq<nat>, mem': seq<nat>, n: Ref)
    requires OnlyZeroed(mem, mem') && |mem| == |mem'| && Gone(mem, n)
    ensures Gone(mem', n)
  {
  }

  lemma WipedPairGone(mem: seq<nat>, p: PairRef)
    ensures GonePair(WipedPair(mem, p), p) && OnlyZeroed(mem, WipedPair(mem, p))
  {
    hide Wiped, Gone, OnlyZeroed;
    var m1 := Wiped(mem, p.pub);
    WipedOne(mem, p.pub);
    WipedOne(m1, p.priv);
    StillGone(m1, Wiped(m1, p.priv), p.pub);
    ZeroedTrans(mem, m1, Wiped(m1, p.priv));
  }

  lemma StillGonePair(mem: seq<nat>, mem': seq<nat>, p: PairRef)
    requires OnlyZeroed(mem, mem') && |mem| == |mem'| && GonePair(mem, p)
    ensures GonePair(mem', p)
  {
    hide OnlyZeroed, Gone;
    StillGone(mem, mem', p.pub);
    StillGone(mem, mem', p.priv);
  }

  lemma WipedSlotsGone(mem: seq<nat>, k: Slots)
    ensures GoneSlots(WipedSlots(mem, k), k) && OnlyZeroed(mem, WipedSlots(mem, k))
  {
    hide Wiped, WipedPair, Gone, GonePair, OnlyZeroed;
    var m1 := WipedPair(mem, k.ourCurrent);
    var m2 := WipedPair(m1, k.ourPrevious);
    var m3 := Wiped(m2, k.theirCurrent);
    var m4 := Wiped(m3, k.theirPrevious);
    WipedPairGone(mem, k.ourCurrent);
    WipedPairGone(m1, k.ourPrevious);
    WipedOne(m2, k.theirCurrent);
    WipedOne(m3, k.theirPrevious);
    StillGone(m3, m4, k.theirCurrent);
    ZeroedTrans(m2, m3, m4);
    StillGonePair(m2, m4, k.ourPrevious);
    ZeroedTrans(m1, m2, m4);
    StillGonePair(m1, m4, k.ourCurrent);
    ZeroedTrans(mem, m1, m4);
  }

  lemma WipedOwnGone(mem: seq<nat>, a: Exchange)
    ensures GoneOwn(WipedOwn(mem, a), a) && OnlyZeroed(mem, WipedOwn(mem, a))
  {
    hide Wiped, Gone, OnlyZeroed;
    var m1 := Wiped(mem, a.exponent);
    var m2 := Wiped(m1, a.ourValue);
    var m3 := Wiped(m2, a.theirValue);
    WipedOne(mem, a.exponent);
    WipedOne(m1, a.ourValue);
    WipedOne(m2, a.theirValue);
    StillGone(m2, m3, a.ourValue);
    ZeroedTrans(m1, m2, m3);
    StillGone(m1, m3, a.exponent);
    ZeroedTrans(mem, m1, m3);
  }

  /** Every reference that is wiped leads to zero afterwards, and a wipe does nothing else. */
  lemma WipedIsGone(mem: seq<nat>, k: Slots, a: Exchange, p: PairRef)
    ensures GoneSlots(WipedSlots(mem, k), k) && GoneOwn(WipedOwn(mem, a), a) && GonePair(WipedPair(mem, p), p)
    ensures OnlyZeroed(mem, WipedSlots(mem, k)) && OnlyZeroed(mem, WipedOwn(mem, a)) && OnlyZeroed(mem, WipedPair(mem, p))
  {
    hide *;
    WipedSlotsGone(mem, k);
    WipedOwnGone(mem, a);
    WipedPairGone(mem, p);
  }

  /** New cells change nothing of that. */
  lemma GrownGone(mem: seq<nat>, mem': seq<nat>, grown: seq<nat>, p: PairRef)
    requires OnlyZeroed(mem, mem') && mem' <= grown && GonePair(mem', p) && Inside(mem', p.pub) && Inside(mem', p.priv)
    ensures OnlyZeroed(mem, grown) && GonePair(grown, p)
  {
  }

  lemma StaysGone(mem: seq<nat>, mem': seq<nat>, k: Slots, a: Exchange)
    requires OnlyZeroed(mem, mem')
    ensures OwnedIn(mem, k) && GoneSlots(mem, k) ==> GoneSlots(mem', k)
    ensures OwnedOwn(mem, a) && GoneOwn(mem, a) ==> GoneOwn(mem', a)
  {
  }

  /** The references lead into memory. */
  ghost predicate Inside(mem: seq<nat>, n: Ref) {
    n.Some? ==> n.value < |mem|
  }

  ghost predicate OwnedIn(mem: seq<nat>, k: Slots) {
    && Inside(mem, k.ourCurrent.pub) && Inside(mem, k.ourCurrent.priv) && Inside(mem, k.ourPrevious.pub)
    && Inside(mem, k.ourPrevious.priv) && Inside(mem, k.theirCurrent) && Inside(mem, k.theirPrevious)
  }

  ghost predicate OwnedOwn(mem: seq<nat>, a: Exchange) {
    Inside(mem, a.exponent) && Inside(mem, a.ourValue) && Inside(mem, a.theirValue)
  }

  lemma OwnedInside(mem: seq<nat>, owner: seq<nat>, k: Slots, base: nat, a: Exchange)
    requires |owner| == |mem|
    ensures OwnedSlots(owner, k, base) ==> OwnedIn(mem, k)
    ensures OwnedAke(owner, a) ==> OwnedOwn(mem, a) && OwnedIn(mem, a.keys)
  {
  }

  lemma StaysInside(mem: seq<nat>, mem': seq<nat>, k: Slots, a: Exchange)
    requires OnlyZeroed(mem, mem')
    ensures (OwnedIn(mem, k) ==> OwnedIn(mem', k)) && (OwnedOwn(mem, a) ==> OwnedOwn(mem', a))
  {
  }

  lemma NothingZeroed(mem: seq<nat>)
    ensures OnlyZeroed(mem, mem)
  {
  }

  lemma ZeroedTrans(m1: seq<nat>, m2: seq<nat>, m3: seq<nat>)
    requires OnlyZeroed(m1, m2) && OnlyZeroed(m2, m3)
    ensures OnlyZeroed(m1, m3)
  {
  }

  lemma SameTrans(m1: seq<nat>, m2: seq<nat>, m3: seq<nat>, o1: seq<nat>, o2: seq<nat>, o3: seq<nat>, lo: nat, hi: nat)
    requires SameCells(m1, m2, o1, o2, lo, hi) && SameCells(m2, m3, o2, o3, lo, hi)
    ensures SameCells(m1, m3, o1, o3, lo, hi)
  {
  }

  /** Wiping the slots of one owner leaves every other owner's cells alone. */
  lemma WipedSlotsElsewhere(mem: seq<nat>, owner: seq<nat>, k: Slots, base: nat, lo: nat, hi: nat)
    requires |owner| == |mem| && OwnedSlots(owner, k, base) && (base + 6 <= lo || hi <= base)
    ensures SameCells(mem, WipedSlots(mem, k), owner, owner, lo, hi)
  {
  }

  /** The three numbers of an exchange outside its slots. */
  function WipedOwn(mem: seq<nat>, a: Exchange): (r: seq<nat>)
    ensures |r| == |mem|
  {
    Wiped(Wiped(Wiped(mem, a.exponent), a.ourValue), a.theirValue)
  }

  lemma WipedOwnElsewhere(mem: seq<nat>, owner: seq<nat>, a: Exchange, hi: nat)
    requires |owner| == |mem| && OwnedAke(owner, a)
    ensures SameCells(mem, WipedOwn(mem, a), owner, owner, AKE_SLOTS, hi)
  {
  }

  // ------------------------------------------------------------ the conversation

  class Conversation {
    const setting: Setting
    const me: PublicKey
    var memory: seq<nat>
    ghost var owner: seq<nat>
    var ake: Exchange
    var keys: Slots
    var msgState: MsgState
    var sentRevealSig: bool
    var ssid: bytes
    var theirKey: Option<PublicKey>

    constructor (setting: Setting, me: PublicKey)
      requires setting.Valid()
      ensures Valid() && this.setting == setting && this.me == me
      ensures View() == Party(NewAke(), NO_SLOTS, PlainText, false, Zeros(SSID_LENGTH), None)
    {
      this.setting, this.me, memory, owner := setting, me, [], [];
      ake, keys, msgState, sentRevealSig, ssid, theirKey := NewExchange(), EMPTY, PlainText, false, Zeros(SSID_LENGTH), None;
    }

    /** Session and exchange share no cell. */
    ghost predicate Valid()
      reads this
    {
      setting.Valid() && |owner| == |memory| && OwnedAke(owner, ake) && OwnedSlots(owner, keys, SESSION_SLOTS)
    }

    ghost function View(): Party
      reads this
    {
      Party(AkeAt(memory, ake), KeysAt(memory, keys), msgState, sentRevealSig, ssid, theirKey)
    }

    /** What a step of the exchange leaves of the session: the same references, and none of its cells changed. */
    twostate predicate SessionKept()
      reads this
    {
      && keys == old(keys) && msgState == old(msgState)
      && SameCells(old(memory), memory, old(owner), owner, SESSION_SLOTS, FREED)
    }

    /** new(big.Int) */
    method Alloc(v: nat, ghost who: nat) returns (n: Ref)
      requires |owner| == |memory|
      modifies `memory, `owner
      ensures n == Some(|old(memory)|) && memory == old(memory) + [v] && owner == old(owner) + [who]
    {
      n := Some(|memory|);
      memory, owner := memory + [v], owner + [who];
    }

    /** setBigInt: the old number is wiped before the new one is copied, which only works because
        the two are different cells. */
    method SetBigInt(dst: Ref, src: Ref, ghost who: nat, ghost from: nat) returns (n: Ref)
      requires |owner| == |memory| && src.Some? && Owned(owner, dst, who) && Owned(owner, src, from) && who != from
      modifies `memory, `owner
      ensures n.Some? && Owned(owner, n, who) && ValueAt(memory, n) == ValueAt(old(memory), src)
      ensures OthersKept(old(memory), memory, old(owner), owner, who) && Gone(memory, dst)
    {
      memory := Wiped(memory, dst);
      n := Alloc(memory[src.value], who);
    }

    /** ake.wipe: with wipeKeys the cells of the slots are zeroed too, without they are only dropped. */
    method WipeAke(wipeKeys: bool)
      requires |owner| == |memory| && OwnedAke(owner, ake)
      modifies `memory, `ake
      ensures ake == NewExchange().(state := old(ake.state))
      ensures SameCells(old(memory), memory, owner, owner, if wipeKeys then SESSION_SLOTS else AKE_SLOTS, FREED)
      ensures OnlyZeroed(old(memory), memory) && GoneOwn(memory, old(ake)) && (wipeKeys ==> GoneSlots(memory, old(ake.keys)))
    {
      hide Wiped, WipedOwn, WipedSlots, SameCells, OnlyZeroed, GoneOwn, GoneSlots, Inside;
      memory := WipedOwn(memory, ake);
      WipedOwnElsewhere(old(memory), owner, ake, FREED);
      WipedIsGone(old(memory), ake.keys, ake, NO_PAIR);
      if wipeKeys {
        ghost var own := memory;
        WipedSlotsElsewhere(memory, owner, ake.keys, AKE_SLOTS, SESSION_SLOTS, FREED);
        WipedIsGone(own, ake.keys, ake, NO_PAIR);
        memory := WipedSlots(memory, ake.keys);
        FewerSame(old(memory), own, owner);
        SameTrans(old(memory), own, memory, owner, owner, owner, SESSION_SLOTS, FREED);
        OwnedInside(own, owner, ake.keys, AKE_SLOTS, ake);
        StaysGone(own, memory, ake.keys, ake);
        ZeroedTrans(old(memory), own, memory);
      }
      ake := NewExchange().(state := ake.state);
    }

    /** The old exchange is wiped, slots and all, and a new one takes its place. */
    method ReplaceAke()
      requires Valid()
      modifies `memory, `ake
      ensures Valid() && SessionKept() && ake == NewExchange()
      ensures View() == old(View()).(ake := NewAke())
      ensures GoneOwn(memory, old(ake)) && GoneSlots(memory, old(ake.keys))
    {
      hide Wiped, WipedOwn, WipedSlots;
      WipeAke(true);
      ake := NewExchange();
      SlotsKept(old(memory), memory, owner, owner, keys, SESSION_SLOTS);
    }

    /** setSecretExponent, with the wipe of the drawn number. */
    method SetSecretExponent(x: nat)
      requires Valid() && ake == NewExchange()
      modifies `memory, `owner, `ake
      ensures Valid() && SessionKept()
      ensures View() == old(View()).(ake := WithExponent(setting.group, NewAke(), x))
      ensures ake == NewExchange().(exponent := ake.exponent, ourValue := ake.ourValue)
      ensures Gone(memory, Some(|old(memory)|))     // the drawn number
    {
      hide Group.Exp, KeysAt, OwnedSlots;
      var drawn := Alloc(x, FREED);
      var exponent := Alloc(memory[drawn.value], EXPONENT);
      var value := Alloc(setting.group.Exp(G1, memory[drawn.value]), OUR_VALUE);
      ake := ake.(exponent := exponent, ourValue := value);
      memory := Wiped(memory, drawn);
      SlotsKept(old(memory), memory, old(owner), owner, keys, SESSION_SLOTS);
      EmptySlots(memory, owner);
    }

    method SendDhCommit(d: Draws) returns (crashed: bool, reply: Option<Reply>, ok: bool)
      requires Valid()
      modifies `memory, `owner, `ake
      ensures Valid() && SessionKept()
      ensures crashed <==> AkeValues.SendDhCommit(setting, old(View()), d).None?
      ensures !crashed ==> AkeValues.SendDhCommit(setting, old(View()), d) == Some(Result(View(), reply, ok))
    {
      hide Group.Exp, Mpi, Cipher, CommitBody, KeysAt, OwnedSlots;
      crashed, reply, ok := false, None, false;
      ReplaceAke();
      if d.exponent.None? {
        return;
      }
      label Replaced:
      SetSecretExponent(d.exponent.value);
      SameTrans(old(memory), old@Replaced(memory), memory, old(owner), old@Replaced(owner), owner, SESSION_SLOTS, FREED);
      if d.r.None? {
        return;
      }
      var gx := Mpi(memory[ake.ourValue.value]);
      if |gx| < AES_BLOCK {
        crashed := true;
        return;
      }
      ake := ake.(r := d.r.value, encryptedGx := Cipher(setting.crypto, d.r.value, gx));
      if !d.header {
        return;
      }
      ake := ake.(state := AwaitingDhKey);
      reply, ok := Some(Reply(TYPE_DH_COMMIT, CommitBody(setting.crypto, ake.encryptedGx, memory[ake.ourValue.value]))), true;
    }

    method AnswerCommit(msg: bytes, d: Draws) returns (reply: Option<Reply>, ok: bool)
      requires Valid()
      modifies `memory, `owner, `ake
      ensures Valid() && SessionKept()
      ensures Result(View(), reply, ok) == AkeValues.AnswerCommit(setting, old(View()), msg, d)
    {
      hide Group.Exp, Mpi, ParseCommit, KeysAt, OwnedSlots;
      reply, ok := None, false;
      ReplaceAke();
      if d.exponent.None? {
        return;
      }
      label Replaced:
      SetSecretExponent(d.exponent.value);
      SameTrans(old(memory), old@Replaced(memory), memory, old(owner), old@Replaced(owner), owner, SESSION_SLOTS, FREED);
      if !d.header {
        return;
      }
      var m := ParseCommit(msg);
      if m.None? {
        return;
      }
      ake := ake.(encryptedGx := m.value.0, hashedGx := m.value.1, state := AwaitingRevealSig);
      reply, ok := Some(Reply(TYPE_DH_KEY, Mpi(memory[ake.ourValue.value]))), true;
    }

    /** wipeAndKeepRevealKeys and wipeGX */
    method DropCommitment()
      requires Valid()
      modifies `memory, `ake
      ensures Valid() && SessionKept() && ake.ourValue == old(ake.ourValue)
      ensures View() == old(View()).(ake := old(View()).ake.(keys := WipedKept(old(View()).ake.keys), encryptedGx := [], hashedGx := []))
    {
      hide Wiped, WipedSlots, KeysAt, OwnedSlots, SameCells;
      WipedSlotsElsewhere(memory, owner, ake.keys, AKE_SLOTS, SESSION_SLOTS, FREED);
      WipedSlotsElsewhere(memory, owner, ake.keys, AKE_SLOTS, EXPONENT, AKE_SLOTS);
      OldMacsAt(memory, ake.keys);
      var kept := EMPTY.(oldMacs := Zeroed(ake.keys.oldMacs));
      memory := WipedSlots(memory, ake.keys);
      ake := ake.(keys := kept, encryptedGx := [], hashedGx := []);
      SlotsKept(old(memory), memory, owner, owner, keys, SESSION_SLOTS);
      OwnKept(old(memory), memory, owner, owner, ake);
      MacsOnly(memory, owner, kept.oldMacs);
    }

    method RepeatedCommit(msg: bytes, d: Draws) returns (reply: Option<Reply>, ok: bool)
      requires Valid() && View().ake.ourValue.Some?
      modifies `memory, `ake
      ensures Valid() && SessionKept()
      ensures Result(View(), reply, ok) == AkeValues.RepeatedCommit(setting, old(View()), msg, d)
    {
      hide Mpi, ParseCommit, KeysAt, OwnedSlots, WipedKept;
      reply, ok := None, false;
      DropCommitment();
      var m := ParseCommit(msg);
      if m.None? {
        return;
      }
      ake := ake.(encryptedGx := m.value.0, hashedGx := m.value.1);
      if d.header {
        reply, ok := Some(Reply(TYPE_DH_KEY, Mpi(memory[ake.ourValue.value]))), true;
      }
    }

    method CrossedCommit(msg: bytes, d: Draws) returns (reply: Option<Reply>, ok: bool)
      requires Valid() && View().ake.ourValue.Some?
      modifies `memory, `owner, `ake
      ensures Valid() && SessionKept()
      ensures Result(View(), reply, ok) == AkeValues.CrossedCommit(setting, old(View()), msg, d)
    {
      hide Mpi, ParseCommit, CommitBody, Above, AkeValues.AnswerCommit, KeysAt, OwnedSlots;
      reply, ok := None, false;
      var m := ParseCommit(msg);
      if m.None? {
        return;
      }
      var value := memory[ake.ourValue.value];
      if !Above(setting.crypto.sha256(Mpi(value)), m.value.1) {
        reply, ok := AnswerCommit(msg, d);
      } else if d.header {
        ake := ake.(state := AwaitingRevealSig);
        reply, ok := Some(Reply(TYPE_DH_COMMIT, CommitBody(setting.crypto, ake.encryptedGx, value))), true;
      }
    }

    method ReceiveCommit(msg: bytes, d: Draws) returns (reply: Option<Reply>, ok: bool)
      requires Valid() && Ready(View())
      modifies `memory, `owner, `ake
      ensures Valid() && SessionKept()
      ensures Result(View(), reply, ok) == AkeValues.ReceiveCommit(setting, old(View()), msg, d)
    {
      hide AkeValues.AnswerCommit, AkeValues.RepeatedCommit, AkeValues.CrossedCommit, KeysAt, OwnedAke, OwnedSlots;
      match ake.state
      case AwaitingDhKey => reply, ok := CrossedCommit(msg, d);
      case AwaitingRevealSig => reply, ok := RepeatedCommit(msg, d);
      case _ => reply, ok := AnswerCommit(msg, d);
    }

    /** calcAKEKeys of calcDHSharedSecret */
    method CalcAkeKeys()
      requires Valid() && View().ake.exponent.Some? && View().ake.theirValue.Some?
      modifies `ssid, `ake
      ensures Valid() && SessionKept() && View() == WithAkeKeys(setting, old(View()))
      ensures ake == old(ake).(revealKey := ake.revealKey, sigKey := ake.sigKey)
    {
      hide Group.Exp, AkeKeysFrom, KeysAt, OwnedSlots;
      var secret := setting.group.Exp(memory[ake.theirValue.value], memory[ake.exponent.value]);
      var (id, rk, sk) := AkeKeysFrom(setting.crypto, secret);
      ssid := id;
      ake := ake.(revealKey := rk, sigKey := sk);
    }

    /** The key id step and generateEncryptedSignature. */
    method SignUnder(k: AkeKeys, d: Draws) returns (sealed: Option<bytes>)
      requires Valid() && View().ake.ourValue.Some? && View().ake.theirValue.Some?
      modifies `ake
      ensures Valid() && SessionKept() && (View(), sealed) == Signing(setting, me, old(View()), k, d)
      ensures ake == old(ake).(keys := ake.keys)
    {
      hide SignedHash, Seal;
      var id := Inc(ake.keys.ourKeyId);
      ake := ake.(keys := ake.keys.(ourKeyId := id));
      var sig := d.sign(SignedHash(setting.crypto, k, memory[ake.ourValue.value], memory[ake.theirValue.value], me, id));
      sealed := if sig.None? then None else Some(Seal(setting.crypto, k, me, id, sig.value));
    }

    /** setTheirCurrentDHPubKey */
    method SetTheirSlot()
      requires Valid() && View().ake.theirValue.Some?
      modifies `memory, `owner, `ake
      ensures Valid() && SessionKept()
      ensures var a := old(View()).ake; View() == old(View()).(ake := a.(keys := a.keys.(theirCurrent := a.theirValue)))
    {
      hide Owned, ValueAt, OthersKept, SameCells;
      IsRef(memory, ake.theirValue);
      var their := SetBigInt(ake.keys.theirCurrent, ake.theirValue, AKE_SLOTS + 4, THEIR_VALUE);
      OthersSame(old(memory), memory, old(owner), owner, AKE_SLOTS + 4, SESSION_SLOTS, FREED);
      ExceptTheirs(old(memory), memory, old(owner), owner, ake, keys);
      ake := ake.(keys := ake.keys.(theirCurrent := their));
    }

    /** setOurCurrentDHKeys */
    method SetOurSlots()
      requires Valid() && View().ake.exponent.Some? && View().ake.ourValue.Some?
      modifies `memory, `owner, `ake
      ensures Valid() && SessionKept()
      ensures var a := old(View()).ake;
              View() == old(View()).(ake := a.(keys := a.keys.(ourCurrent := Some(KeyPair(a.ourValue.value, a.exponent.value)))))
    {
      hide Owned, ValueAt, OthersKept, SameCells;
      IsRef(memory, ake.exponent);
      IsRef(memory, ake.ourValue);
      var priv := SetBigInt(ake.keys.ourCurrent.priv, ake.exponent, AKE_SLOTS + 1, EXPONENT);
      label Half:
      OthersSame(old(memory), memory, old(owner), owner, AKE_SLOTS + 1, SESSION_SLOTS, FREED);
      ExceptPriv(old(memory), memory, old(owner), owner, ake, keys);
      var pub := SetBigInt(ake.keys.ourCurrent.pub, ake.ourValue, AKE_SLOTS, OUR_VALUE);
      OthersSame(old@Half(memory), memory, old@Half(owner), owner, AKE_SLOTS, SESSION_SLOTS, FREED);
      ExceptPub(old@Half(memory), memory, old@Half(owner), owner, ake, keys, priv);
      SameTrans(old(memory), old@Half(memory), memory, old(owner), old@Half(owner), owner, SESSION_SLOTS, FREED);
      ake := ake.(keys := ake.keys.(ourCurrent := PairRef(pub, priv)));
    }

    /** processEncryptedSig */
    method VerifySealed(k: AkeKeys, sealed: bytes, mac: bytes) returns (ok: bool)
      requires Valid() && View().ake.ourValue.Some? && View().ake.theirValue.Some?
      modifies `ake, `theirKey
      ensures Valid() && SessionKept() && (View(), ok) == Verified(setting, old(View()), k, sealed, mac)
    {
      hide AkeValues.Open;
      ok := false;
      match AkeValues.Open(setting.crypto, k, memory[ake.ourValue.value], memory[ake.theirValue.value], sealed, mac)
      case BadMac =>
      case Unsigned(key) => theirKey := key;
      case Signed(key, keyId) =>
        theirKey := Some(key);
        ake := ake.(keys := ake.keys.(theirKeyId := keyId));
        ok := true;
    }

    method StoreTheirValue(v: nat)
      requires Valid()
      modifies `memory, `owner, `ake
      ensures Valid() && SessionKept()
      ensures View() == old(View()).(ake := old(View()).ake.(theirValue := Some(v)))
    {
      hide OwnedSlots, KeysAt;
      var n := Alloc(v, THEIR_VALUE);
      SlotsKept(old(memory), memory, old(owner), owner, keys, SESSION_SLOTS);
      SlotsKept(old(memory), memory, old(owner), owner, ake.keys, AKE_SLOTS);
      ake := ake.(theirValue := n);
    }

    method ProcessRevealSig(msg: bytes) returns (ok: bool)
      requires Valid() && View().ake.exponent.Some? && View().ake.ourValue.Some?
      modifies `memory, `owner, `ake, `ssid, `theirKey
      ensures Valid() && SessionKept() && (View(), ok) == Revealed(setting, old(View()), msg)
    {
      hide ParseRevealSig, Cipher, ExtractMpi, Verified, WithAkeKeys, OwnedAke, OwnedSlots, KeysAt;
      ok := false;
      var m := ParseRevealSig(msg);
      if m.None? {
        return;
      }
      var gx := Cipher(setting.crypto, m.value.0, ake.encryptedGx);
      if setting.crypto.sha256(gx) != ake.hashedGx {
        return;
      }
      var value := ExtractMpi(gx);
      if value.Corrupt? {
        DropTheirs(owner, ake);
        ake := ake.(theirValue := None);
        return;
      }
      StoreTheirValue(value.value);
      if value.rest != [] || !setting.group.IsGroupElement(value.value) {
        return;
      }
      CalcAkeKeys();
      ok := VerifySealed(ake.revealKey, m.value.1, m.value.2);
    }

    /** revealSigMessage and what follows it. */
    method SendRevealSig(d: Draws) returns (reply: Option<Reply>, ok: bool)
      requires Valid() && View().ake.exponent.Some? && View().ake.ourValue.Some? && View().ake.theirValue.Some?
      modifies `memory, `owner, `ake, `ssid, `sentRevealSig
      ensures Valid() && SessionKept()
      ensures Result(View(), reply, ok) == RevealSignature(setting, me, old(View()), d)
    {
      hide WithAkeKeys, Signing, SigBody, OwnedAke, OwnedSlots, KeysAt, SameCells, Data;
      reply, ok := None, false;
      AkeKeysKeep(setting, View());
      CalcAkeKeys();
      SigningKeeps(setting, me, View(), ake.revealKey, d);
      var sealed := SignUnder(ake.revealKey, d);
      if sealed.None? || !d.header {
        return;
      }
      var body := Data(ake.r) + SigBody(setting.crypto, ake.revealKey, sealed.value);
      label Signed:
      SetTheirSlot();
      label Their:
      SetOurSlots();
      SameTrans(old(memory), old@Their(memory), memory, old(owner), old@Their(owner), owner, SESSION_SLOTS, FREED);
      sentRevealSig := true;
      StateOnly(memory, owner, ake, AwaitingSig(body));
      ake := ake.(state := AwaitingSig(body));
      reply, ok := Some(Reply(TYPE_REVEAL_SIG, body)), true;
    }

    method ReceiveDhKey(msg: bytes, d: Draws) returns (reply: Option<Reply>, ok: bool)
      requires Valid() && Ready(View())
      modifies `memory, `owner, `ake, `ssid, `sentRevealSig
      ensures Valid() && SessionKept()
      ensures Result(View(), reply, ok) == AkeValues.ReceiveDhKey(setting, me, old(View()), msg, d)
    {
      hide ExtractMpi, RevealSignature, OwnedAke, OwnedSlots, KeysAt, SameCells;
      CellsSame(memory, owner);
      reply, ok := None, true;
      if ake.state.NoAuth? || ake.state.AwaitingRevealSig? {
        return;
      }
      var gy := ExtractMpi(msg);
      if gy.Corrupt? || !setting.group.IsGroupElement(gy.value) {
        ok := false;
        return;
      }
      if ake.state.AwaitingSig? {
        InRange(memory, owner, ake);
        if memory[ake.theirValue.value] == gy.value {
          reply := Some(Reply(TYPE_REVEAL_SIG, ake.state.revealSig));
        }
        return;
      }
      InRange(memory, owner, ake);
      if ake.theirValue.None? {
        StoreTheirValue(gy.value);
      }
      label Stored:
      reply, ok := SendRevealSig(d);
      SameTrans(old(memory), old@Stored(memory), memory, old(owner), old@Stored(owner), owner, SESSION_SLOTS, FREED);
    }

    /** generateNewDHKeyPair on the session's slots: the previous pair is wiped, the current one moves. */
    method GenerateNewDhKeyPair(next: Option<nat>) returns (ok: bool)
      requires setting.Valid() && |owner| == |memory| && OwnedSlots(owner, keys, SESSION_SLOTS)
      modifies `memory, `owner, `keys
      ensures |owner| == |memory| && OwnedSlots(owner, keys, SESSION_SLOTS)
      ensures SameCells(old(memory), memory, old(owner), owner, EXPONENT, SESSION_SLOTS)
      ensures keys.theirCurrent == old(keys.theirCurrent) && keys.theirPrevious == old(keys.theirPrevious)
      ensures if ok then keys.ourPrevious == old(keys.ourCurrent) else keys == old(keys)
      ensures OnlyZeroed(old(memory), memory) && (ok ==> GonePair(memory, old(keys.ourPrevious)))
      ensures ok <==> next.Some?
      ensures var k := KeysAt(old(memory), old(keys));
              KeysAt(memory, keys)
              == if next.None? then k
                 else k.(ourPrevious := k.ourCurrent, ourKeyId := Inc(k.ourKeyId),
                         ourCurrent := Some(NewPair(setting.group, next.value)))
    {
      hide Group.Exp, KeysAt, OwnedSlots, OwnedIn, SameCells, OnlyZeroed, GonePair, WipedPair, MovedUp;
      if next.None? {
        NothingZeroed(memory);
        SameBelow(memory, owner);
        return false;
      }
      PreviousWiped(memory, owner, keys);
      PreviousWipedElsewhere(memory, owner, keys);
      WipedPairGone(memory, keys.ourPrevious);
      PreviousInside(memory, owner, keys);
      memory := WipedPair(memory, keys.ourPrevious);
      owner := MovedUp(owner);
      keys := keys.(ourPrevious := keys.ourCurrent);
      label Moved:
      var priv := Alloc(next.value, SESSION_SLOTS + 1);
      var pub := Alloc(setting.group.Exp(G1, next.value), SESSION_SLOTS);
      PairAdded(old@Moved(memory), memory, old@Moved(owner), owner, keys, pub, priv);
      GrownGone(old(memory), old@Moved(memory), memory, old(keys.ourPrevious));
      GrownSame(old(memory), old@Moved(memory), memory, old(owner), old@Moved(owner), owner);
      ghost var added := keys.(ourCurrent := PairRef(pub, priv));
      keys := keys.(ourCurrent := PairRef(pub, priv), ourKeyId := Inc(keys.ourKeyId));
      SlotCells(owner, added, keys);
      SlotNumbers(memory, added, keys);
      IdIs(old(memory), old(keys));
      return true;
    }

    /** akeHasFinished: the session's numbers are wiped, it takes over the cells of the exchange's
        slots, and the rest of the exchange is wiped. */
    method HasFinished(next: Option<nat>) returns (ok: bool)
      requires Valid()
      modifies `memory, `owner, `ake, `keys, `msgState
      ensures Valid() && (View(), ok) == AkeValues.HasFinished(setting, old(View()), next)
      ensures keys.theirCurrent == old(ake.keys.theirCurrent)
      ensures if ok then keys.ourPrevious == old(ake.keys.ourCurrent) else keys == old(ake.keys)
      ensures GoneSlots(memory, old(keys)) && GoneOwn(memory, old(ake))
    {
      hide WipedSlots, Wiped, KeysAt, OwnedSlots, SameCells, Group.Exp, OnlyZeroed, GoneSlots, GoneOwn, OwnedIn, OwnedOwn;
      WipedIsGone(memory, keys, ake, NO_PAIR);
      OwnedInside(memory, owner, keys, SESSION_SLOTS, ake);
      WipedSlotsElsewhere(memory, owner, keys, SESSION_SLOTS, EXPONENT, SESSION_SLOTS);
      memory := WipedSlots(memory, keys);
      AkeKept(old(memory), memory, owner, owner, ake);
      keys := ake.keys;
      label Wiped:
      WipeAke(false);
      CellsBelow(old@Wiped(memory), memory, owner);
      SlotsKept(old@Wiped(memory), memory, owner, owner, keys, AKE_SLOTS);
      HandedSlots(owner, keys);
      owner := HandedOver(owner);
      msgState := Encrypted;
      StaysInside(old(memory), old@Wiped(memory), old(keys), old(ake));
      StaysGone(old@Wiped(memory), memory, old(keys), old(ake));
      StaysInside(old@Wiped(memory), memory, old(keys), old(ake));
      label Handed:
      ok := GenerateNewDhKeyPair(next);
      StaysGone(old@Handed(memory), memory, old(keys), old(ake));
      EmptySlots(memory, owner);
    }

    /** rotateOurKeys on the session's slots: no cell of an exchange in progress changes. */
    method RotateOurKeys(recipient: uint32, rnd: Option<nat>) returns (ok: bool)
      requires Valid()
      modifies `memory, `owner, `keys
      ensures Valid() && SameCells(old(memory), memory, old(owner), owner, EXPONENT, SESSION_SLOTS)
      ensures var (k, rotated) := RotateOurs(setting.group, old(View()).keys, recipient, rnd);
              ok == rotated && View() == old(View()).(keys := k)
    {
      hide Remaining, Picked, KeysOf, Group.Exp, OwnedSlots, OwnedAke, SameCells;
      if recipient != keys.ourKeyId {
        SameBelow(memory, owner);
        return true;
      }
      var id := Dec(keys.ourKeyId);
      var gone := KeysOf(Picked(keys.macs, OursAre(id)));
      SlotCells(owner, keys, keys.(macs := Remaining(keys.macs, OursAre(id)), oldMacs := keys.oldMacs + gone));
      keys := keys.(macs := Remaining(keys.macs, OursAre(id)), oldMacs := keys.oldMacs + gone);
      ok := GenerateNewDhKeyPair(rnd);
      AkeKept(old(memory), memory, old(owner), owner, ake);
    }

    /** rotateTheirKey: the number read from the message, in a cell of its own, becomes theirs. */
    method RotateTheirKey(sender: uint32, y: nat)
      requires Valid()
      modifies `memory, `owner, `keys
      ensures Valid() && SameCells(old(memory), memory, old(owner), owner, EXPONENT, SESSION_SLOTS)
      ensures View() == old(View()).(keys := RotateTheirs(old(View()).keys, sender, y))
    {
      hide Remaining, Picked, KeysOf, OwnedSlots, OwnedAke, SameCells, KeysAt;
      SlotNumbers(memory, keys, keys);
      TheirsMoved(memory, owner, keys, y);
      TheirsDropped(memory, owner, keys, y);
      var pub := Alloc(y, FREED);
      if sender == keys.theirKeyId {
        var id := Dec(keys.theirKeyId);
        var gone := KeysOf(Picked(keys.macs, TheirsAre(id)));
        owner := MovedTheirs(owner)[pub.value := SESSION_SLOTS + 4];
        var moved := keys.(theirPrevious := keys.theirCurrent, theirCurrent := pub);
        keys := moved.(macs := Remaining(moved.macs, TheirsAre(id)), oldMacs := moved.oldMacs + gone, theirKeyId := Inc(keys.theirKeyId));
        SlotCells(owner, moved, keys);
        SlotNumbers(memory, moved, keys);
      }
      AkeKept(old(memory), memory, old(owner), owner, ake);
    }

    method ReceiveRevealSig(msg: bytes, d: Draws) returns (reply: Option<Reply>, ok: bool, ghost finished: bool)
      requires Valid() && Ready(View())
      modifies this
      ensures Valid() && (!finished ==> SessionKept())
      ensures finished <==> AkeRuns.Completes(setting, me, old(View()), AkeRuns.Deliver(TYPE_REVEAL_SIG, msg, d))
      ensures Result(View(), reply, ok) == AkeValues.ReceiveRevealSig(setting, me, old(View()), msg, d)
    {
      hide Revealed, Signing, SigBody, AkeValues.HasFinished, OwnedAke, OwnedSlots, KeysAt, SameCells;
      CellsSame(memory, owner);
      reply, ok, finished := None, true, false;
      if !ake.state.AwaitingRevealSig? {
        return;
      }
      RevealedKeeps(setting, View(), msg);
      ok := ProcessRevealSig(msg);
      if !ok {
        return;
      }
      ok := false;
      SigningKeeps(setting, me, View(), ake.sigKey, d);
      var sealed := SignUnder(ake.sigKey, d);
      if sealed.None? || !d.header {
        return;
      }
      var body := SigBody(setting.crypto, ake.sigKey, sealed.value);
      SetTheirSlot();
      SetOurSlots();
      sentRevealSig := false;
      ok := HasFinished(d.next);
      StateOnly(memory, owner, ake, NoAuth);
      ake := ake.(state := NoAuth);
      reply, finished := Some(Reply(TYPE_SIG, body)), true;
    }

    method ReceiveSig(msg: bytes, d: Draws) returns (reply: Option<Reply>, ok: bool, ghost finished: bool)
      requires Valid() && Ready(View())
      modifies this
      ensures Valid() && (!finished ==> SessionKept())
      ensures finished <==> AkeRuns.Completes(setting, me, old(View()), AkeRuns.Deliver(TYPE_SIG, msg, d))
      ensures Result(View(), reply, ok) == AkeValues.ReceiveSig(setting, old(View()), msg, d)
    {
      hide ParseSig, Verified, AkeValues.HasFinished, OwnedAke, OwnedSlots, KeysAt, SameCells;
      CellsSame(memory, owner);
      reply, ok, finished := None, true, false;
      if !ake.state.AwaitingSig? {
        return;
      }
      ok := false;
      var m := ParseSig(msg);
      if m.None? {
        return;
      }
      VerifiedKeeps(setting, View(), ake.sigKey, m.value.0, m.value.1);
      ok := VerifySealed(ake.sigKey, m.value.0, m.value.1);
      if !ok {
        return;
      }
      SetTheirSlot();
      ok := HasFinished(d.next);
      StateOnly(memory, owner, ake, NoAuth);
      ake := ake.(state := NoAuth);
      finished := true;
    }

    /** processAKE: unless the exchange finishes in this step, no cell of the live session changes. */
    method ProcessAke(msgType: byte, msg: bytes, d: Draws) returns (reply: Option<Reply>, ok: bool)
      requires Valid() && AkeRuns.Coherent(setting, View())
      modifies this
      ensures AkeRuns.Coherent(setting, View())
      ensures Valid() && (!AkeRuns.Completes(setting, me, old(View()), AkeRuns.Deliver(msgType, msg, d)) ==> SessionKept())
      ensures Result(View(), reply, ok) == AkeValues.ProcessAke(setting, me, old(View()), msgType, msg, d)
    {
      hide AkeValues.ReceiveCommit, AkeValues.ReceiveDhKey, AkeValues.ReceiveRevealSig, AkeValues.ReceiveSig;
      hide OwnedAke, OwnedSlots, AkeAt, KeysAt, SameCells, Revealed, Signing, Verified, ParseSig;
      ghost var finished := false;
      CellsSame(memory, owner);
      assert Ready(View());
      AkeRuns.StepCoherent(setting, me, View(), AkeRuns.Deliver(msgType, msg, d));
      AkeRuns.StepIsProcess(setting, me, View(), msgType, msg, d);
      hide AkeRuns.Coherent, AkeValues.ProcessAke;
      AkeRuns.DispatchIs(setting, me, View(), msgType, msg, d);
      if msgType == TYPE_DH_COMMIT {
        reply, ok := ReceiveCommit(msg, d);
      } else if msgType == TYPE_DH_KEY {
        reply, ok := ReceiveDhKey(msg, d);
      } else if msgType == TYPE_REVEAL_SIG {
        reply, ok, finished := ReceiveRevealSig(msg, d);
      } else if msgType == TYPE_SIG {
        reply, ok, finished := ReceiveSig(msg, d);
      } else {
        reply, ok := None, false;
      }
    }

    /** One turn of the conversation; `crashed` is a slice out of range, after which nothing is said. */
    method Take(t: Turn) returns (crashed: bool)
      requires Valid() && AkeRuns.Coherent(setting, View())
      modifies this
      ensures crashed <==> AkeRuns.Step(setting, me, old(View()), ActionOf(setting, old(View()), t)).None?
      ensures !crashed ==> && Valid() && AkeRuns.Coherent(setting, View())
                           && AkeRuns.Step(setting, me, old(View()), ActionOf(setting, old(View()), t)) == Some(View())
      ensures !crashed && !Touches(setting, me, old(View()), t) ==> SessionKept()
    {
      hide AkeValues.SendDhCommit, AkeValues.ProcessAke, RotateOurs, RotateTheirs, AkeRuns.Coherent, AkeRuns.Completes;
      hide OwnedAke, OwnedSlots, AkeAt, KeysAt, SameCells;
      CoherentReady(setting, View());
      AkeRuns.StepCoherent(setting, me, View(), ActionOf(setting, View(), t));
      crashed := false;
      match t {
        case Query(d) =>
          var reply, ok;
          crashed, reply, ok := SendDhCommit(d);
        case Message(msgType, msg, d) =>
          var reply, ok := ProcessAke(msgType, msg, d);
        case Ours(recipient, rnd) =>
          var ok := RotateOurKeys(recipient, rnd);
        case Theirs(sender, y) =>
          RotateTheirKey(sender, y);
      }
    }

    /** Any sequence of turns: they are the steps of the value model, and unless one of them rotates
        the session's keys or finishes an exchange no cell of the session has changed at the end. */
    method TakeAll(ts: seq<Turn>) returns (crashed: bool)
      requires Valid() && AkeRuns.Coherent(setting, View())
      modifies this
      ensures crashed <==> Taken(setting, me, old(View()), ts).None?
      ensures !crashed ==> Valid() && AkeRuns.Coherent(setting, View()) && Taken(setting, me, old(View()), ts) == Some(View())
      ensures !crashed && Untouched(setting, me, old(View()), ts) ==> SessionKept()
    {
      hide AkeRuns.Coherent, AkeRuns.Step, OwnedAke, OwnedSlots, AkeAt, KeysAt, SameCells, Touches, ActionOf;
      CellsSame(memory, owner);
      var i := 0;
      while i < |ts|
        invariant 0 <= i <= |ts| && Valid() && AkeRuns.Coherent(setting, View())
        invariant Taken(setting, me, old(View()), ts[..i]) == Some(View())
        invariant Untouched(setting, me, old(View()), ts[..i]) ==> SessionKept()
      {
        ghost var before, owners := memory, owner;
        assert ts[..i + 1][..i] == ts[..i];
        crashed := Take(ts[i]);
        if crashed {
          NothingAfterCrash(setting, me, old(View()), ts, i + 1);
          return;
        }
        if Untouched(setting, me, old(View()), ts[..i + 1]) {
          SameTrans(old(memory), before, memory, old(owner), owners, owner, SESSION_SLOTS, FREED);
        }
        i := i + 1;
      }
      assert ts[..|ts|] == ts;
      return false;
    }
  }

  /** What happens to a conversation as far as numbers in memory go. */
  datatype Turn =
    | Query(draws: Draws)
    | Message(msgType: byte, msg: bytes, draws: Draws)
    | Ours(recipient: uint32, rnd: Option<nat>)       // rotateOurKeys
    | Theirs(sender: uint32, y: nat)                  // rotateTheirKey

  ghost function ActionOf(e: Setting, c: Party, t: Turn): AkeRuns.Action
    requires e.Valid()
  {
    match t
    case Query(d) => AkeRuns.Query(d)
    case Message(msgType, msg, d) => AkeRuns.Deliver(msgType, msg, d)
    case Ours(recipient, rnd) => AkeRuns.Live(RotateOurs(e.group, c.keys, recipient, rnd).0, c.msgState)
    case Theirs(sender, y) => AkeRuns.Live(RotateTheirs(c.keys, sender, y), c.msgState)
  }

  /** The turn rotates the session's keys or finishes an exchange. */
  ghost predicate Touches(e: Setting, me: PublicKey, c: Party, t: Turn)
    requires e.Valid() && Ready(c)
  {
    t.Ours? || t.Theirs? || AkeRuns.Completes(e, me, c, ActionOf(e, c, t))
  }

  /** The value model over a sequence of turns; None once one of them panicked. */
  ghost function Taken(e: Setting, me: PublicKey, c: Party, ts: seq<Turn>): Option<Party>
    requires e.Valid()
  {
    if ts == [] then Some(c) else
    match Taken(e, me, c, ts[..|ts| - 1])
    case None => None
    case Some(c1) => AkeRuns.Step(e, me, c1, ActionOf(e, c1, ts[|ts| - 1]))
  }

  ghost predicate Untouched(e: Setting, me: PublicKey, c: Party, ts: seq<Turn>)
    requires e.Valid()
  {
    ts != [] ==>
      && Untouched(e, me, c, ts[..|ts| - 1])
      && var c1 := Taken(e, me, c, ts[..|ts| - 1]); c1.Some? && Ready(c1.value) && !Touches(e, me, c1.value, ts[|ts| - 1])
  }

  lemma {:induction false} NothingAfterCrash(e: Setting, me: PublicKey, c: Party, ts: seq<Turn>, i: nat)
    requires e.Valid() && i <= |ts| && Taken(e, me, c, ts[..i]).None?
    ensures Taken(e, me, c, ts).None?
    decreases |ts|
  {
    if i < |ts| {
      assert ts[..|ts| - 1][..i] == ts[..i];
      NothingAfterCrash(e, me, c, ts[..|ts| - 1], i);
    } else {
      assert ts[..i] == ts;
    }
  }

  lemma CoherentReady(e: Setting, c: Party)
    requires e.Valid() && AkeRuns.Coherent(e, c)
    ensures Ready(c)
  {
  }

  lemma FewerSame(mem: seq<nat>, mem': seq<nat>, owner: seq<nat>)
    requires SameCells(mem, mem', owner, owner, AKE_SLOTS, FREED)
    ensures SameCells(mem, mem', owner, owner, SESSION_SLOTS, FREED)
  {
  }

  lemma CellsSame(mem: seq<nat>, owner: seq<nat>)
    requires |owner| == |mem|
    ensures SameCells(mem, mem, owner, owner, SESSION_SLOTS, FREED)
  {
  }

  lemma CellsBelow(mem: seq<nat>, mem': seq<nat>, owner: seq<nat>)
    requires SameCells(mem, mem', owner, owner, AKE_SLOTS, FREED)
    ensures SameCells(mem, mem', owner, owner, AKE_SLOTS, AKE_SLOTS + 6)
  {
  }

  lemma InRange(mem: seq<nat>, owner: seq<nat>, a: Exchange)
    requires |owner| == |mem| && OwnedAke(owner, a)
    ensures a.theirValue.Some? ==> a.theirValue.value < |mem|
  {
  }

  lemma RevealedKeeps(e: Setting, c: Party, msg: bytes)
    requires e.Valid() && c.ake.exponent.Some? && c.ake.ourValue.Some?
    ensures var (c', ok) := Revealed(e, c, msg);
            && c'.ake.exponent == c.ake.exponent && c'.ake.ourValue == c.ake.ourValue && (ok ==> c'.ake.theirValue.Some?)
  {
    hide ParseRevealSig, Cipher, ExtractMpi, AkeValues.Open, AkeKeysFrom, Group.Exp;
  }

  lemma VerifiedKeeps(e: Setting, c: Party, k: AkeKeys, sealed: bytes, mac: bytes)
    requires e.Valid() && c.ake.ourValue.Some? && c.ake.theirValue.Some?
    ensures Verified(e, c, k, sealed, mac).0.ake.theirValue == c.ake.theirValue
  {
  }

  /** The session takes the cells of the exchange's slots; its own are free. */
  ghost function HandedOver(owner: seq<nat>): seq<nat> {
    seq(|owner|, i requires 0 <= i < |owner| => if AKE_SLOTS <= owner[i] < SESSION_SLOTS then owner[i] + 6 else FREED)
  }

  lemma HandedSlots(owner: seq<nat>, k: Slots)
    requires OwnedSlots(owner, k, AKE_SLOTS)
    ensures OwnedSlots(HandedOver(owner), k, SESSION_SLOTS)
  {
  }

  /** The current pair of the session becomes the previous one. */
  ghost function MovedUp(owner: seq<nat>): seq<nat> {
    seq(|owner|, i requires 0 <= i < |owner| =>
      if SESSION_SLOTS <= owner[i] < SESSION_SLOTS + 2 then owner[i] + 2
      else if SESSION_SLOTS + 2 <= owner[i] < SESSION_SLOTS + 4 then FREED
      else owner[i])
  }

  lemma PreviousWiped(mem: seq<nat>, owner: seq<nat>, k: Slots)
    requires |owner| == |mem| && OwnedSlots(owner, k, SESSION_SLOTS)
    ensures var mem', owner', k' := WipedPair(mem, k.ourPrevious), MovedUp(owner), k.(ourPrevious := k.ourCurrent, ourCurrent := NO_PAIR);
            && OwnedSlots(owner', k', SESSION_SLOTS)
            && KeysAt(mem', k') == KeysAt(mem, k).(ourPrevious := KeysAt(mem, k).ourCurrent, ourCurrent := None)
  {
  }

  lemma PreviousInside(mem: seq<nat>, owner: seq<nat>, k: Slots)
    requires |owner| == |mem| && OwnedSlots(owner, k, SESSION_SLOTS)
    ensures Inside(mem, k.ourPrevious.pub) && Inside(mem, k.ourPrevious.priv) && |MovedUp(owner)| == |owner|
  {
  }

  lemma GrownSame(mem: seq<nat>, mem': seq<nat>, grown: seq<nat>, owner: seq<nat>, owner': seq<nat>, owners: seq<nat>)
    requires SameCells(mem, mem', owner, owner', EXPONENT, SESSION_SLOTS) && mem' <= grown && owner' <= owners && |grown| == |owners|
    ensures SameCells(mem, grown, owner, owners, EXPONENT, SESSION_SLOTS)
  {
  }

  lemma IdIs(mem: seq<nat>, k: Slots)
    ensures var v := KeysAt(mem, k);
            && v.ourKeyId == k.ourKeyId && v.theirKeyId == k.theirKeyId
            && v.counters == k.counters && v.macs == k.macs && v.oldMacs == k.oldMacs
  {
  }

  lemma PreviousWipedElsewhere(mem: seq<nat>, owner: seq<nat>, k: Slots)
    requires |owner| == |mem| && OwnedSlots(owner, k, SESSION_SLOTS)
    ensures SameCells(mem, WipedPair(mem, k.ourPrevious), owner, MovedUp(owner), EXPONENT, SESSION_SLOTS)
  {
  }

  /** The peer's current value becomes the previous one. */
  ghost function MovedTheirs(owner: seq<nat>): seq<nat> {
    seq(|owner|, i requires 0 <= i < |owner| =>
      if owner[i] == SESSION_SLOTS + 4 then SESSION_SLOTS + 5
      else if owner[i] == SESSION_SLOTS + 5 then FREED
      else owner[i])
  }

  lemma TheirsMoved(mem: seq<nat>, owner: seq<nat>, k: Slots, y: nat)
    requires |owner| == |mem| && OwnedSlots(owner, k, SESSION_SLOTS)
    ensures var mem', owner' := mem + [y], MovedTheirs(owner + [FREED])[|mem| := SESSION_SLOTS + 4];
            var k' := k.(theirPrevious := k.theirCurrent, theirCurrent := Some(|mem|));
            && OwnedSlots(owner', k', SESSION_SLOTS) && SameCells(mem, mem', owner, owner', EXPONENT, SESSION_SLOTS)
            && KeysAt(mem', k') == KeysAt(mem, k).(theirPrevious := KeysAt(mem, k).theirCurrent, theirCurrent := Some(y))
  {
  }

  lemma TheirsDropped(mem: seq<nat>, owner: seq<nat>, k: Slots, y: nat)
    requires |owner| == |mem| && OwnedSlots(owner, k, SESSION_SLOTS)
    ensures var mem', owner' := mem + [y], owner + [FREED];
            && OwnedSlots(owner', k, SESSION_SLOTS) && SameCells(mem, mem', owner, owner', EXPONENT, SESSION_SLOTS)
            && KeysAt(mem', k) == KeysAt(mem, k)
  {
  }

  lemma SameBelow(mem: seq<nat>, owner: seq<nat>)
    requires |owner| == |mem|
    ensures SameCells(mem, mem, owner, owner, EXPONENT, SESSION_SLOTS)
  {
  }

  ghost predicate SameRefs(k: Slots, k': Slots) {
    && k.ourCurrent == k'.ourCurrent && k.ourPrevious == k'.ourPrevious
    && k.theirCurrent == k'.theirCurrent && k.theirPrevious == k'.theirPrevious
  }

  lemma SlotCells(owner: seq<nat>, k: Slots, k': Slots)
    requires SameRefs(k, k') && OwnedSlots(owner, k, SESSION_SLOTS)
    ensures OwnedSlots(owner, k', SESSION_SLOTS)
  {
  }

  /** Only the numbers are in memory: the other fields are as in the struct. */
  lemma SlotNumbers(mem: seq<nat>, k: Slots, k': Slots)
    requires SameRefs(k, k')
    ensures KeysAt(mem, k') == KeysAt(mem, k).(ourKeyId := k'.ourKeyId, theirKeyId := k'.theirKeyId,
                                               counters := k'.counters, macs := k'.macs, oldMacs := k'.oldMacs)
  {
  }

  lemma PairAdded(mem: seq<nat>, mem': seq<nat>, owner: seq<nat>, owner': seq<nat>, k: Slots, pub: Ref, priv: Ref)
    requires |owner| == |mem| && |mem'| == |mem| + 2 && |owner'| == |mem'| && mem <= mem' && owner <= owner'
    requires OwnedSlots(owner, k.(ourCurrent := NO_PAIR), SESSION_SLOTS)
    requires pub == Some(|mem| + 1) && priv == Some(|mem|) && owner'[|mem|] == SESSION_SLOTS + 1 && owner'[|mem| + 1] == SESSION_SLOTS
    ensures var k' := k.(ourCurrent := PairRef(pub, priv));
            && OwnedSlots(owner', k', SESSION_SLOTS)
            && KeysAt(mem', k') == KeysAt(mem, k.(ourCurrent := NO_PAIR)).(ourCurrent := Some(KeyPair(mem'[|mem| + 1], mem'[|mem|])))
  {
  }

  lemma StateOnly(mem: seq<nat>, owner: seq<nat>, a: Exchange, state: AuthState)
    ensures var a' := a.(state := state); AkeAt(mem, a') == AkeAt(mem, a).(state := state) && (OwnedAke(owner, a) ==> OwnedAke(owner, a'))
  {
  }

  lemma DropTheirs(owner: seq<nat>, a: Exchange)
    requires OwnedAke(owner, a)
    ensures OwnedAke(owner, a.(theirValue := None))
  {
  }

  lemma AkeKeysKeep(e: Setting, c: Party)
    requires e.Valid() && c.ake.exponent.Some? && c.ake.theirValue.Some?
    ensures var c' := WithAkeKeys(e, c);
            c'.ake.exponent == c.ake.exponent && c'.ake.ourValue == c.ake.ourValue && c'.ake.theirValue == c.ake.theirValue
  {
  }

  lemma SigningKeeps(e: Setting, me: PublicKey, c: Party, k: AkeKeys, d: Draws)
    requires e.Valid() && c.ake.ourValue.Some? && c.ake.theirValue.Some?
    ensures var c' := Signing(e, me, c, k, d).0;
            c'.ake.exponent == c.ake.exponent && c'.ake.ourValue == c.ake.ourValue && c'.ake.theirValue == c.ake.theirValue
  {
  }

  lemma IsRef(mem: seq<nat>, n: Ref)
    ensures ValueAt(mem, n).Some? ==> n.Some?
  {
  }

  /** What SetTheirSlot leaves alone. */
  lemma ExceptTheirs(mem: seq<nat>, mem': seq<nat>, owner: seq<nat>, owner': seq<nat>, a: Exchange, k: Slots)
    requires OthersKept(mem, mem', owner, owner', AKE_SLOTS + 4) && OwnedAke(owner, a) && OwnedSlots(owner, k, SESSION_SLOTS)
    ensures OwnedAke(owner', a.(keys := a.keys.(theirCurrent := None))) && OwnedSlots(owner', k, SESSION_SLOTS)
    ensures KeysAt(mem', k) == KeysAt(mem, k)
    ensures AkeAt(mem', a.(keys := a.keys.(theirCurrent := None))) == AkeAt(mem, a.(keys := a.keys.(theirCurrent := None)))
  {
  }

  lemma ExceptPriv(mem: seq<nat>, mem': seq<nat>, owner: seq<nat>, owner': seq<nat>, a: Exchange, k: Slots)
    requires OthersKept(mem, mem', owner, owner', AKE_SLOTS + 1) && OwnedAke(owner, a) && OwnedSlots(owner, k, SESSION_SLOTS)
    ensures var a0 := a.(keys := a.keys.(ourCurrent := PairRef(a.keys.ourCurrent.pub, None)));
            OwnedAke(owner', a0) && OwnedSlots(owner', k, SESSION_SLOTS) && KeysAt(mem', k) == KeysAt(mem, k)
            && AkeAt(mem', a0) == AkeAt(mem, a0)
  {
  }

  lemma ExceptPub(mem: seq<nat>, mem': seq<nat>, owner: seq<nat>, owner': seq<nat>, a: Exchange, k: Slots, priv: Ref)
    requires OthersKept(mem, mem', owner, owner', AKE_SLOTS) && OwnedSlots(owner, k, SESSION_SLOTS)
    requires OwnedAke(owner, a.(keys := a.keys.(ourCurrent := PairRef(a.keys.ourCurrent.pub, priv))))
    ensures var a0 := a.(keys := a.keys.(ourCurrent := PairRef(None, priv)));
            OwnedAke(owner', a0) && OwnedSlots(owner', k, SESSION_SLOTS) && KeysAt(mem', k) == KeysAt(mem, k)
            && AkeAt(mem', a0) == AkeAt(mem, a0) && ValueAt(mem', priv) == ValueAt(mem, priv)
  {
  }

  lemma OldMacsAt(mem: seq<nat>, k: Slots)
    ensures KeysAt(mem, k).oldMacs == k.oldMacs
  {
  }

  lemma MacsOnly(mem: seq<nat>, owner: seq<nat>, kept: seq<bytes>)
    ensures var k := EMPTY.(oldMacs := kept); KeysAt(mem, k) == NO_SLOTS.(oldMacs := kept) && OwnedSlots(owner, k, AKE_SLOTS)
  {
  }

  /** The numbers of an exchange outside its slots. */
  lemma OwnKept(mem: seq<nat>, mem': seq<nat>, owner: seq<nat>, owner': seq<nat>, a: Exchange)
    requires SameCells(mem, mem', owner, owner', EXPONENT, AKE_SLOTS)
    requires Owned(owner, a.exponent, EXPONENT) && Owned(owner, a.ourValue, OUR_VALUE) && Owned(owner, a.theirValue, THEIR_VALUE)
    ensures ValueAt(mem', a.exponent) == ValueAt(mem, a.exponent) && ValueAt(mem', a.ourValue) == ValueAt(mem, a.ourValue)
    ensures ValueAt(mem', a.theirValue) == ValueAt(mem, a.theirValue)
    ensures Owned(owner', a.exponent, EXPONENT) && Owned(owner', a.ourValue, OUR_VALUE) && Owned(owner', a.theirValue, THEIR_VALUE)
  {
  }

  lemma EmptySlots(mem: seq<nat>, owner: seq<nat>)
    ensures KeysAt(mem, EMPTY) == NO_SLOTS && OwnedSlots(owner, EMPTY, AKE_SLOTS)
  {
  }
}
