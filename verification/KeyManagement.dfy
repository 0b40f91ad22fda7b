/** Key management (key_management.go): the two latest DH keys of each side, a counter per key
    pair and the history of receiving MAC keys.  Functions over the value `Keys` say what each
    operation computes; the classes below perform them in place. */
module KeyManagement {
  import opened Wire
  import opened ModArith
  import opened DhGroup
  import opened Crypto

  datatype KeyPair = KeyPair(pub: nat, priv: nat)
  datatype MacUse = MacUse(ourKeyId: uint32, theirKeyId: uint32, key: bytes)
  datatype Counter = Counter(ourKeyId: uint32, theirKeyId: uint32, ours: uint64, theirs: uint64)

  /** keyManagementContext */
  datatype Keys = Keys(
    ourKeyId: uint32, theirKeyId: uint32,
    ourCurrent: Option<KeyPair>, ourPrevious: Option<KeyPair>,
    theirCurrent: Option<nat>, theirPrevious: Option<nat>,
    counters: seq<Counter>, macs: seq<MacUse>, oldMacs: seq<bytes>)

  // ------------------------------------------------------------ counters

  /** Where the history holds the pair; its length when it does not. */
  function IndexOf(cs: seq<Counter>, our: uint32, their: uint32): (i: nat)
    ensures i <= |cs|
    ensures i < |cs| ==> cs[i].ourKeyId == our && cs[i].theirKeyId == their
    ensures forall j :: 0 <= j < i ==> !(cs[j].ourKeyId == our && cs[j].theirKeyId == their)
  {
    if cs == [] || (cs[0].ourKeyId == our && cs[0].theirKeyId == their) then 0 else 1 + IndexOf(cs[1..], our, their)
  }

  lemma IndexUnique(cs: seq<Counter>, our: uint32, their: uint32, i: nat)
    requires i <= |cs| && (i < |cs| ==> cs[i].ourKeyId == our && cs[i].theirKeyId == their)
    requires forall j :: 0 <= j < i ==> !(cs[j].ourKeyId == our && cs[j].theirKeyId == their)
    ensures IndexOf(cs, our, their) == i
  {
  }

  /** findCounterFor: the history, with an entry for the pair. */
  function Counted(cs: seq<Counter>, our: uint32, their: uint32): seq<Counter> {
    if IndexOf(cs, our, their) < |cs| then cs else cs + [Counter(our, their, 0, 0)]
  }

  function CounterOf(cs: seq<Counter>, our: uint32, their: uint32): Counter {
    var i := IndexOf(cs, our, their);
    if i < |cs| then cs[i] else Counter(our, their, 0, 0)
  }

  function SetCounter(cs: seq<Counter>, our: uint32, their: uint32, ours: uint64, theirs: uint64): seq<Counter> {
    var i := IndexOf(cs, our, their);
    if i < |cs| then cs[i := Counter(our, their, ours, theirs)] else cs + [Counter(our, their, ours, theirs)]
  }

  ghost predicate UniquePairs(cs: seq<Counter>) {
    forall i, j :: 0 <= i < j < |cs| ==> cs[i].ourKeyId != cs[j].ourKeyId || cs[i].theirKeyId != cs[j].theirKeyId
  }

  /** Setting one pair's counters leaves one entry for it and every other pair's entry alone. */
  lemma SetCounterFrame(cs: seq<Counter>, our: uint32, their: uint32, ours: uint64, theirs: uint64, o: uint32, t: uint32)
    ensures CounterOf(SetCounter(cs, our, their, ours, theirs), o, t)
            == if o == our && t == their then Counter(our, their, ours, theirs) else CounterOf(cs, o, t)
    ensures UniquePairs(cs) ==> UniquePairs(SetCounter(cs, our, their, ours, theirs))
  {
    var cs' := SetCounter(cs, our, their, ours, theirs);
    if o == our && t == their {
      IndexUnique(cs', our, their, IndexOf(cs, our, their));
    } else if IndexOf(cs, o, t) < |cs| {
      IndexUnique(cs', o, t, IndexOf(cs, o, t));
    } else {
      IndexUnique(cs', o, t, |cs'|);
    }
  }

  lemma SetCounted(cs: seq<Counter>, our: uint32, their: uint32, ours: uint64, theirs: uint64)
    ensures IndexOf(Counted(cs, our, their), our, their) == IndexOf(cs, our, their) < |Counted(cs, our, their)|
    ensures SetCounter(cs, our, their, ours, theirs)
            == Counted(cs, our, their)[IndexOf(cs, our, their) := Counter(our, their, ours, theirs)]
  {
    IndexUnique(Counted(cs, our, their), our, their, IndexOf(cs, our, their));
  }

  // ------------------------------------------------------------ MAC key history

  function SwapDelete<T>(items: seq<T>, i: nat): (r: seq<T>)
    requires i < |items|
    ensures |r| == |items| - 1
  {
    items[i := items[|items| - 1]][..|items| - 1]
  }

  predicate Ascending(del: seq<nat>, bound: nat) {
    && (forall i, j :: 0 <= i < j < |del| ==> del[i] < del[j])
    && forall i :: 0 <= i < |del| ==> del[i] < bound
  }

  /** deleteKeysAt: from the last index down, each deleted item is replaced by the last one. */
  function SwapDeleteAll<T>(items: seq<T>, del: seq<nat>): seq<T>
    requires Ascending(del, |items|)
    decreases |del|
  {
    if del == [] then items else
    var last := |del| - 1;
    SwapDeleteAll(SwapDelete(items, del[last]), del[..last])
  }

  function Picked<T>(items: seq<T>, p: T -> bool): seq<T> {
    if items == [] then [] else
    var rest := Picked(items[..|items| - 1], p);
    if p(items[|items| - 1]) then rest + [items[|items| - 1]] else rest
  }

  function IndicesOf<T>(items: seq<T>, p: T -> bool): (del: seq<nat>)
    ensures Ascending(del, |items|)
  {
    if items == [] then [] else
    var n := |items| - 1;
    var rest := IndicesOf(items[..n], p);
    if p(items[n]) then rest + [n] else rest
  }

  function Remaining<T>(items: seq<T>, p: T -> bool): seq<T> {
    SwapDeleteAll(items, IndicesOf(items, p))
  }

  function LastFirst<T>(kept: seq<T>): seq<T> {
    if kept == [] then [] else [kept[|kept| - 1]] + kept[..|kept| - 1]
  }

  lemma SwapAway<T>(front: seq<T>, x: T, kept: seq<T>)
    ensures SwapDelete(front + [x] + kept, |front|) == front + LastFirst(kept)
    ensures multiset(LastFirst(kept)) == multiset(kept)
    ensures multiset(front + LastFirst(kept)) + multiset{x} == multiset(front + [x] + kept)
  {
    if kept == [] {
      assert front + [x] + kept == front + [x];
      assert front + LastFirst(kept) == front;
    } else {
      var last := kept[|kept| - 1];
      var init := kept[..|kept| - 1];
      assert kept == init + [last];
      assert SwapDelete(front + [x] + kept, |front|) == front + [last] + init;
      assert front + LastFirst(kept) == front + [last] + init;
    }
  }

  /** Everything after the last deleted index is an item to keep, so the swaps never lose one:
      swap deletion leaves exactly the items that do not satisfy p, each as often as before. */
  lemma {:induction false} RemainingIsComplement<T(!new)>(items: seq<T>, kept: seq<T>, p: T -> bool)
    requires forall x <- kept :: !p(x)
    ensures Ascending(IndicesOf(items, p), |items + kept|)
    ensures Partitions(SwapDeleteAll(items + kept, IndicesOf(items, p)), Picked(items, p), items + kept, p)
    decreases |items|
  {
    if items == [] {
      assert items + kept == kept;
    } else {
      hide IndicesOf, Picked, SwapDeleteAll, Partitions;
      var n := |items| - 1;
      var front, x := items[..n], items[n];
      assert items == front + [x];
      if p(x) {
        SwapAway(front, x, kept);
        assert forall y <- LastFirst(kept) :: y in kept;
        RemainingIsComplement(front, LastFirst(kept), p);
        DeleteLast(front, x, kept, p);
        PartitionExtends(front, x, kept, p, SwapDeleteAll(items + kept, IndicesOf(items, p)));
      } else {
        KeepLast(front, x, p);
        assert items + kept == front + ([x] + kept);
        RemainingIsComplement(front, [x] + kept, p);
      }
    }
  }

  /** `left` holds the items of `all` that do not satisfy p, and `picked` the others. */
  ghost predicate Partitions<T(!new)>(left: seq<T>, picked: seq<T>, all: seq<T>, p: T -> bool) {
    multiset(left) + multiset(picked) == multiset(all) && forall x <- left :: !p(x)
  }

  lemma PartitionExtends<T(!new)>(front: seq<T>, x: T, kept: seq<T>, p: T -> bool, left: seq<T>)
    requires Partitions(left, Picked(front, p), front + LastFirst(kept), p)
    ensures Partitions(left, Picked(front, p) + [x], front + [x] + kept, p)
  {
    SwapAway(front, x, kept);
    assert multiset(Picked(front, p) + [x]) == multiset(Picked(front, p)) + multiset{x};
  }

  lemma KeepLast<T>(front: seq<T>, x: T, p: T -> bool)
    requires !p(x)
    ensures IndicesOf(front + [x], p) == IndicesOf(front, p) && Picked(front + [x], p) == Picked(front, p)
  {
  }

  lemma DeleteLast<T>(front: seq<T>, x: T, kept: seq<T>, p: T -> bool)
    requires p(x)
    ensures IndicesOf(front + [x], p) == IndicesOf(front, p) + [|front|]
    ensures Picked(front + [x], p) == Picked(front, p) + [x]
    ensures Ascending(IndicesOf(front, p), |front + LastFirst(kept)|)
    ensures Ascending(IndicesOf(front + [x], p), |front + [x] + kept|)
    ensures SwapDeleteAll(front + [x] + kept, IndicesOf(front + [x], p))
            == SwapDeleteAll(front + LastFirst(kept), IndicesOf(front, p))
  {
    SwapAway(front, x, kept);
    assert (front + [x])[..|front|] == front;
    var del := IndicesOf(front + [x], p);
    assert del[..|del| - 1] == IndicesOf(front, p);
  }

  lemma RemainingCorrect<T(!new)>(items: seq<T>, p: T -> bool)
    ensures multiset(Remaining(items, p)) + multiset(Picked(items, p)) == multiset(items)
    ensures forall x <- Remaining(items, p) :: !p(x)
  {
    RemainingIsComplement(items, [], p);
    assert items + [] == items;
  }

  lemma {:induction false} PickedCorrect<T(!new)>(items: seq<T>, p: T -> bool)
    ensures forall x :: x in Picked(items, p) <==> x in items && p(x)
  {
    if items != [] {
      PickedCorrect(items[..|items| - 1], p);
      assert items == items[..|items| - 1] + [items[|items| - 1]];
    }
  }

  function KeysOf(uses: seq<MacUse>): (r: seq<bytes>)
    ensures |r| == |uses|
  {
    seq(|uses|, i requires 0 <= i < |uses| => uses[i].key)
  }

  function OursAre(id: uint32): MacUse -> bool {
    (u: MacUse) => u.ourKeyId == id
  }

  function TheirsAre(id: uint32): MacUse -> bool {
    (u: MacUse) => u.theirKeyId == id
  }

  // ------------------------------------------------------------ session keys

  datatype SessionKeys = SessionKeys(sendingAes: bytes, receivingAes: bytes,
                                     sendingMac: bytes, receivingMac: bytes, extra: bytes)

  /** The free function calculateDHSessionKeys: the larger public value is the high end. */
  function SessionKeysFrom(c: Primitives, gr: Group, priv: nat, pub: nat, theirPub: nat): SessionKeys
    requires c.Valid() && gr.p > 0
  {
    var sendByte, receiveByte := if pub > theirPub then 1 else 2, if pub > theirPub then 2 else 1;
    var secret := Mpi(gr.Exp(theirPub, priv));
    var sending := c.sha1([sendByte] + secret)[..AES_KEY_LENGTH];
    var receiving := c.sha1([receiveByte] + secret)[..AES_KEY_LENGTH];
    SessionKeys(sending, receiving, c.sha1(sending), c.sha1(receiving), c.sha256([0xFF] + secret))
  }

  ghost predicate IsKeyPair(gr: Group, k: KeyPair)
    requires gr.p > 0
  {
    k.pub == gr.Exp(G1, k.priv)
  }

  /** The pair of a drawn exponent. */
  function NewPair(gr: Group, x: nat): KeyPair
    requires gr.p > 0
  {
    KeyPair(gr.Exp(G1, x), x)
  }

  lemma SharedSecret(gr: Group, x: nat, y: nat)
    requires gr.p > 0
    ensures gr.Exp(gr.Exp(G1, x), y) == gr.Exp(gr.Exp(G1, y), x)
  {
    PowReduce(Pow(G1, x), y, gr.p);
    PowReduce(Pow(G1, y), x, gr.p);
    PowMul(G1, x, y);
    PowMul(G1, y, x);
    assert x * y == y * x;
  }

  /** Two key pairs give both sides the same extra key, and what one side sends with is what the
      other receives with, exactly when the public values differ (or the two hashes collide). */
  lemma SessionKeysAgree(c: Primitives, gr: Group, a: KeyPair, b: KeyPair)
    requires c.Valid() && gr.p > 0 && IsKeyPair(gr, a) && IsKeyPair(gr, b)
    ensures var ka, kb := SessionKeysFrom(c, gr, a.priv, a.pub, b.pub), SessionKeysFrom(c, gr, b.priv, b.pub, a.pub);
            var secret := Mpi(gr.Exp(b.pub, a.priv));
            && ka.extra == kb.extra
            && (a.pub != b.pub ==> && ka.sendingAes == kb.receivingAes && ka.sendingMac == kb.receivingMac
                                   && kb.sendingAes == ka.receivingAes && kb.sendingMac == ka.receivingMac)
            && (ka.sendingAes == kb.receivingAes <==>
                a.pub != b.pub || c.sha1([1] + secret)[..AES_KEY_LENGTH] == c.sha1([2] + secret)[..AES_KEY_LENGTH])
  {
    hide Group.Exp, Mpi;
    assert gr.Exp(b.pub, a.priv) == gr.Exp(a.pub, b.priv) by { SharedSecret(gr, b.priv, a.priv); }
  }

  /** The byte that goes in front of the shared secret for what an end sends: the end with the larger
      public value is the high one. */
  ghost function EndByte(own: nat, other: nat): byte {
    if own > other then 1 else 2
  }

  /** Two derivations give the same key exactly when end and shared secret agree, or two different texts
      of these hash alike: an AES key is the start of SHA-1 of its sender's byte and the secret, its
      MAC key is SHA-1 of it, and the extra key is SHA-256 of 0xFF and the secret. */
  lemma SessionKeysSeparate(c: Primitives, gr: Group, x: nat, pub: nat, their: nat, x': nat, pub': nat, their': nat)
    requires c.Valid() && gr.Valid()
    ensures var k, k' := SessionKeysFrom(c, gr, x, pub, their), SessionKeysFrom(c, gr, x', pub', their');
            var s, s' := gr.Exp(their, x), gr.Exp(their', x');
            var b, b' := EndByte(pub, their), EndByte(pub', their');
            && |k.sendingAes| == |k.receivingAes| == AES_KEY_LENGTH
            && (k.sendingAes == k'.sendingAes <==> (b == b' && s == s') || Alike(c, b, s, b', s'))
            && (k.receivingAes == k'.sendingAes <==> (b != b' && s == s') || Alike(c, 3 - b, s, b', s'))
            && k.sendingMac == c.sha1(k.sendingAes) && k.receivingMac == c.sha1(k.receivingAes)
            && (k.extra == k'.extra <==>
                || s == s'
                || ([0xFF] + Mpi(s) != [0xFF] + Mpi(s') && c.sha256([0xFF] + Mpi(s)) == c.sha256([0xFF] + Mpi(s'))))
  {
    hide Group.Exp, Mpi, IsPrime;
    var s, s' := gr.Exp(their, x), gr.Exp(their', x');
    var b, b' := EndByte(pub, their), EndByte(pub', their');
    PrefixedMpi(b, s, b', s', gr.p);
    PrefixedMpi(3 - b, s, b', s', gr.p);
    PrefixedMpi(0xFF, s, 0xFF, s', gr.p);
  }

  /** Two different texts whose SHA-1 values start alike. */
  ghost predicate Alike(c: Primitives, b: byte, s: nat, b': byte, s': nat)
    requires c.Valid()
  {
    && [b] + Mpi(s) != [b'] + Mpi(s')
    && c.sha1([b] + Mpi(s))[..AES_KEY_LENGTH] == c.sha1([b'] + Mpi(s'))[..AES_KEY_LENGTH]
  }

  lemma PrefixedMpi(b: byte, s: nat, b': byte, s': nat, p: nat)
    requires s < p && s' < p && |NatBytes(p)| <= 192
    ensures [b] + Mpi(s) == [b'] + Mpi(s') <==> b == b' && s == s'
  {
    NatBytesMonotone(s, p);
    NatBytesMonotone(s', p);
    hide Mpi, NatBytes;
    MpiInjective(s, s', [], []);
    assert Mpi(s) + [] == Mpi(s) && Mpi(s') + [] == Mpi(s');
    assert ([b] + Mpi(s))[0] == b && ([b'] + Mpi(s'))[0] == b';
    assert ([b] + Mpi(s))[1..] == Mpi(s) && ([b'] + Mpi(s'))[1..] == Mpi(s');
  }

  // ------------------------------------------------------------ operations on the context

  function Inc(id: uint32): uint32 {
    (id + 1) % WORD_LIMIT
  }

  function Dec(id: uint32): uint32 {
    (id - 1) % WORD_LIMIT
  }

  /** None for the key id errors (and for a slot that holds no key). */
  function PickOurs(k: Keys, id: uint32): Option<KeyPair> {
    if id == 0 || k.ourKeyId == 0 then None
    else if id == k.ourKeyId then k.ourCurrent
    else if id == Dec(k.ourKeyId) then k.ourPrevious
    else None
  }

  function PickTheirs(k: Keys, id: uint32): Option<nat> {
    if id == 0 || k.theirKeyId == 0 then None
    else if id == k.theirKeyId then k.theirCurrent
    else if id == Dec(k.theirKeyId) then k.theirPrevious
    else None
  }

  /** calculateDHSessionKeys: every derivation is recorded in the MAC key history. */
  function DeriveKeys(c: Primitives, gr: Group, k: Keys, our: uint32, their: uint32): Option<(Keys, SessionKeys)>
    requires c.Valid() && gr.p > 0
  {
    var ours, theirs := PickOurs(k, our), PickTheirs(k, their);
    if ours.None? || theirs.None? then None else
    var sk := SessionKeysFrom(c, gr, ours.value.priv, ours.value.pub, theirs.value);
    Some((k.(macs := k.macs + [MacUse(our, their, sk.receivingMac)]), sk))
  }

  /** checkMessageCounter */
  function CheckCounter(k: Keys, recipient: uint32, sender: uint32, ctr: uint64): (Keys, bool) {
    var c := CounterOf(k.counters, recipient, sender);
    if ctr <= c.theirs then (k.(counters := Counted(k.counters, recipient, sender)), false)
    else (k.(counters := SetCounter(k.counters, recipient, sender, c.ours, ctr)), true)
  }

  /** The counter a new message for this pair carries, and the history after it; a uint64 increment. */
  function TakeCounter(k: Keys, our: uint32, their: uint32): (Keys, uint64) {
    var c := CounterOf(k.counters, our, their);
    var n := if c.ours == 0 then 1 else c.ours;
    (k.(counters := SetCounter(k.counters, our, their, (n + 1) % LONG_LIMIT, c.theirs)), n)
  }

  function ForgetOurs(k: Keys, id: uint32): Keys {
    k.(macs := Remaining(k.macs, OursAre(id)), oldMacs := k.oldMacs + KeysOf(Picked(k.macs, OursAre(id))))
  }

  function ForgetTheirs(k: Keys, id: uint32): Keys {
    k.(macs := Remaining(k.macs, TheirsAre(id)), oldMacs := k.oldMacs + KeysOf(Picked(k.macs, TheirsAre(id))))
  }

  /** rotateOurKeys: the MAC keys go before the random read that may fail. */
  function RotateOurs(gr: Group, k: Keys, recipient: uint32, rnd: Option<nat>): (Keys, bool)
    requires gr.p > 0
  {
    if recipient != k.ourKeyId then (k, true) else
    var k1 := ForgetOurs(k, Dec(k.ourKeyId));
    match rnd
    case None => (k1, false)
    case Some(x) =>
      (k1.(ourPrevious := k.ourCurrent, ourCurrent := Some(NewPair(gr, x)), ourKeyId := Inc(k.ourKeyId)), true)
  }

  function RotateTheirs(k: Keys, sender: uint32, y: nat): Keys {
    if sender != k.theirKeyId then k else
    ForgetTheirs(k, Dec(k.theirKeyId)).(theirPrevious := k.theirCurrent, theirCurrent := Some(y), theirKeyId := Inc(k.theirKeyId))
  }

  // ------------------------------------------------------------ the same, in place

  class KeyPairCounter {
    const ourKeyId: uint32
    const theirKeyId: uint32
    var ourCounter: uint64
    var theirCounter: uint64

    constructor (our: uint32, their: uint32)
      ensures ourKeyId == our && theirKeyId == their && ourCounter == 0 && theirCounter == 0
    {
      ourKeyId, theirKeyId, ourCounter, theirCounter := our, their, 0, 0;
    }

    function View(): Counter
      reads this
    {
      Counter(ourKeyId, theirKeyId, ourCounter, theirCounter)
    }
  }

  /** counterHistory: callers change an entry through the object they were given.  The ghost
      `view` is the history as a value. */
  class CounterHistory {
    var counters: seq<KeyPairCounter>
    ghost var view: seq<Counter>

    constructor ()
      ensures Valid() && counters == [] && view == []
    {
      counters, view := [], [];
    }

    ghost predicate Valid()
      reads this, counters
    {
      && |view| == |counters|
      && (forall i, j :: 0 <= i < j < |counters| ==> counters[i] != counters[j])
      && forall i :: 0 <= i < |counters| ==> counters[i].View() == view[i]
    }

    method FindCounterFor(our: uint32, their: uint32) returns (c: KeyPairCounter)
      requires Valid()
      modifies this
      ensures Valid() && view == Counted(old(view), our, their)
      ensures var i := IndexOf(old(view), our, their); i < |counters| && c == counters[i]
      ensures c.View() == CounterOf(old(view), our, their)
      ensures counters == old(counters) || (fresh(c) && counters == old(counters) + [c])
    {
      for i := 0 to |counters|
        invariant counters == old(counters) && view == old(view) && Valid()
        invariant forall j :: 0 <= j < i ==> !(view[j].ourKeyId == our && view[j].theirKeyId == their)
      {
        assert counters[i].View() == view[i];
        if counters[i].ourKeyId == our && counters[i].theirKeyId == their {
          IndexUnique(view, our, their, i);
          return counters[i];
        }
      }
      IndexUnique(view, our, their, |counters|);
      c := new KeyPairCounter(our, their);
      counters, view := counters + [c], view + [Counter(our, their, 0, 0)];
    }
  }

  /** macKeyHistory */
  class MacKeyHistory {
    var items: seq<MacUse>

    constructor ()
      ensures items == []
    {
      items := [];
    }

    method DeleteKeysAt(del: seq<nat>)
      requires Ascending(del, |items|)
      modifies this
      ensures items == SwapDeleteAll(old(items), del)
    {
      var j := |del| - 1;
      assert del[..j + 1] == del;
      while j >= 0
        invariant -1 <= j < |del|
        invariant Ascending(del[..j + 1], |items|)
        invariant SwapDeleteAll(items, del[..j + 1]) == SwapDeleteAll(old(items), del)
      {
        var l := |items|;
        assert del[..j + 1][..j] == del[..j];
        items := items[del[j] := items[l - 1]][..l - 1];
        j := j - 1;
      }
    }

    method AddKeys(our: uint32, their: uint32, key: bytes)
      modifies this
      ensures items == old(items) + [MacUse(our, their, key)]
    {
      items := items + [MacUse(our, their, key)];
    }

    method ForgetMacKeysForOurKey(id: uint32) returns (ret: seq<bytes>)
      modifies this
      ensures items == Remaining(old(items), OursAre(id))
      ensures ret == KeysOf(Picked(old(items), OursAre(id)))
    {
      var del: seq<nat> := [];
      ret := [];
      for i := 0 to |items|
        invariant items == old(items)
        invariant del == IndicesOf(items[..i], OursAre(id))
        invariant ret == KeysOf(Picked(items[..i], OursAre(id)))
      {
        assert items[..i + 1][..i] == items[..i];
        if items[i].ourKeyId == id {
          ret := ret + [items[i].key];
          del := del + [i];
        }
      }
      assert items[..|items|] == items;
      DeleteKeysAt(del);
    }

    method ForgetMacKeysForTheirKey(id: uint32) returns (ret: seq<bytes>)
      modifies this
      ensures items == Remaining(old(items), TheirsAre(id))
      ensures ret == KeysOf(Picked(old(items), TheirsAre(id)))
    {
      var del: seq<nat> := [];
      ret := [];
      for i := 0 to |items|
        invariant items == old(items)
        invariant del == IndicesOf(items[..i], TheirsAre(id))
        invariant ret == KeysOf(Picked(items[..i], TheirsAre(id)))
      {
        assert items[..i + 1][..i] == items[..i];
        if items[i].theirKeyId == id {
          ret := ret + [items[i].key];
          del := del + [i];
        }
      }
      assert items[..|items|] == items;
      DeleteKeysAt(del);
    }
  }

  /** keyManagementContext, owning its two histories. */
  class KeyManagementContext {
    var ourKeyId: uint32
    var theirKeyId: uint32
    var ourCurrent: Option<KeyPair>
    var ourPrevious: Option<KeyPair>
    var theirCurrent: Option<nat>
    var theirPrevious: Option<nat>
    const counterHistory: CounterHistory
    const macKeyHistory: MacKeyHistory
    var oldMacs: seq<bytes>

    constructor ()
      ensures Valid() && fresh(counterHistory) && fresh(macKeyHistory)
      ensures View() == Keys(0, 0, None, None, None, None, [], [], [])
    {
      counterHistory := new CounterHistory();
      macKeyHistory := new MacKeyHistory();
      ourKeyId, theirKeyId, ourCurrent, ourPrevious, theirCurrent, theirPrevious := 0, 0, None, None, None, None;
      oldMacs := [];
    }

    ghost predicate Valid()
      reads counterHistory, counterHistory.counters
    {
      counterHistory.Valid()
    }

    ghost function View(): Keys
      reads this, counterHistory, macKeyHistory
    {
      Keys(ourKeyId, theirKeyId, ourCurrent, ourPrevious, theirCurrent, theirPrevious,
           counterHistory.view, macKeyHistory.items, oldMacs)
    }

    method CalculateDhSessionKeys(c: Primitives, gr: Group, our: uint32, their: uint32)
      returns (ok: bool, sk: SessionKeys)
      requires Valid() && c.Valid() && gr.p > 0
      modifies macKeyHistory
      ensures Valid()
      ensures ok <==> DeriveKeys(c, gr, old(View()), our, their).Some?
      ensures ok ==> Some((View(), sk)) == DeriveKeys(c, gr, old(View()), our, their)
      ensures !ok ==> View() == old(View())
    {
      ghost var k := View();
      if our == 0 || ourKeyId == 0 || their == 0 || theirKeyId == 0 {
        return false, SessionKeys([], [], [], [], []);
      }
      var ours := if our == ourKeyId then ourCurrent else if our == Dec(ourKeyId) then ourPrevious else None;
      var theirs := if their == theirKeyId then theirCurrent else if their == Dec(theirKeyId) then theirPrevious else None;
      if ours.None? || theirs.None? {
        return false, SessionKeys([], [], [], [], []);
      }
      ok := true;
      sk := SessionKeysFrom(c, gr, ours.value.priv, ours.value.pub, theirs.value);
      macKeyHistory.AddKeys(our, their, sk.receivingMac);
    }

    method CheckMessageCounter(recipient: uint32, sender: uint32, ctr: uint64) returns (ok: bool)
      requires Valid()
      modifies counterHistory, counterHistory.counters
      ensures Valid() && (View(), ok) == CheckCounter(old(View()), recipient, sender, ctr)
      ensures forall x <- counterHistory.counters :: x in old(counterHistory.counters) || fresh(x)
    {
      ghost var cs := counterHistory.view;
      var c := counterHistory.FindCounterFor(recipient, sender);
      if ctr <= c.theirCounter {
        return false;
      }
      c.theirCounter := ctr;
      SetCounted(cs, recipient, sender, c.ourCounter, ctr);
      counterHistory.view := SetCounter(cs, recipient, sender, c.ourCounter, ctr);
      return true;
    }

    /** The counter part of genDataMsgWithFlag. */
    method NextCounter(our: uint32, their: uint32) returns (n: uint64)
      requires Valid()
      modifies counterHistory, counterHistory.counters
      ensures Valid() && (View(), n) == TakeCounter(old(View()), our, their)
      ensures forall x <- counterHistory.counters :: x in old(counterHistory.counters) || fresh(x)
    {
      ghost var cs := counterHistory.view;
      var c := counterHistory.FindCounterFor(our, their);
      if c.ourCounter == 0 {
        c.ourCounter := 1;
      }
      n := c.ourCounter;
      c.ourCounter := (n + 1) % LONG_LIMIT;
      SetCounted(cs, our, their, c.ourCounter, c.theirCounter);
      counterHistory.view := SetCounter(cs, our, their, c.ourCounter, c.theirCounter);
    }

    method RevealMacKeys() returns (ret: seq<bytes>)
      modifies this
      ensures ret == old(oldMacs) && View() == old(View()).(oldMacs := [])
    {
      ret := oldMacs;
      oldMacs := [];
    }

    method RotateOurKeys(gr: Group, recipient: uint32, rnd: Option<nat>) returns (ok: bool)
      requires gr.p > 0
      modifies this, macKeyHistory
      ensures Valid() == old(Valid())
      ensures (View(), ok) == RotateOurs(gr, old(View()), recipient, rnd)
    {
      if recipient != ourKeyId {
        return true;
      }
      var keys := macKeyHistory.ForgetMacKeysForOurKey(Dec(ourKeyId));
      oldMacs := oldMacs + keys;
      if rnd.None? {
        return false;
      }
      ourPrevious := ourCurrent;
      ourCurrent := Some(NewPair(gr, rnd.value));
      ourKeyId := Inc(ourKeyId);
      return true;
    }

    method RotateTheirKey(sender: uint32, y: nat)
      modifies this, macKeyHistory
      ensures Valid() == old(Valid())
      ensures View() == RotateTheirs(old(View()), sender, y)
    {
      if sender == theirKeyId {
        var keys := macKeyHistory.ForgetMacKeysForTheirKey(Dec(theirKeyId));
        oldMacs := oldMacs + keys;
        theirPrevious := theirCurrent;
        theirCurrent := Some(y);
        theirKeyId := Inc(theirKeyId);
      }
    }
  }
}
