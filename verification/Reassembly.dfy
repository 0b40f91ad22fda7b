/** The receiving side of fragmentation: reading a fragment, and the context that collects pieces. */
module Reassembly {
  import opened Wire
  import opened Headers
  import opened Numerals
  import opened Fragmentation

  // ------------------------------------------------------------ reading one fragment

  /** bytes.Split with a one-byte separator. */
  function Split(b: bytes, c: byte): (r: seq<bytes>)
    ensures |r| >= 1
    decreases |b|
  {
    var i := Find(b, c);
    if i == |b| then [b] else [b[..i]] + Split(b[i + 1..], c)
  }

  lemma SplitFirst(x: bytes, c: byte, rest: bytes)
    requires c !in x
    ensures Split(x + [c] + rest, c) == [x] + Split(rest, c)
  {
    var b := x + [c] + rest;
    FindUnique(b, c, |x|);
    assert b[..|x|] == x && b[|x| + 1..] == rest;
  }

  lemma SplitWhole(x: bytes, c: byte)
    requires c !in x
    ensures Split(x, c) == [x]
  {
  }

  /** parseFragment: exactly four parts, the first two numbers cut down to uint16. */
  function ParseNumbers(b: bytes): Option<(uint16, uint16, bytes)> {
    var parts := Split(b, COMMA);
    if |parts| != 4 then None else
    var ix, total := ParseInt(parts[0], 10), ParseInt(parts[1], 10);
    if ix.None? || total.None? then None else Some((ix.value % SHORT_LIMIT, total.value % SHORT_LIMIT, parts[2]))
  }

  datatype PrefixParse = Malformed | OtherOne | Body(rest: bytes)

  /** parseFragmentPrefix of both versions. */
  function ParsePrefix(v: Version, t: Tags, b: bytes): (Tags, PrefixParse) {
    match v
    case V2 => if |b| < |V2_MARK| then (t, Malformed) else (t, Body(b[|V2_MARK|..]))
    case V3 =>
      if |b| < V3_TAGS then (t, Malformed) else
      var parts := Split(Split(b[..V3_TAGS], COMMA)[0], BAR);
      if |parts| < 3 then (t, Malformed) else
      var sender, receiver := ParseInt(parts[1], 16), ParseInt(parts[2], 16);
      if sender.None? || receiver.None? then (t, Malformed) else
      match VerifyTags(t, sender.value % WORD_LIMIT, receiver.value % WORD_LIMIT)
      case (t1, Invalid) => (t1, Malformed)
      case (t1, OtherInstance) => (t1, OtherOne)
      case (t1, Matching) => (t1, Body(b[V3_TAGS..]))
  }

  datatype Heard = Broken | Elsewhere | Heard(ix: uint16, total: uint16, data: bytes)

  function Hear(v: Version, t: Tags, b: bytes): (Tags, Heard) {
    match ParsePrefix(v, t, b)
    case (t1, Malformed) => (t1, Broken)
    case (t1, OtherOne) => (t1, Elsewhere)
    case (t1, Body(rest)) =>
      (t1, match ParseNumbers(rest) case None => Broken case Some((ix, total, data)) => Heard(ix, total, data))
  }

  // ------------------------------------------------------------ the context

  datatype Context = Context(frag: bytes, index: uint16, total: uint16)

  const EMPTY := Context([], 0, 0)

  /** fragmentsFinished */
  predicate Finished(c: Context) {
    c.index > 0 && c.index == c.total
  }

  /** What is handed on for decoding after a fragment. */
  ghost function Whole(c: Context): Option<bytes> {
    if Finished(c) then Some(c.frag) else None
  }

  /** fragmentIsInvalid, negated. */
  predicate ValidNumbers(h: Heard) {
    h.Heard? && h.ix != 0 && h.total != 0 && h.ix <= h.total
  }

  /** receiveFragment, and whether it reported an error. */
  function Receive(v: Version, t: Tags, c: Context, b: bytes): (Tags, Context, bool) {
    match Hear(v, t, b)
    case (t1, Elsewhere) => (t1, c, true)
    case (t1, Broken) => (t1, c, false)
    case (t1, h) =>
      if !ValidNumbers(h) then (t1, c, true)
      else if h.ix == 1 then (t1, Context(h.data, h.ix, h.total), true)
      else if (c.index + 1) % SHORT_LIMIT == h.ix && c.total == h.total then (t1, Context(c.frag + h.data, h.ix, h.total), true)
      else (t1, EMPTY, true)
  }

  /** The receiver's fields that fragments change. */
  class Receiver {
    const version: Version
    var tags: Tags
    var context: Context

    constructor (version: Version, tags: Tags)
      ensures this.version == version && this.tags == tags && context == EMPTY
    {
      this.version, this.tags, context := version, tags, EMPTY;
    }

    /** One fragment, and the whole message if it is the last piece: receiveUnit on a fragment. */
    method ReceiveFragment(b: bytes) returns (ok: bool, whole: Option<bytes>)
      modifies this
      ensures (tags, context, ok) == Receive(version, old(tags), old(context), b)
      ensures whole == Whole(context)
    {
      var (t1, h) := Hear(version, tags, b);
      tags, ok := t1, true;
      match h {
        case Broken => ok := false;
        case Elsewhere =>
        case Heard(ix, total, data) =>
          if ix == 0 || total == 0 || ix > total {
          } else if ix == 1 {
            context := Context(data, ix, total);
          } else if (context.index + 1) % SHORT_LIMIT == ix && context.total == total {
            context := Context(context.frag + data, ix, total);
          } else {
            context := EMPTY;
          }
      }
      whole := if context.index > 0 && context.index == context.total then Some(context.frag) else None;
    }
  }

  // ------------------------------------------------------------ any sequence of fragments

  /** The state after a sequence of fragments. */
  ghost function Feed(v: Version, t: Tags, c: Context, bs: seq<bytes>): (Tags, Context) {
    if bs == [] then (t, c) else
    var (t1, c1) := Feed(v, t, c, bs[..|bs| - 1]);
    var (t2, c2, _) := Receive(v, t1, c1, bs[|bs| - 1]);
    (t2, c2)
  }

  /** The pieces among them: what is well formed, for this instance and has valid numbers. */
  ghost function Pieces(v: Version, t: Tags, bs: seq<bytes>): (Tags, seq<Heard>) {
    if bs == [] then (t, []) else
    var (t1, ps) := Pieces(v, t, bs[..|bs| - 1]);
    var (t2, h) := Hear(v, t1, bs[|bs| - 1]);
    (t2, if ValidNumbers(h) then ps + [h] else ps)
  }

  /** From position s on the pieces are numbers 1, 2, 3 ... of one total. */
  ghost predicate Unbroken(ps: seq<Heard>, s: nat) {
    s < |ps| && forall j :: s <= j < |ps| ==> ps[j].Heard? && ps[s].Heard? && ps[j].ix == j - s + 1 && ps[j].total == ps[s].total
  }

  ghost function Joined(ps: seq<Heard>): bytes {
    if ps == [] then [] else Joined(ps[..|ps| - 1]) + (if ps[|ps| - 1].Heard? then ps[|ps| - 1].data else [])
  }

  ghost predicate HasRun(ps: seq<Heard>) {
    exists s: nat :: Unbroken(ps, s)
  }

  /** The context is the run from s on, joined. */
  ghost predicate Holds(c: Context, ps: seq<Heard>, s: nat) {
    Unbroken(ps, s) && c.frag == Joined(ps[s..]) && c.index == |ps| - s && c.total == ps[s].total
  }

  /** The context holds the latest unbroken run of pieces, joined; without one it is empty. */
  ghost predicate HoldsRun(c: Context, ps: seq<Heard>) {
    if HasRun(ps) then exists s: nat :: Holds(c, ps, s) else c == EMPTY
  }

  /** There is at most one such run. */
  lemma RunUnique(ps: seq<Heard>, s: nat, s': nat)
    requires Unbroken(ps, s) && Unbroken(ps, s')
    ensures s == s'
  {
    assert ps[s].ix == 1 && ps[s'].ix == 1;
  }

  /** The context change of one piece. */
  function Added(c: Context, h: Heard): Context
    requires h.Heard?
  {
    if h.ix == 1 then Context(h.data, h.ix, h.total)
    else if (c.index + 1) % SHORT_LIMIT == h.ix && c.total == h.total then Context(c.frag + h.data, h.ix, h.total)
    else EMPTY
  }

  lemma UnbrokenExtends(ps: seq<Heard>, h: Heard, s: nat)
    requires h.Heard?
    ensures Unbroken(ps + [h], s) <==> (s == |ps| && h.ix == 1) || (Unbroken(ps, s) && h.ix == |ps| - s + 1 && h.total == ps[s].total)
  {
    var qs := ps + [h];
    assert qs[|ps|] == h;
    forall j | 0 <= j < |ps|
      ensures qs[j] == ps[j]
    {
    }
    if Unbroken(qs, s) && s < |ps| {
      assert qs[s] == ps[s] && h.ix == |ps| - s + 1 && h.total == ps[s].total;
    }
  }

  lemma JoinedExtends(ps: seq<Heard>, h: Heard, s: nat)
    requires h.Heard? && s <= |ps|
    ensures Joined((ps + [h])[s..]) == Joined(ps[s..]) + h.data
  {
    var qs := (ps + [h])[s..];
    assert qs == ps[s..] + [h] && qs[..|qs| - 1] == ps[s..];
  }

  lemma PieceHolds(c: Context, ps: seq<Heard>, h: Heard)
    requires HoldsRun(c, ps) && ValidNumbers(h)
    ensures HoldsRun(Added(c, h), ps + [h])
  {
    hide Joined, Unbroken;
    var qs, c' := ps + [h], Added(c, h);
    if h.ix == 1 {
      UnbrokenExtends(ps, h, |ps|);
      JoinedExtends(ps, h, |ps|);
      NothingJoined(ps);
      assert Holds(c', qs, |ps|);
    } else if s: nat :| Holds(c, ps, s) {
      UnbrokenIn(ps, s);
      JoinedExtends(ps, h, s);
      UnbrokenExtends(ps, h, s);
      if Unbroken(qs, s) {
        assert Holds(c', qs, s);
      } else {
        NoRunAfter(ps, h, s);
      }
    } else {
      forall s: nat
        ensures !Unbroken(qs, s)
      {
        UnbrokenExtends(ps, h, s);
      }
    }
  }

  lemma UnbrokenIn(ps: seq<Heard>, s: nat)
    requires Unbroken(ps, s)
    ensures s < |ps| && ps[s].Heard? && |ps| - s < SHORT_LIMIT
  {
    assert ps[|ps| - 1].ix == |ps| - s;
  }

  lemma NothingJoined(ps: seq<Heard>)
    ensures Joined(ps[|ps|..]) == []
  {
  }

  lemma NoRunAfter(ps: seq<Heard>, h: Heard, s: nat)
    requires h.Heard? && h.ix != 1 && Unbroken(ps, s) && !Unbroken(ps + [h], s)
    ensures !HasRun(ps + [h])
  {
    hide Unbroken;
    forall s': nat
      ensures !Unbroken(ps + [h], s')
    {
      UnbrokenExtends(ps, h, s');
      if Unbroken(ps, s') {
        RunUnique(ps, s, s');
      }
    }
  }

  lemma ReceiveAdds(v: Version, t: Tags, c: Context, b: bytes)
    ensures var (t1, h) := Hear(v, t, b);
            var (t2, c', _) := Receive(v, t, c, b);
            t2 == t1 && c' == if ValidNumbers(h) then Added(c, h) else c
  {
  }

  /** After any fragments at all, from the empty context. */
  lemma {:induction false} Reassembles(v: Version, t: Tags, bs: seq<bytes>)
    ensures Feed(v, t, EMPTY, bs).0 == Pieces(v, t, bs).0
    ensures HoldsRun(Feed(v, t, EMPTY, bs).1, Pieces(v, t, bs).1)
  {
    if bs == [] {
      assert !HasRun([]);
    } else {
      hide Hear, Receive, HoldsRun, Added, ValidNumbers;
      var n := |bs| - 1;
      Reassembles(v, t, bs[..n]);
      var (t1, c1) := Feed(v, t, EMPTY, bs[..n]);
      ReceiveAdds(v, t1, c1, bs[n]);
      var h := Hear(v, t1, bs[n]).1;
      if ValidNumbers(h) {
        PieceHolds(c1, Pieces(v, t, bs[..n]).1, h);
      }
    }
  }

  // ------------------------------------------------------------ the round trip

  /** The receiver knows the sender's instance tag and the fragments are for it. */
  ghost predicate Matches(v: Version, t: Tags, sender: Tags) {
    v.V3? ==> VerifyTags(t, sender.ours, sender.theirs) == (t, Matching)
  }

  lemma TagsStay(v: Version, t: Tags, sender: Tags, b: bytes)
    requires Matches(v, t, sender)
    ensures Hear(v, t, b).0 == t
  {
  }

  lemma FormattedField(n: nat, base: nat, width: nat)
    requires (base == 10 || base == 16) && n < INT_LIMIT
    ensures var b := Padded(Numeral(n, base, LOWER_A), width); ParseInt(b, base) == Some(n) && COMMA !in b && BAR !in b
  {
    FormattedReads(n, base, LOWER_A, width);
    var b := Padded(Numeral(n, base, LOWER_A), width);
    assert !IsDigit(COMMA, base) && !IsDigit(BAR, base);
  }

  lemma {:induction false} SplitMore(x: bytes, c: byte)
    ensures |Split(x + [c], c)| >= 2 && (c in x ==> |Split(x + [c], c)| >= 3)
    decreases |x|
  {
    var i := Find(x + [c], c);
    if i < |x| {
      assert (x + [c])[i + 1..] == x[i + 1..] + [c];
      SplitMore(x[i + 1..], c);
    } else {
      assert (x + [c])[|x|] == c;
      assert forall j :: 0 <= j < |x| ==> (x + [c])[j] == x[j];
    }
  }

  lemma NumbersRead(i: nat, total: nat, piece: bytes)
    requires i < total < SHORT_LIMIT
    ensures ParseNumbers(Numbers(i, total) + piece + [COMMA]) == if COMMA in piece then None else Some((i + 1, total, piece))
  {
    hide Split, ParseInt, Dec5;
    var a, b := Dec5(i + 1), Dec5(total);
    Dec5Reads(i + 1);
    Dec5Reads(total);
    var tail := piece + [COMMA];
    assert Numbers(i, total) + piece + [COMMA] == a + [COMMA] + (b + [COMMA] + tail);
    SplitFirst(a, COMMA, b + [COMMA] + tail);
    SplitFirst(b, COMMA, tail);
    if COMMA in piece {
      SplitMore(piece, COMMA);
    } else {
      assert tail == piece + [COMMA] + [];
      SplitFirst(piece, COMMA, []);
      SplitWhole([], COMMA);
      SmallMod(i + 1);
      SmallMod(total);
    }
  }

  lemma Dec5Reads(n: nat)
    requires n < INT_LIMIT
    ensures ParseInt(Dec5(n), 10) == Some(n) && COMMA !in Dec5(n)
  {
    FormattedField(n, 10, 5);
  }

  lemma TagsRead(t: Tags, rest: bytes)
    ensures var b := V3_MARK + Hex8(t.ours) + [BAR] + Hex8(t.theirs) + [COMMA] + rest;
            && |b| >= V3_TAGS && b[V3_TAGS..] == rest
            && var parts := Split(Split(b[..V3_TAGS], COMMA)[0], BAR);
               |parts| == 3 && ParseInt(parts[1], 16) == Some(t.ours) && ParseInt(parts[2], 16) == Some(t.theirs)
  {
    var x, y := Hex8(t.ours), Hex8(t.theirs);
    FormattedField(t.ours, 16, 8);
    FormattedField(t.theirs, 16, 8);
    Hex8Length(t.ours);
    Hex8Length(t.theirs);
    hide Split, ParseInt, Hex8;
    var b := V3_MARK + x + [BAR] + y + [COMMA] + rest;
    var head := V3_MARK + x + [BAR] + y;
    assert b[..V3_TAGS] == head + [COMMA] + [] && b[V3_TAGS..] == rest;
    assert COMMA !in head;
    SplitFirst(head, COMMA, []);
    var mark := V3_MARK[..4];
    assert head == mark + [BAR] + (x + [BAR] + y);
    SplitFirst(mark, BAR, x + [BAR] + y);
    SplitFirst(x, BAR, y);
    SplitWhole(y, BAR);
  }

  /** Whoever hears a fragment: one with invalid tags is broken, one for another instance passed over,
      and any other heard as the piece it was made from, unless a comma in it spoils the reading. */
  lemma HonestHeard(v: Version, t: Tags, sender: Tags, i: nat, total: nat, piece: bytes)
    requires i < total < SHORT_LIMIT
    ensures var (t1, check) := if v.V2? then (t, Matching) else VerifyTags(t, sender.ours, sender.theirs);
            Hear(v, t, Enveloped(v, sender, i, total, piece))
            == (t1, match check
                    case Invalid => Broken
                    case OtherInstance => Elsewhere
                    case Matching => if COMMA in piece then Broken else Heard(i + 1, total, piece))
  {
    hide Split, ParseInt, ParseNumbers, Numbers, Hex8;
    NumbersRead(i, total, piece);
    var rest := Numbers(i, total) + piece + [COMMA];
    match v
    case V2 =>
      assert Enveloped(v, sender, i, total, piece) == V2_MARK + rest;
    case V3 =>
      TagsRead(sender, rest);
      assert Enveloped(v, sender, i, total, piece)
             == V3_MARK + Hex8(sender.ours) + [BAR] + Hex8(sender.theirs) + [COMMA] + rest;
  }

  /** A fragment that is broken, for another instance, or has invalid numbers. */
  ghost predicate Noise(v: Version, t: Tags, b: bytes) {
    !ValidNumbers(Hear(v, t, b).1)
  }

  /** The fragments fs, in order, with any noise before, between and after them. */
  ghost predicate Interleaved(v: Version, t: Tags, bs: seq<bytes>, fs: seq<bytes>)
    decreases |bs|
  {
    if bs == [] then fs == [] else
    var init, last := bs[..|bs| - 1], bs[|bs| - 1];
    || (Noise(v, t, last) && Interleaved(v, t, init, fs))
    || (fs != [] && last == fs[|fs| - 1] && Interleaved(v, t, init, fs[..|fs| - 1]))
  }

  /** What the first k fragments of a message say. */
  ghost function Sent(data: bytes, size: nat, k: nat, total: uint16): seq<Heard>
    requires size > 0 && k <= Count(data, size) && k < SHORT_LIMIT
  {
    seq(k, i requires 0 <= i < k => Heard(i + 1, total, Stretch(data, size, i)))
  }

  ghost function Stretch(data: bytes, size: nat, i: nat): bytes
    requires size > 0 && i < Count(data, size)
  {
    StretchIn(data, size, i);
    data[i * size..Min((i + 1) * size, |data|)]
  }

  lemma StretchOf(data: bytes, size: nat, i: nat)
    requires size > 0 && i < Count(data, size)
    ensures forall c <- Stretch(data, size, i) :: c in data
  {
  }

  lemma StretchIn(data: bytes, size: nat, i: nat)
    requires size > 0 && i < Count(data, size)
    ensures 0 <= i * size <= Min((i + 1) * size, |data|)
  {
    TimesDivides(|data|, size);
    TimesMonotone(i, |data| / size, size);
    TimesMonotone(i, i + 1, size);
  }

  /** A message that is cut into more than one piece, and its fragments. */
  ghost predicate Cut(v: Version, sender: Tags, data: bytes, fraglen: uint16, size: uint16, fs: seq<bytes>) {
    0 < fraglen < |data| && size == RoomFor(v, sender, fraglen) > 0 && Fragmented(v, sender, data, fraglen) == Some(fs)
  }

  lemma CutPieces(v: Version, t: Tags, sender: Tags, data: bytes, fraglen: uint16, size: uint16, fs: seq<bytes>, i: nat)
    requires Cut(v, sender, data, fraglen, size, fs) && Matches(v, t, sender) && i < |fs|
    ensures |fs| == Count(data, size) < SHORT_LIMIT
    ensures var piece := Stretch(data, size, i);
            Hear(v, t, fs[i]) == (t, if COMMA in piece then Broken else Heard(i + 1, |fs|, piece))
  {
    hide Hear, Enveloped, RoomFor;
    CutsExactly(v, sender, data, fraglen);
    CountBound(data, size);
    PieceInRange(data, i, size);
    HonestHeard(v, t, sender, i, Count(data, size), Stretch(data, size, i));
  }

  lemma CutCount(v: Version, sender: Tags, data: bytes, fraglen: uint16, size: uint16, fs: seq<bytes>)
    requires Cut(v, sender, data, fraglen, size, fs)
    ensures size > 0 && 1 <= |fs| == Count(data, size) < SHORT_LIMIT
  {
    hide Enveloped, RoomFor, Piece;
    CutsExactly(v, sender, data, fraglen);
    CountBound(data, size);
  }

  lemma {:induction false} InterleavedPieces(v: Version, t: Tags, sender: Tags, data: bytes, fraglen: uint16, size: uint16,
                                             fs: seq<bytes>, bs: seq<bytes>, k: nat)
    requires Cut(v, sender, data, fraglen, size, fs) && Matches(v, t, sender) && k <= |fs| && Interleaved(v, t, bs, fs[..k])
    requires COMMA !in data
    ensures |fs| == Count(data, size) < SHORT_LIMIT
    ensures Pieces(v, t, bs) == (t, Sent(data, size, k, |fs|))
    decreases |bs|
  {
    hide Hear, Cut, Matches, Stretch;
    CutCount(v, sender, data, fraglen, size, fs);
    if bs != [] {
      var init, last := bs[..|bs| - 1], bs[|bs| - 1];
      TagsStay(v, t, sender, last);
      if Noise(v, t, last) && Interleaved(v, t, init, fs[..k]) {
        InterleavedPieces(v, t, sender, data, fraglen, size, fs, init, k);
      } else {
        assert fs[..k][..k - 1] == fs[..k - 1];
        InterleavedPieces(v, t, sender, data, fraglen, size, fs, init, k - 1);
        CutPieces(v, t, sender, data, fraglen, size, fs, k - 1);
        StretchOf(data, size, k - 1);
        assert Sent(data, size, k, |fs|) == Sent(data, size, k - 1, |fs|) + [Heard(k, |fs|, Stretch(data, size, k - 1))];
      }
    } else {
      assert |fs[..k]| == k == 0;
      assert Sent(data, size, k, |fs|) == [];
    }
  }

  /** Before the first piece the old context stays; from a piece number 1 on it does not matter. */
  lemma {:induction false} FeedForgets(v: Version, t: Tags, c: Context, bs: seq<bytes>)
    ensures Feed(v, t, c, bs).0 == Pieces(v, t, bs).0
    ensures var ps := Pieces(v, t, bs).1;
            && (ps == [] ==> Feed(v, t, c, bs).1 == c)
            && (ps != [] && ps[0].Heard? && ps[0].ix == 1 ==> Feed(v, t, c, bs).1 == Feed(v, t, EMPTY, bs).1)
    decreases |bs|
  {
    if bs != [] {
      hide Hear, Receive, ValidNumbers;
      var n := |bs| - 1;
      FeedForgets(v, t, c, bs[..n]);
      FeedForgets(v, t, EMPTY, bs[..n]);
      var (t1, c1) := Feed(v, t, c, bs[..n]);
      var (_, e1) := Feed(v, t, EMPTY, bs[..n]);
      ReceiveAdds(v, t1, c1, bs[n]);
      ReceiveAdds(v, t1, e1, bs[n]);
    }
  }

  lemma {:induction false} SentJoins(data: bytes, size: nat, k: nat, total: uint16)
    requires size > 0 && k <= Count(data, size) && k < SHORT_LIMIT
    ensures Joined(Sent(data, size, k, total)) == data[..Min(k * size, |data|)]
  {
    if k > 0 {
      var ps := Sent(data, size, k, total);
      assert ps[..k - 1] == Sent(data, size, k - 1, total);
      SentJoins(data, size, k - 1, total);
      StretchIn(data, size, k - 1);
      assert (k - 1 + 1) * size == k * size;
    }
  }

  lemma SentUnbroken(data: bytes, size: nat, k: nat, total: uint16)
    requires size > 0 && 0 < k <= Count(data, size) && k < SHORT_LIMIT
    ensures Unbroken(Sent(data, size, k, total), 0)
  {
  }

  /** The fragments of a comma-free message, with any noise among them, in any prior state of the
      receiver: after k of them the context holds the first k stretches, and it is finished, with
      the whole message, exactly when k is their number (or, for k = 0, when it was before). */
  lemma RoundTrip(v: Version, t: Tags, sender: Tags, data: bytes, fraglen: uint16, size: uint16,
                  fs: seq<bytes>, c: Context, bs: seq<bytes>, k: nat)
    requires Cut(v, sender, data, fraglen, size, fs) && Matches(v, t, sender) && k <= |fs| && Interleaved(v, t, bs, fs[..k])
    requires COMMA !in data
    ensures var (t', c') := Feed(v, t, c, bs);
            && t' == t
            && (k == 0 ==> c' == c)
            && (k > 0 ==> c'.frag == data[..Min(k * size, |data|)] && c'.index == k && c'.total == |fs|)
            && (Finished(c') <==> k == |fs| || (k == 0 && Finished(c)))
            && (k == |fs| ==> c'.frag == data)
  {
    CutCount(v, sender, data, fraglen, size, fs);
    TimesDivides(|data|, size);
    hide Hear, Cut, Matches, Stretch, Joined, Interleaved, Feed, Pieces, Unbroken;
    InterleavedPieces(v, t, sender, data, fraglen, size, fs, bs, k);
    FeedForgets(v, t, c, bs);
    if k > 0 {
      var ps := Sent(data, size, k, |fs|);
      Reassembles(v, t, bs);
      SentUnbroken(data, size, k, |fs|);
      var s: nat :| Holds(Feed(v, t, EMPTY, bs).1, ps, s);
      RunUnique(ps, 0, s);
      assert ps[0..] == ps;
      SentJoins(data, size, k, |fs|);
    }
  }

  lemma {:induction false} PiecesOfPrefix(v: Version, t: Tags, sender: Tags, data: bytes, fraglen: uint16, size: uint16,
                                          fs: seq<bytes>, k: nat, i: nat)
    requires Cut(v, sender, data, fraglen, size, fs) && Matches(v, t, sender) && k <= |fs| && i < |fs|
    ensures size > 0 && |fs| == Count(data, size)
    ensures var (t', ps) := Pieces(v, t, fs[..k]);
            && t' == t && |ps| <= k && (forall p <- ps :: p.Heard? && p.total == |fs|)
            && (i < k && COMMA in Stretch(data, size, i) ==> |ps| < k)
    decreases k
  {
    hide Hear, Cut, Matches, Stretch;
    CutCount(v, sender, data, fraglen, size, fs);
    if k > 0 {
      assert fs[..k][..k - 1] == fs[..k - 1];
      PiecesOfPrefix(v, t, sender, data, fraglen, size, fs, k - 1, i);
      CutPieces(v, t, sender, data, fraglen, size, fs, k - 1);
    }
  }

  lemma CommaSomewhere(data: bytes, size: nat) returns (i: nat)
    requires size > 0 && COMMA in data
    ensures i < Count(data, size) && COMMA in Stretch(data, size, i)
  {
    var x :| 0 <= x < |data| && data[x] == COMMA;
    i := x / size;
    TimesDivides(x, size);
    TimesDivides(|data|, size);
    if |data| / size < i {
      TimesMonotone(|data| / size + 1, i, size);
    }
    StretchIn(data, size, i);
    var start, end := i * size, Min((i + 1) * size, |data|);
    assert start <= x < end;
    assert data[start..end][x - start] == data[x];
    assert Stretch(data, size, i) == data[start..end];
  }

  /** Delivered in order to an empty context, the fragments complete the message exactly when it
      holds no comma. */
  lemma CompletesWithoutComma(v: Version, t: Tags, sender: Tags, data: bytes, fraglen: uint16, size: uint16, fs: seq<bytes>)
    requires Cut(v, sender, data, fraglen, size, fs) && Matches(v, t, sender)
    ensures Finished(Feed(v, t, EMPTY, fs).1) <==> COMMA !in data
  {
    CutCount(v, sender, data, fraglen, size, fs);
    assert fs[..|fs|] == fs;
    if COMMA in data {
      var i := CommaSomewhere(data, size);
      hide Cut, Stretch, Joined, Feed, Pieces;
      PiecesOfPrefix(v, t, sender, data, fraglen, size, fs, |fs|, i);
      Reassembles(v, t, fs);
    } else {
      hide Cut, Feed, Matches;
      InOrder(v, t, fs);
      RoundTrip(v, t, sender, data, fraglen, size, fs, EMPTY, fs, |fs|);
    }
  }

  lemma {:induction false} InOrder(v: Version, t: Tags, fs: seq<bytes>)
    ensures Interleaved(v, t, fs, fs)
  {
    if fs != [] {
      InOrder(v, t, fs[..|fs| - 1]);
    }
  }

  // ------------------------------------------------------------ a finished message handed over again

  /** The fragment is noise, or the whole message as a single piece. */
  ghost predicate Repeats(v: Version, t: Tags, b: bytes, data: bytes) {
    Noise(v, t, b) || Hear(v, t, b).1 == Heard(1, 1, data)
  }

  /** A context that is already finished hands the message over again exactly on these. */
  lemma RedeliversExactly(v: Version, t: Tags, c: Context, b: bytes)
    requires Finished(c)
    ensures Whole(Receive(v, t, c, b).1) == Some(c.frag) <==> Repeats(v, t, b, c.frag)
    ensures Receive(v, t, c, b).0 == Hear(v, t, b).0
  {
    hide Hear;
    var h := Hear(v, t, b).1;
    if ValidNumbers(h) && h.ix > 1 {
      NoPieceAfterLast(c, h);
    }
  }

  lemma NoPieceAfterLast(c: Context, h: Heard)
    requires Finished(c) && ValidNumbers(h)
    ensures !((c.index + 1) % SHORT_LIMIT == h.ix && c.total == h.total)
  {
  }

  /** Each of the fragments makes the receiver hand over this message. */
  ghost predicate HandsOverEach(v: Version, t: Tags, c: Context, bs: seq<bytes>, data: bytes) {
    forall i :: 0 < i <= |bs| ==> Whole(Feed(v, t, c, bs[..i]).1) == Some(data)
  }

  ghost predicate RepeatsEach(v: Version, t: Tags, c: Context, bs: seq<bytes>, data: bytes) {
    forall i {:trigger bs[i]} :: 0 <= i < |bs| ==> Repeats(v, Feed(v, t, c, bs[..i]).0, bs[i], data)
  }

  lemma HandsOverButLast(v: Version, t: Tags, c: Context, bs: seq<bytes>, data: bytes)
    requires bs != []
    ensures HandsOverEach(v, t, c, bs, data) <==>
            HandsOverEach(v, t, c, bs[..|bs| - 1], data) && Whole(Feed(v, t, c, bs).1) == Some(data)
  {
    hide Feed, Whole;
    var init := bs[..|bs| - 1];
    assert bs[..|bs|] == bs;
    if HandsOverEach(v, t, c, bs, data) {
      forall i | 0 < i <= |init|
        ensures Whole(Feed(v, t, c, init[..i]).1) == Some(data)
      {
        assert init[..i] == bs[..i];
      }
    } else if HandsOverEach(v, t, c, init, data) && Whole(Feed(v, t, c, bs).1) == Some(data) {
      forall i | 0 < i <= |bs|
        ensures Whole(Feed(v, t, c, bs[..i]).1) == Some(data)
      {
        if i < |bs| { assert init[..i] == bs[..i]; }
      }
    }
  }

  lemma RepeatsButLast(v: Version, t: Tags, c: Context, bs: seq<bytes>, data: bytes)
    requires bs != []
    ensures var init := bs[..|bs| - 1];
            RepeatsEach(v, t, c, bs, data) <==>
            RepeatsEach(v, t, c, init, data) && Repeats(v, Feed(v, t, c, init).0, bs[|bs| - 1], data)
  {
    hide Feed, Repeats;
    var n, init := |bs| - 1, bs[..|bs| - 1];
    if RepeatsEach(v, t, c, bs, data) {
      forall i {:trigger init[i]} | 0 <= i < n
        ensures Repeats(v, Feed(v, t, c, init[..i]).0, init[i], data)
      {
        assert init[i] == bs[i] && init[..i] == bs[..i];
      }
    } else if RepeatsEach(v, t, c, init, data) && Repeats(v, Feed(v, t, c, init).0, bs[n], data) {
      forall i {:trigger bs[i]} | 0 <= i < |bs|
        ensures Repeats(v, Feed(v, t, c, bs[..i]).0, bs[i], data)
      {
        if i < n { assert init[i] == bs[i] && init[..i] == bs[..i]; }
      }
    }
  }

  /** Once a message is finished, each further fragment hands it over once more exactly if each is
      noise or the message as a single piece. */
  lemma {:induction false} RedeliversThroughout(v: Version, t: Tags, c: Context, bs: seq<bytes>)
    requires Finished(c)
    ensures HandsOverEach(v, t, c, bs, c.frag) <==> RepeatsEach(v, t, c, bs, c.frag)
    decreases |bs|
  {
    if bs != [] {
      var init, last := bs[..|bs| - 1], bs[|bs| - 1];
      hide Receive, Repeats, HandsOverEach, RepeatsEach;
      RedeliversThroughout(v, t, c, init);
      HandsOverButLast(v, t, c, bs, c.frag);
      RepeatsButLast(v, t, c, bs, c.frag);
      if HandsOverEach(v, t, c, init, c.frag) {
        HandedOverLast(v, t, c, init);
        var (t1, c1) := Feed(v, t, c, init);
        RedeliversExactly(v, t1, c1, last);
      }
    }
  }

  lemma HandedOverLast(v: Version, t: Tags, c: Context, bs: seq<bytes>)
    requires Finished(c) && HandsOverEach(v, t, c, bs, c.frag)
    ensures var c' := Feed(v, t, c, bs).1; Finished(c') && c'.frag == c.frag
  {
    if bs != [] {
      HandsOverButLast(v, t, c, bs, c.frag);
    }
  }
}
