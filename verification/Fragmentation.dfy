/** Fragmentation (fragmentation.go, and the prefixes in otrv2.go and otrv3.go): cutting a message
    into numbered pieces with uint16 offsets, and putting pieces together again. */
module Fragmentation {
  import opened Wire
  import opened ModArith
  import opened Headers
  import opened Numerals

  const COMMA: byte := 44
  const BAR: byte := 124
  const V3_MARK: bytes := [63, 79, 84, 82, 124]   // ?OTR|
  const V2_MARK: bytes := [63, 79, 84, 82, 44]    // ?OTR,
  const SHORT_LIMIT := 0x1_0000
  const V3_PREFIX := 35
  const V2_PREFIX := 17
  const V3_TAGS := 23         // the part of the prefix up to the first comma

  function PrefixLength(v: Version): nat {
    if v.V3? then V3_PREFIX else V2_PREFIX
  }

  // ------------------------------------------------------------ cutting

  function Dec5(n: nat): bytes { Padded(Numeral(n, 10, LOWER_A), 5) }

  function Hex8(n: nat): bytes { Padded(Numeral(n, 16, LOWER_A), 8) }

  function Numbers(n: nat, total: nat): bytes {
    Dec5(n + 1) + [COMMA] + Dec5(total) + [COMMA]
  }

  /** fragmentPrefix */
  function FragmentPrefix(v: Version, n: nat, total: nat, t: Tags): bytes {
    match v
    case V2 => V2_MARK + Numbers(n, total)
    case V3 => V3_MARK + Hex8(t.ours) + [BAR] + Hex8(t.theirs) + [COMMA] + Numbers(n, total)
  }

  /** The prefix, letter for letter: in version 3 the sender's tag before the receiver's, then the number
      of the piece, counted from 1, before their total. */
  lemma PrefixLayout(n: nat, total: nat, t: Tags)
    ensures FragmentPrefix(V3, n, total, t)
            == Ascii("?OTR|") + Hex8(t.ours) + Ascii("|") + Hex8(t.theirs) + Ascii(",") + (Dec5(n + 1) + Ascii(",") + Dec5(total) + Ascii(","))
    ensures FragmentPrefix(V2, n, total, t) == Ascii("?OTR,") + (Dec5(n + 1) + Ascii(",") + Dec5(total) + Ascii(","))
  {
    hide Hex8, Dec5;
    assert Ascii("?OTR|") == V3_MARK && Ascii("?OTR,") == V2_MARK && Ascii("|") == [BAR] && Ascii(",") == [COMMA];
  }

  function Min(a: nat, b: nat): nat { if a < b then a else b }

  /** fragmentData, in uint16 arithmetic; None is a slice out of range. */
  function Piece(data: bytes, i: nat, size: uint16, l: uint16): Option<bytes> {
    var start, end := (i * size) % SHORT_LIMIT, Min((i + 1) * size % SHORT_LIMIT, l);
    if start <= end <= |data| then Some(data[start..end]) else None
  }

  /** realFraglen: what is left of a fragment after the prefix and the closing comma, as a uint16. */
  function RoomFor(v: Version, t: Tags, fraglen: uint16): uint16 {
    (fraglen - |FragmentPrefix(v, 1, 1, t)| - 1) % SHORT_LIMIT
  }

  function Count(data: bytes, size: nat): nat
    requires size > 0
  {
    |data| / size + 1
  }

  function Enveloped(v: Version, t: Tags, i: nat, total: nat, piece: bytes): bytes {
    FragmentPrefix(v, i, total, t) + piece + [COMMA]
  }

  /** fragment; None is a panic. */
  function Fragmented(v: Version, t: Tags, data: bytes, fraglen: uint16): Option<seq<bytes>> {
    if |data| <= fraglen || fraglen == 0 then Some([data]) else
    var size := RoomFor(v, t, fraglen);
    if size == 0 then Some([data]) else
    var n, l := Count(data, size), |data| % SHORT_LIMIT;
    if exists i :: 0 <= i < n && Piece(data, i, size, l).None? then None else
    Some(seq(n, i requires 0 <= i < n && Piece(data, i, size, l).Some? => Enveloped(v, t, i, n, Piece(data, i, size, l).value)))
  }

  /** The loop that fills the slice of fragments. */
  method Fragment(v: Version, t: Tags, data: bytes, fraglen: uint16) returns (crashed: bool, ret: seq<bytes>)
    ensures crashed <==> Fragmented(v, t, data, fraglen).None?
    ensures !crashed ==> Fragmented(v, t, data, fraglen) == Some(ret)
  {
    hide FragmentPrefix, Piece;
    var l := |data|;
    if l <= fraglen || fraglen == 0 {
      return false, [data];
    }
    var size := RoomFor(v, t, fraglen);
    if size == 0 {
      return false, [data];
    }
    var n := l / size + 1;
    var out := new bytes[n];
    var i := 0;
    while i < n
      invariant 0 <= i <= n
      invariant forall j :: 0 <= j < i ==>
                  Piece(data, j, size, l % SHORT_LIMIT).Some? && out[j] == Enveloped(v, t, j, n, Piece(data, j, size, l % SHORT_LIMIT).value)
    {
      var piece := Piece(data, i, size, l % SHORT_LIMIT);
      if piece.None? {
        return true, [];
      }
      out[i] := FragmentPrefix(v, i, n, t) + piece.value + [COMMA];
      i := i + 1;
    }
    assert out[..] == Fragmented(v, t, data, fraglen).value;
    return false, out[..];
  }

  // ------------------------------------------------------------ when cutting works

  lemma Dec5Length(n: nat)
    ensures |Dec5(n)| >= 5 && (n < 100000 ==> |Dec5(n)| == 5)
  {
    NumeralLength(n, 10, LOWER_A, 5);
    assert Pow(10, 2) == 100 && Pow(10, 4) == 10000 && Pow(10, 5) == 100000;
  }

  lemma Hex8Length(n: uint32)
    ensures |Hex8(n)| == 8
  {
    NumeralLength(n, 16, LOWER_A, 8);
    assert Pow(16, 2) == 0x100 && Pow(16, 4) == 0x1_0000 && Pow(16, 6) == 0x100_0000 && Pow(16, 8) == WORD_LIMIT;
  }

  /** Tags are eight hexadecimal digits in lower case, numbers and totals decimal digits. */
  lemma PrefixDigits(n: nat)
    ensures forall c <- Hex8(n) :: '0' as int <= c <= '9' as int || 'a' as int <= c <= 'f' as int
    ensures forall c <- Dec5(n) :: '0' as int <= c <= '9' as int
  {
    NumeralDigits(n, 16);
    PaddedDigits(Numeral(n, 16, LOWER_A), 8);
    NumeralDigits(n, 10);
    PaddedDigits(Numeral(n, 10, LOWER_A), 5);
  }

  lemma {:induction false} NumeralDigits(n: nat, base: nat)
    requires 2 <= base <= 16
    ensures forall c <- Numeral(n, base, LOWER_A) :: '0' as int <= c <= '9' as int || (base > 10 && 'a' as int <= c < 'a' as int + base - 10)
    decreases n
  {
    if n >= base {
      NumeralDigits(n / base, base);
    }
  }

  lemma {:induction false} PaddedDigits(b: bytes, width: nat)
    ensures forall c <- Padded(b, width) :: c == ZERO || c in b
    decreases width - |b|
  {
    if |b| < width {
      PaddedDigits([ZERO] + b, width);
    }
  }

  lemma PrefixLengthIs(v: Version, n: nat, total: nat, t: Tags)
    ensures |FragmentPrefix(v, n, total, t)| >= PrefixLength(v)
    ensures n + 1 < 100000 && total < 100000 ==> |FragmentPrefix(v, n, total, t)| == PrefixLength(v)
  {
    hide Dec5, Hex8;
    Dec5Length(n + 1);
    Dec5Length(total);
    Hex8Length(t.ours);
    Hex8Length(t.theirs);
  }

  lemma TimesDivides(l: nat, size: nat)
    requires size > 0
    ensures l / size * size <= l < (l / size + 1) * size
  {
  }

  lemma TimesMonotone(a: nat, b: nat, size: nat)
    requires a <= b
    ensures a * size <= b * size
  {
  }

  /** Where the offsets do not overflow, piece i is exactly the i-th stretch of the message. */
  lemma PieceInRange(data: bytes, i: nat, size: uint16)
    requires size > 0 && i < Count(data, size) && Count(data, size) * size < SHORT_LIMIT
    ensures i * size <= |data| && |data| < SHORT_LIMIT
    ensures Piece(data, i, size, |data| % SHORT_LIMIT) == Some(data[i * size..Min((i + 1) * size, |data|)])
  {
    TimesDivides(|data|, size);
    TimesMonotone(i, |data| / size, size);
    TimesMonotone(i + 1, Count(data, size), size);
    TimesMonotone(i, i + 1, size);
    SmallMod(i * size);
    SmallMod((i + 1) * size);
    SmallMod(|data|);
  }

  lemma SmallMod(x: nat)
    requires x < SHORT_LIMIT
    ensures x % SHORT_LIMIT == x
  {
  }

  lemma WrapsBelow(i: nat, size: uint16)
    requires size > 0 && i == (SHORT_LIMIT - 1) / size
    ensures i * size < SHORT_LIMIT <= (i + 1) * size
    ensures (i + 1) * size % SHORT_LIMIT < i * size % SHORT_LIMIT
  {
    TimesDivides(SHORT_LIMIT - 1, size);
    assert (i + 1) * size == i * size + size;
  }

  /** Where they do, the piece that crosses 65535 ends before it starts. */
  lemma PieceOverrun(data: bytes, size: uint16) returns (i: nat)
    requires size > 0 && Count(data, size) * size >= SHORT_LIMIT
    ensures i < Count(data, size) && Piece(data, i, size, |data| % SHORT_LIMIT).None?
  {
    i := (SHORT_LIMIT - 1) / size;
    WrapsBelow(i, size);
    if Count(data, size) <= i {
      TimesMonotone(Count(data, size), i, size);
    }
  }

  /** Cutting panics exactly when the pieces reach past offset 65535. */
  lemma CutsExactly(v: Version, t: Tags, data: bytes, fraglen: uint16)
    requires 0 < fraglen < |data| && RoomFor(v, t, fraglen) > 0
    ensures var size := RoomFor(v, t, fraglen);
            Fragmented(v, t, data, fraglen).Some? <==> Count(data, size) * size < SHORT_LIMIT
  {
    hide FragmentPrefix, Enveloped, Piece, RoomFor;
    var size := RoomFor(v, t, fraglen);
    if Count(data, size) * size < SHORT_LIMIT {
      forall i | 0 <= i < Count(data, size)
        ensures Piece(data, i, size, |data| % SHORT_LIMIT).Some?
      {
        PieceInRange(data, i, size);
      }
    } else {
      var i := PieceOverrun(data, size);
    }
  }

  lemma RoomIs(v: Version, t: Tags, fraglen: uint16)
    ensures fraglen > PrefixLength(v) ==> RoomFor(v, t, fraglen) == fraglen - PrefixLength(v) - 1
    ensures fraglen <= PrefixLength(v) ==> RoomFor(v, t, fraglen) == fraglen - PrefixLength(v) - 1 + SHORT_LIMIT
  {
    PrefixLengthIs(v, 1, 1, t);
    hide FragmentPrefix;
  }

  lemma FragmentLength(v: Version, t: Tags, data: bytes, fraglen: uint16, size: uint16, i: nat)
    requires 0 < fraglen < |data| && size == RoomFor(v, t, fraglen) > 0 && i < Count(data, size)
    requires Fragmented(v, t, data, fraglen).Some?
    ensures var fs := Fragmented(v, t, data, fraglen).value;
            |fs| == Count(data, size) && PrefixLength(v) + 1 <= |fs[i]| <= PrefixLength(v) + size + 1
  {
    hide FragmentPrefix, RoomFor, Piece;
    CutsExactly(v, t, data, fraglen);
    CountBound(data, size);
    PieceInRange(data, i, size);
    PrefixLengthIs(v, i, Count(data, size), t);
    StretchLength(i, size, |data|);
  }

  lemma StretchLength(i: nat, size: nat, l: nat)
    ensures Min((i + 1) * size, l) - i * size <= size
  {
    assert (i + 1) * size == i * size + size;
  }

  /** Every fragment respects the size limit exactly when the limit leaves room for a byte of data
      beyond prefix and comma, or no cutting was needed. */
  lemma FragmentsFit(v: Version, t: Tags, data: bytes, fraglen: uint16)
    requires fraglen > 0 && Fragmented(v, t, data, fraglen).Some?
    ensures (forall f <- Fragmented(v, t, data, fraglen).value :: |f| <= fraglen)
            <==> |data| <= fraglen || fraglen >= PrefixLength(v) + 2
  {
    RoomIs(v, t, fraglen);
    var fs, size := Fragmented(v, t, data, fraglen).value, RoomFor(v, t, fraglen);
    if |data| > fraglen && size > 0 {
      hide Fragmented, RoomFor, Count;
      AtLeastOne(data, size);
      forall i | 0 <= i < Count(data, size)
        ensures |fs| == Count(data, size) && PrefixLength(v) + 1 <= |fs[i]| <= PrefixLength(v) + size + 1
      {
        FragmentLength(v, t, data, fraglen, size, i);
      }
      FragmentLength(v, t, data, fraglen, size, 0);
      assert fs[0] in fs;
    } else {
      hide FragmentPrefix, RoomFor, Piece;
      assert data in fs;
    }
  }

  lemma AtLeastOne(data: bytes, size: uint16)
    requires size > 0
    ensures Count(data, size) > 0
  {
  }

  lemma CountBound(data: bytes, size: uint16)
    requires size > 0 && Count(data, size) * size < SHORT_LIMIT
    ensures Count(data, size) < SHORT_LIMIT
  {
  }
}
