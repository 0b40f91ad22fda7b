/** Byte strings and the OTR data types SHORT, INT, DATA and MPI, as the gotrax
    helpers write and read them.  All integers travel big-endian. */
module Wire {

  type byte = x: int | 0 <= x < 0x100
  type uint16 = x: int | 0 <= x < 0x1_0000
  type uint32 = x: int | 0 <= x < 0x1_0000_0000
  type uint64 = x: int | 0 <= x < 0x1_0000_0000_0000_0000
  type bytes = seq<byte>

  const WORD_LIMIT := 0x1_0000_0000
  const LONG_LIMIT := 0x1_0000_0000_0000_0000

  datatype Option<+T> = None | Some(value: T)

  /** The protocol versions. */
  datatype Version = V2 | V3

  /** What an Extract function gives: the unread bytes and the value, or the failure flag. */
  datatype Parsed<+T> = Corrupt | Parsed(rest: bytes, value: T)

  /** The position of the first c; the length when there is none. */
  function Find(b: bytes, c: byte): (i: nat)
    ensures i <= |b| && (i < |b| ==> b[i] == c) && forall j :: 0 <= j < i ==> b[j] != c
  {
    if b == [] || b[0] == c then 0 else 1 + Find(b[1..], c)
  }

  lemma FindUnique(b: bytes, c: byte, i: nat)
    requires i <= |b| && (i < |b| ==> b[i] == c) && forall j :: 0 <= j < i ==> b[j] != c
    ensures Find(b, c) == i
  {
  }

  function Zeros(n: nat): (r: bytes)
    ensures |r| == n
  {
    seq(n, i => 0)
  }

  function Pow256(n: nat): (r: nat)
    ensures r > 0
  {
    if n == 0 then 1 else 256 * Pow256(n - 1)
  }

  lemma Pow256Widths()
    ensures Pow256(1) == 0x100 && Pow256(2) == 0x1_0000 && Pow256(4) == WORD_LIMIT && Pow256(8) == LONG_LIMIT
  {
  }

  lemma {:induction false} Pow256Monotone(m: nat, n: nat)
    requires m <= n
    ensures Pow256(m) <= Pow256(n)
    decreases n - m
  {
    if m < n {
      Pow256Monotone(m + 1, n);
    }
  }

  /** The value of a byte string, as big.Int.SetBytes and binary.BigEndian read it. */
  function FromBytes(b: bytes): (v: nat)
    ensures v < Pow256(|b|)
  {
    if b == [] then 0 else 256 * FromBytes(b[..|b| - 1]) + b[|b| - 1]
  }

  /** The low n bytes of v, most significant first. */
  function BigEndian(v: nat, n: nat): (b: bytes)
    ensures |b| == n
  {
    if n == 0 then [] else BigEndian(v / 256, n - 1) + [v % 256]
  }

  /** The shortest byte string for v, as big.Int.Bytes writes it. */
  function NatBytes(v: nat): (b: bytes)
  {
    if v == 0 then [] else NatBytes(v / 256) + [v % 256]
  }

  lemma {:induction false} BigEndianRoundTrip(v: nat, n: nat)
    requires v < Pow256(n)
    ensures FromBytes(BigEndian(v, n)) == v
  {
    if n > 0 {
      var b := BigEndian(v, n);
      assert b[..n - 1] == BigEndian(v / 256, n - 1) && b[n - 1] == v % 256;
      assert v / 256 < Pow256(n - 1);
      BigEndianRoundTrip(v / 256, n - 1);
      assert FromBytes(b) == 256 * FromBytes(b[..n - 1]) + v % 256;
    }
  }

  lemma {:induction false} FromBytesRoundTrip(b: bytes)
    ensures BigEndian(FromBytes(b), |b|) == b
  {
    if b != [] {
      FromBytesRoundTrip(b[..|b| - 1]);
    }
  }

  /** Byte strings of one length are told apart by their values. */
  lemma FromBytesInjective(a: bytes, b: bytes)
    requires |a| == |b|
    ensures FromBytes(a) == FromBytes(b) <==> a == b
  {
    FromBytesRoundTrip(a);
    FromBytesRoundTrip(b);
  }

  lemma {:induction false} NatBytesRoundTrip(v: nat)
    ensures FromBytes(NatBytes(v)) == v
  {
    if v > 0 {
      var b := NatBytes(v);
      assert b[..|b| - 1] == NatBytes(v / 256);
      NatBytesRoundTrip(v / 256);
    }
  }

  /** NatBytes is minimal: it fits n bytes exactly when the value does. */
  lemma {:induction false} NatBytesLength(v: nat, n: nat)
    ensures |NatBytes(v)| <= n <==> v < Pow256(n)
  {
    if v > 0 && n > 0 {
      NatBytesLength(v / 256, n - 1);
    }
  }

  lemma NatBytesMonotone(v: nat, w: nat)
    requires v <= w
    ensures |NatBytes(v)| <= |NatBytes(w)|
  {
  }

  // ------------------------------------------------------------ writers

  function Short(v: uint16): (r: bytes)
    ensures |r| == 2
  {
    BigEndian(v, 2)
  }

  function Word(v: uint32): (r: bytes)
    ensures |r| == 4
  {
    BigEndian(v, 4)
  }

  function Long(v: uint64): (r: bytes)
    ensures |r| == 8
  {
    BigEndian(v, 8)
  }

  /** The length prefix is a uint32 conversion, so it drops the high bits of a longer length. */
  function Data(d: bytes): (r: bytes)
    ensures |r| == 4 + |d|
  {
    Word(|d| % WORD_LIMIT) + d
  }

  function Mpi(v: nat): bytes {
    Data(NatBytes(v))
  }

  lemma MpiLength(v: nat)
    ensures |Mpi(v)| == 4 + |NatBytes(v)|
  {
  }

  function Mpis(vs: seq<nat>): bytes {
    if vs == [] then [] else Mpi(vs[0]) + Mpis(vs[1..])
  }

  // ------------------------------------------------------------ readers

  function ExtractShort(d: bytes): Parsed<uint16> {
    if |d| < 2 then Corrupt else
    Pow256Widths();
    Parsed(d[2..], FromBytes(d[..2]))
  }

  function ExtractWord(d: bytes): Parsed<uint32> {
    if |d| < 4 then Corrupt else
    Pow256Widths();
    Parsed(d[4..], FromBytes(d[..4]))
  }

  function ExtractData(d: bytes): Parsed<bytes> {
    match ExtractWord(d)
    case Corrupt => Corrupt
    case Parsed(rest, n) =>
      if |rest| < n then Corrupt else Parsed(rest[n..], rest[..n])
  }

  function ExtractMpi(d: bytes): Parsed<nat> {
    match ExtractData(d)
    case Corrupt => Corrupt
    case Parsed(rest, b) => Parsed(rest, FromBytes(b))
  }

  function ExtractMpiCount(d: bytes, n: nat): Parsed<seq<nat>>
    decreases n
  {
    if n == 0 then Parsed(d, []) else
    match ExtractMpi(d)
    case Corrupt => Corrupt
    case Parsed(rest, v) =>
      match ExtractMpiCount(rest, n - 1)
      case Corrupt => Corrupt
      case Parsed(rest', vs) => Parsed(rest', [v] + vs)
  }

  function ExtractMpis(d: bytes): Parsed<seq<nat>> {
    match ExtractWord(d)
    case Corrupt => Corrupt
    case Parsed(rest, n) => ExtractMpiCount(rest, n)
  }

  /** The loop of ExtractMPIs, with its early exit at the first number that does not parse. */
  method ReadMpis(d: bytes) returns (ok: bool, rest: bytes, vs: seq<nat>)
    ensures ok <==> ExtractMpis(d).Parsed?
    ensures ok ==> ExtractMpis(d) == Parsed(rest, vs)
  {
    var start := ExtractWord(d);
    if start.Corrupt? {
      return false, [], [];
    }
    vs := [];
    rest := start.rest;
    assert ExtractMpis(d).Parsed? ==> vs + ExtractMpis(d).value == ExtractMpis(d).value;
    for i := 0 to start.value
      invariant match ExtractMpiCount(rest, start.value - i)
                case Corrupt => ExtractMpis(d).Corrupt?
                case Parsed(end, tail) => ExtractMpis(d) == Parsed(end, vs + tail)
    {
      var next := ExtractMpi(rest);
      if next.Corrupt? {
        return false, [], [];
      }
      ghost var more := ExtractMpiCount(next.rest, start.value - i - 1);
      assert more.Parsed? ==> vs + ([next.value] + more.value) == (vs + [next.value]) + more.value;
      vs := vs + [next.value];
      rest := next.rest;
    }
    assert vs + [] == vs;
    ok := true;
  }

  // ------------------------------------------------------------ round trips

  lemma ShortRoundTrip(v: uint16, rest: bytes)
    ensures ExtractShort(Short(v) + rest) == Parsed(rest, v)
  {
    Pow256Widths();
    BigEndianRoundTrip(v, 2);
    assert (Short(v) + rest)[..2] == Short(v);
    assert (Short(v) + rest)[2..] == rest;
  }

  lemma WordRoundTrip(v: uint32, rest: bytes)
    ensures ExtractWord(Word(v) + rest) == Parsed(rest, v)
  {
    Pow256Widths();
    BigEndianRoundTrip(v, 4);
    assert (Word(v) + rest)[..4] == Word(v);
    assert (Word(v) + rest)[4..] == rest;
  }

  lemma LongRoundTrip(v: uint64)
    ensures FromBytes(Long(v)) == v
  {
    Pow256Widths();
    BigEndianRoundTrip(v, 8);
  }

  lemma DataExtracted(d: bytes, rest: bytes)
    ensures var n := |d| % WORD_LIMIT; ExtractData(Data(d) + rest) == Parsed((d + rest)[n..], (d + rest)[..n])
  {
    var n := |d| % WORD_LIMIT;
    assert Data(d) + rest == Word(n) + (d + rest);
    WordRoundTrip(n, d + rest);
  }

  /** A DATA field reads back exactly when its length survives the uint32 conversion;
      otherwise the reader stops short and leaves more than `rest` unread. */
  lemma DataRoundTrip(d: bytes, rest: bytes)
    ensures |d| < WORD_LIMIT ==> ExtractData(Data(d) + rest) == Parsed(rest, d)
    ensures |d| >= WORD_LIMIT ==> ExtractData(Data(d) + rest).Parsed? && |ExtractData(Data(d) + rest).rest| > |rest|
  {
    DataExtracted(d, rest);
    if |d| < WORD_LIMIT {
      assert (d + rest)[..|d|] == d && (d + rest)[|d|..] == rest;
    }
  }

  lemma MpiRoundTrip(v: nat, rest: bytes)
    ensures ExtractMpi(Mpi(v) + rest) == Parsed(rest, v) <==> |NatBytes(v)| < WORD_LIMIT
  {
    NatBytesRoundTrip(v);
    var b := NatBytes(v);
    DataRoundTrip(b, rest);
  }

  ghost predicate FitsMpi(v: nat) {
    |NatBytes(v)| < WORD_LIMIT
  }

  lemma {:induction false} MpiCountRoundTrip(vs: seq<nat>, rest: bytes)
    requires forall v <- vs :: FitsMpi(v)
    ensures ExtractMpiCount(Mpis(vs) + rest, |vs|) == Parsed(rest, vs)
  {
    if vs == [] {
      assert Mpis(vs) + rest == rest;
    } else {
      assert Mpis(vs) + rest == Mpi(vs[0]) + (Mpis(vs[1..]) + rest);
      assert FitsMpi(vs[0]);
      MpiRoundTrip(vs[0], Mpis(vs[1..]) + rest);
      MpiCountRoundTrip(vs[1..], rest);
      assert [vs[0]] + vs[1..] == vs;
    }
  }

  lemma MpisRoundTrip(vs: seq<nat>, rest: bytes)
    requires |vs| < WORD_LIMIT && forall v <- vs :: FitsMpi(v)
    ensures ExtractMpis(Word(|vs|) + Mpis(vs) + rest) == Parsed(rest, vs)
  {
    assert Word(|vs|) + Mpis(vs) + rest == Word(|vs|) + (Mpis(vs) + rest);
    WordRoundTrip(|vs|, Mpis(vs) + rest);
    MpiCountRoundTrip(vs, rest);
  }

  /** What is written one after the other can be told apart again. */
  lemma MpiInjective(v: nat, w: nat, a: bytes, b: bytes)
    requires FitsMpi(v) && FitsMpi(w)
    ensures Mpi(v) + a == Mpi(w) + b <==> v == w && a == b
  {
    hide Mpi, ExtractMpi;
    MpiRoundTrip(v, a);
    MpiRoundTrip(w, b);
  }

  lemma {:induction false} MpisInjective(vs: seq<nat>, ws: seq<nat>)
    requires (forall v <- vs :: FitsMpi(v)) && (forall w <- ws :: FitsMpi(w))
    ensures Mpis(vs) == Mpis(ws) <==> vs == ws
  {
    if vs == [] || ws == [] {
      MpisEmpty(vs);
      MpisEmpty(ws);
    } else {
      hide Mpi, FitsMpi;
      MpiInjective(vs[0], ws[0], Mpis(vs[1..]), Mpis(ws[1..]));
      MpisInjective(vs[1..], ws[1..]);
      assert vs == [vs[0]] + vs[1..] && ws == [ws[0]] + ws[1..];
    }
  }

  lemma MpisEmpty(vs: seq<nat>)
    ensures Mpis(vs) == [] <==> vs == []
  {
    if vs != [] {
      MpiLength(vs[0]);
    }
  }
}
