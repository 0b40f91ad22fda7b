/** The s-expression reader (package sexp).  Functions say what is read from the bytes ahead and what
    is left; the class Reader does it in place, advancing a position. */
module Sexp {
  import opened Wire
  import opened Numerals

  const OPEN: byte := 40
  const CLOSE: byte := 41
  const QUOTE: byte := 34
  const HASH: byte := 35
  const SPACE: byte := 32
  const TAB: byte := 9
  const NEWLINE: byte := 10
  const RETURN: byte := 13

  /** None in a value is Go's nil: something that did not read. */
  datatype Value =
    | Symbol(text: bytes) | Str(text: bytes) | Number(value: Option<int>)
    | Nil | Cons(first: Option<Value>, second: Value)

  predicate IsWhitespace(c: byte) {
    c == SPACE || c == TAB || c == NEWLINE || c == RETURN
  }

  predicate IsNotSymbolCharacter(c: byte) {
    IsWhitespace(c) || c == OPEN || c == CLOSE
  }

  function UntilFixed(c: byte): byte -> bool {
    (b: byte) => b == c
  }

  function NotSymbol(): byte -> bool {
    (b: byte) => IsNotSymbolCharacter(b)
  }

  // ------------------------------------------------------------ what is read

  /** ReadWhitespace */
  function Skipped(s: bytes): (r: bytes)
    ensures |r| <= |s| && (r != [] ==> !IsWhitespace(r[0]))
  {
    if s != [] && IsWhitespace(s[0]) then Skipped(s[1..]) else s
  }

  /** ReadDataUntil: how many bytes it takes. */
  function Reach(s: bytes, stop: byte -> bool): (n: nat)
    ensures n <= |s| && (n < |s| ==> stop(s[n])) && forall i :: 0 <= i < n ==> !stop(s[i])
  {
    if s == [] || stop(s[0]) then 0 else 1 + Reach(s[1..], stop)
  }

  /** expect: the next byte after whitespace, taken only if it is c. */
  function Expected(s: bytes, c: byte): (r: (bool, bytes))
    ensures |r.1| <= |s| && (r.0 ==> |r.1| < |s|)
  {
    var s1 := Skipped(s);
    if s1 != [] && s1[0] == c then (true, s1[1..]) else (false, s1)
  }

  /** Text between two delimiters: ReadString and ReadBigNum without their conversion. */
  function Delimited(s: bytes, c: byte): (r: (Option<bytes>, bytes))
    ensures |r.1| <= |s| && (Skipped(s) != [] && Skipped(s)[0] == c ==> |r.1| < |s|)
  {
    var (ok, s1) := Expected(s, c);
    if !ok then (None, s1) else
    var n := Reach(s1, UntilFixed(c));
    var (ok2, s2) := Expected(s1[n..], c);
    (if ok2 then Some(s1[..n]) else None, s2)
  }

  /** big.Int.SetString in base 16 */
  function HexValue(b: bytes): Option<int> {
    var signed := b != [] && (b[0] == PLUS || b[0] == MINUS);
    match Unsigned(if signed then b[1..] else b, 16)
    case None => None
    case Some(v) => Some(Signed(signed && b[0] == MINUS, v))
  }

  /** ReadValue: the value, whether a list or the input ended here, and the bytes left. */
  function ValueOf(s: bytes): (r: (Option<Value>, bool, bytes))
    ensures |r.2| <= |s| && (!r.1 ==> |r.2| < |s|)
    decreases |s|, 1
  {
    var s1 := Skipped(s);
    if s1 == [] || s1[0] == CLOSE then (None, true, s1)
    else if s1[0] == OPEN then
      var (items, s2) := ItemsOf(s1[1..]);
      var (ok, s3) := Expected(s2, CLOSE);
      (if ok then Some(items) else None, false, s3)
    else if s1[0] == QUOTE then
      var (text, s2) := Delimited(s1, QUOTE);
      (if text.Some? then Some(Str(text.value)) else None, false, s2)
    else if s1[0] == HASH then
      var (text, s2) := Delimited(s1, HASH);
      (if text.Some? then Some(Number(HexValue(text.value))) else None, false, s2)
    else
      var n := Reach(s1, NotSymbol());
      (Some(Symbol(s1[..n])), false, s1[n..])
  }

  /** ReadListItem */
  function ItemsOf(s: bytes): (r: (Value, bytes))
    ensures |r.1| <= |s|
    decreases |s|, 2
  {
    var (v, end, s1) := ValueOf(s);
    if end then (Nil, s1) else
    var (more, s2) := ItemsOf(s1);
    (Cons(v, more), s2)
  }

  // ------------------------------------------------------------ reading in place

  class Reader {
    const data: bytes
    var pos: nat

    constructor (data: bytes)
      ensures Valid() && this.data == data && Rest() == data
    {
      this.data, pos := data, 0;
    }

    ghost predicate Valid()
      reads this
    {
      pos <= |data|
    }

    ghost function Rest(): bytes
      requires Valid()
      reads this
    {
      data[pos..]
    }

    method ReadWhitespace()
      requires Valid()
      modifies this
      ensures Valid() && pos >= old(pos) && Rest() == Skipped(old(Rest()))
    {
      while pos < |data| && IsWhitespace(data[pos])
        invariant old(pos) <= pos <= |data|
        invariant Skipped(data[pos..]) == Skipped(old(Rest()))
      {
        assert data[pos..][1..] == data[pos + 1..];
        pos := pos + 1;
      }
    }

    method ReadDataUntil(stop: byte -> bool) returns (result: bytes)
      requires Valid()
      modifies this
      ensures Valid() && pos >= old(pos)
      ensures var n := Reach(old(Rest()), stop); result == old(Rest())[..n] && Rest() == old(Rest())[n..]
    {
      result := [];
      while pos < |data| && !stop(data[pos])
        invariant old(pos) <= pos <= |data|
        invariant result == data[old(pos)..pos]
        invariant forall i :: old(pos) <= i < pos ==> !stop(data[i])
      {
        result := result + [data[pos]];
        pos := pos + 1;
      }
      ghost var s, n := old(Rest()), pos - old(pos);
      assert forall i :: 0 <= i < |s| ==> s[i] == data[old(pos) + i];
      ReachUnique(s, stop, n);
      assert s[..n] == result && s[n..] == Rest();
    }

    method Expect(c: byte) returns (ok: bool)
      requires Valid()
      modifies this
      ensures Valid() && pos >= old(pos) && (ok, Rest()) == Expected(old(Rest()), c)
      ensures ok ==> pos > old(pos)
    {
      ReadWhitespace();
      if pos < |data| && data[pos] == c {
        assert Rest()[1..] == data[pos + 1..];
        pos := pos + 1;
        return true;
      }
      return false;
    }

    method ReadDelimited(c: byte) returns (text: Option<bytes>)
      requires Valid()
      modifies this
      ensures Valid() && pos >= old(pos) && (text, Rest()) == Delimited(old(Rest()), c)
    {
      var ok := Expect(c);
      if !ok {
        return None;
      }
      var result := ReadDataUntil(UntilFixed(c));
      ok := Expect(c);
      return if ok then Some(result) else None;
    }

    method ReadValue() returns (v: Option<Value>, end: bool)
      requires Valid()
      modifies this
      ensures Valid() && pos >= old(pos) && (v, end, Rest()) == ValueOf(old(Rest()))
      ensures !end ==> pos > old(pos)
      decreases |data| - pos, 1
    {
      hide Skipped, Delimited, Expected, Reach, HexValue;
      v := None;
      ReadWhitespace();
      if pos == |data| || data[pos] == CLOSE {
        end := true;
      } else if data[pos] == OPEN {
        assert Rest()[1..] == data[pos + 1..];
        pos := pos + 1;
        var items := ReadListItem();
        var ok := Expect(CLOSE);
        v, end := if ok then Some(items) else None, false;
      } else if data[pos] == QUOTE {
        SkippedAlready(Rest());
        var text := ReadDelimited(QUOTE);
        v, end := if text.Some? then Some(Str(text.value)) else None, false;
      } else if data[pos] == HASH {
        SkippedAlready(Rest());
        var text := ReadDelimited(HASH);
        v, end := if text.Some? then Some(Number(HexValue(text.value))) else None, false;
      } else {
        SymbolTakes(Rest());
        var text := ReadDataUntil(NotSymbol());
        v, end := Some(Symbol(text)), false;
      }
    }

    method ReadListItem() returns (items: Value)
      requires Valid()
      modifies this
      ensures Valid() && pos >= old(pos) && (items, Rest()) == ItemsOf(old(Rest()))
      decreases |data| - pos, 2
    {
      hide ValueOf;
      var v, end := ReadValue();
      if end {
        return Nil;
      }
      var more := ReadListItem();
      return Cons(v, more);
    }
  }

  lemma ReachUnique(s: bytes, stop: byte -> bool, n: nat)
    requires n <= |s| && (n < |s| ==> stop(s[n])) && forall i :: 0 <= i < n ==> !stop(s[i])
    ensures Reach(s, stop) == n
  {
  }

  lemma SkippedAlready(s: bytes)
    requires s != [] && !IsWhitespace(s[0])
    ensures Skipped(s) == s
  {
  }

  lemma SymbolTakes(s: bytes)
    requires s != [] && !IsNotSymbolCharacter(s[0])
    ensures Reach(s, NotSymbol()) > 0
  {
  }

  // ------------------------------------------------------------ what written text reads as

  /** What ReadValue gives back as one symbol. */
  predicate IsSymbol(s: bytes) {
    && s != [] && s[0] != QUOTE && s[0] != HASH
    && forall c <- s :: !IsNotSymbolCharacter(c)
  }

  lemma {:induction false} SkipsSpace(space: bytes, s: bytes)
    requires forall c <- space :: IsWhitespace(c)
    ensures Skipped(space + s) == Skipped(s)
  {
    if space == [] {
      assert space + s == s;
    } else {
      assert (space + s)[1..] == space[1..] + s;
      SkipsSpace(space[1..], s);
    }
  }

  lemma ExpectReads(space: bytes, c: byte, s: bytes)
    requires (forall x <- space :: IsWhitespace(x)) && !IsWhitespace(c)
    ensures Expected(space + [c] + s, c) == (true, s)
  {
    assert space + [c] + s == space + ([c] + s);
    SkipsSpace(space, [c] + s);
    SkippedAlready([c] + s);
    assert ([c] + s)[1..] == s;
  }

  lemma ReachesTo(x: bytes, s: bytes, stop: byte -> bool)
    requires (forall c <- x :: !stop(c)) && (s != [] ==> stop(s[0]))
    ensures Reach(x + s, stop) == |x| && (x + s)[..|x|] == x && (x + s)[|x|..] == s
  {
  }

  /** A symbol after whitespace reads back, up to what follows it. */
  lemma SymbolReads(space: bytes, x: bytes, s: bytes)
    requires (forall c <- space :: IsWhitespace(c)) && IsSymbol(x) && s != [] && IsNotSymbolCharacter(s[0])
    ensures ValueOf(space + x + s) == (Some(Symbol(x)), false, s)
  {
    hide Skipped, Reach;
    assert space + x + s == space + (x + s);
    SkipsSpace(space, x + s);
    assert x[0] in x;
    SkippedAlready(x + s);
    ReachesTo(x, s, NotSymbol());
  }

  lemma DelimitedReads(space: bytes, c: byte, x: bytes, s: bytes)
    requires (forall b <- space :: IsWhitespace(b)) && !IsWhitespace(c) && c !in x
    ensures Delimited(space + [c] + x + [c] + s, c) == (Some(x), s)
  {
    hide Skipped, Reach, Expected;
    assert space + [c] + x + [c] + s == space + [c] + (x + ([c] + s));
    ExpectReads(space, c, x + ([c] + s));
    ReachesTo(x, [c] + s, UntilFixed(c));
    ExpectReads([], c, s);
    assert [] + [c] + s == [c] + s;
  }
}
