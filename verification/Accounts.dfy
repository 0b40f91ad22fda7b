/** The libotr key file (keys.go): exporting accounts and reading them back. */
module Accounts {
  import opened Wire
  import opened Numerals
  import opened Sexp

  const PRIVKEYS: bytes := [112, 114, 105, 118, 107, 101, 121, 115]
  const ACCOUNT: bytes := [97, 99, 99, 111, 117, 110, 116]
  const NAME: bytes := [110, 97, 109, 101]
  const PROTOCOL: bytes := [112, 114, 111, 116, 111, 99, 111, 108]
  const PRIVATE_KEY: bytes := [112, 114, 105, 118, 97, 116, 101, 45, 107, 101, 121]
  const DSA: bytes := [100, 115, 97]
  const NIL_TEXT: bytes := [60, 110, 105, 108, 62]     // what %X makes of a nil number
  const P: bytes := [112]
  const Q: bytes := [113]
  const G: bytes := [103]
  const Y: bytes := [121]
  const X: bytes := [120]

  /** The five parameters of a DSA private key; None is nil. */
  datatype DsaKey = DsaKey(p: Option<int>, q: Option<int>, g: Option<int>, y: Option<int>, x: Option<int>)

  datatype Account = Account(name: bytes, protocol: bytes, key: DsaKey)

  const NO_KEY := DsaKey(None, None, None, None, None)

  // ------------------------------------------------------------ export

  function Indent(n: nat): (r: bytes)
    ensures |r| == n && forall c <- r :: c == SPACE && IsWhitespace(c)
  {
    seq(n, i => SPACE)
  }

  /** %X */
  function HexText(v: Option<int>): bytes {
    match v
    case None => NIL_TEXT
    case Some(n) => if n < 0 then [MINUS] + Numeral(-n, 16, UPPER_A) else Numeral(n, 16, UPPER_A)
  }

  function ParameterText(tag: bytes, v: Option<int>): bytes {
    Indent(8) + [OPEN] + tag + [SPACE, HASH] + HexText(v) + [HASH, CLOSE, NEWLINE]
  }

  function DsaText(k: DsaKey): bytes {
    Indent(6) + [OPEN] + DSA + [NEWLINE]
    + (ParameterText(P, k.p) + (ParameterText(Q, k.q) + (ParameterText(G, k.g) + (ParameterText(Y, k.y) + (ParameterText(X, k.x)
    + (Indent(6) + [CLOSE, NEWLINE]))))))
  }

  function NameText(n: bytes): bytes {
    Indent(4) + [OPEN] + NAME + [SPACE, QUOTE] + n + [QUOTE, CLOSE, NEWLINE]
  }

  function ProtocolText(p: bytes): bytes {
    Indent(4) + [OPEN] + PROTOCOL + [SPACE] + p + [CLOSE, NEWLINE]
  }

  function KeyText(k: DsaKey): bytes {
    Indent(4) + [OPEN] + PRIVATE_KEY + [NEWLINE] + (DsaText(k) + (Indent(4) + [CLOSE, NEWLINE]))
  }

  function AccountText(a: Account): bytes {
    Indent(2) + [OPEN] + ACCOUNT + [NEWLINE]
    + (NameText(a.name) + (ProtocolText(a.protocol) + (KeyText(a.key) + (Indent(2) + [CLOSE, NEWLINE]))))
  }

  function AccountsText(accounts: seq<Account>): bytes {
    if accounts == [] then [CLOSE, NEWLINE] else AccountText(accounts[0]) + AccountsText(accounts[1..])
  }

  function FileText(accounts: seq<Account>): bytes {
    [OPEN] + PRIVKEYS + [NEWLINE] + AccountsText(accounts)
  }

  /** The lines of the file, letter for letter. */
  lemma Layout(a: Account, tag: bytes, v: Option<int>)
    ensures FileText([]) == Ascii("(privkeys\n") + Ascii(")\n")
    ensures NameText(a.name) == Ascii("    (name \"") + a.name + Ascii("\")\n")
    ensures ProtocolText(a.protocol) == Ascii("    (protocol ") + a.protocol + Ascii(")\n")
    ensures ParameterText(tag, v) == Ascii("        (") + tag + Ascii(" #") + HexText(v) + Ascii("#)\n")
    ensures P == Ascii("p") && Q == Ascii("q") && G == Ascii("g") && Y == Ascii("y") && X == Ascii("x")
  {
    hide HexText;
    LineStarts();
    assert Ascii("\")\n") == [QUOTE, CLOSE, NEWLINE] && Ascii(")\n") == [CLOSE, NEWLINE];
    assert Ascii(" #") == [SPACE, HASH] && Ascii("#)\n") == [HASH, CLOSE, NEWLINE];
    assert Indent(8) + [OPEN] + tag + [SPACE, HASH] == Ascii("        (") + tag + Ascii(" #");
  }

  lemma LineStarts()
    ensures [OPEN] + PRIVKEYS + [NEWLINE] == Ascii("(privkeys\n")
    ensures Indent(4) + [OPEN] + NAME + [SPACE, QUOTE] == Ascii("    (name \"")
    ensures Indent(4) + [OPEN] + PROTOCOL + [SPACE] == Ascii("    (protocol ")
    ensures Indent(8) + [OPEN] == Ascii("        (")
  {
  }

  lemma AccountLines()
    ensures Indent(2) + [OPEN] + ACCOUNT + [NEWLINE] == Ascii("  (account\n") && Indent(2) + [CLOSE, NEWLINE] == Ascii("  )\n")
  {
  }

  lemma KeyLines()
    ensures Indent(4) + [OPEN] + PRIVATE_KEY + [NEWLINE] == Ascii("    (private-key\n") && Indent(4) + [CLOSE, NEWLINE] == Ascii("    )\n")
  {
  }

  lemma DsaLines()
    ensures Indent(6) + [OPEN] + DSA + [NEWLINE] == Ascii("      (dsa\n") && Indent(6) + [CLOSE, NEWLINE] == Ascii("      )\n")
  {
  }

  /** And their order. */
  lemma LineOrder(a: Account, rest: seq<Account>)
    ensures AccountText(a) == Ascii("  (account\n") + (NameText(a.name) + (ProtocolText(a.protocol) + (KeyText(a.key) + Ascii("  )\n"))))
    ensures KeyText(a.key) == Ascii("    (private-key\n") + (DsaText(a.key) + Ascii("    )\n"))
    ensures DsaText(a.key)
            == Ascii("      (dsa\n")
               + (ParameterText(P, a.key.p) + (ParameterText(Q, a.key.q) + (ParameterText(G, a.key.g) + (ParameterText(Y, a.key.y)
               + (ParameterText(X, a.key.x) + Ascii("      )\n"))))))
    ensures FileText([a] + rest) == Ascii("(privkeys\n") + (AccountText(a) + AccountsText(rest))
  {
    hide NameText, ProtocolText, ParameterText, Indent;
    LineStarts();
    AccountLines();
    KeyLines();
    DsaLines();
    assert ([a] + rest)[1..] == rest;
  }

  /** exportAccounts, which appends to a writer. */
  method ExportAccounts(accounts: seq<Account>) returns (out: bytes)
    ensures out == FileText(accounts)
  {
    hide AccountText;
    out := [OPEN] + PRIVKEYS + [NEWLINE];
    var i := 0;
    while i < |accounts|
      invariant 0 <= i <= |accounts|
      invariant out + AccountsText(accounts[i..]) == FileText(accounts)
    {
      assert accounts[i..][1..] == accounts[i + 1..];
      assert out + (AccountText(accounts[i]) + AccountsText(accounts[i + 1..])) == (out + AccountText(accounts[i])) + AccountsText(accounts[i + 1..]);
      out := out + AccountText(accounts[i]);
      i := i + 1;
    }
    out := out + [CLOSE, NEWLINE];
  }

  // ------------------------------------------------------------ import

  /** readSymbolAndExpect */
  function ExpectSymbol(s: bytes, x: bytes): (r: (bool, bytes))
    ensures |r.1| <= |s|
  {
    var (v, _, s1) := ValueOf(s);
    (v == Some(Symbol(x)), s1)
  }

  /** readPotentialStringOrSymbol */
  function TextOf(v: Option<Value>): (bytes, bool) {
    match v
    case Some(Str(x)) => (x, true)
    case Some(Symbol(x)) => (x, true)
    case _ => ([], false)
  }

  function SymbolOf(v: Option<Value>): (bytes, bool) {
    match v
    case Some(Symbol(x)) => (x, true)
    case _ => ([], false)
  }

  function NumberOf(v: Option<Value>): (Option<int>, bool) {
    match v
    case Some(Number(n)) => (n, true)
    case _ => (None, false)
  }

  function ReadName(s: bytes): (r: (bytes, bool, bytes))
    ensures |r.2| <= |s|
  {
    var (_, s1) := Expected(s, OPEN);
    var (ok1, s2) := ExpectSymbol(s1, NAME);
    var (v, _, s3) := ValueOf(s2);
    var (name, ok2) := TextOf(v);
    var (ok3, s4) := Expected(s3, CLOSE);
    (name, ok1 && ok2 && ok3, s4)
  }

  function ReadProtocol(s: bytes): (r: (bytes, bool, bytes))
    ensures |r.2| <= |s|
  {
    var (_, s1) := Expected(s, OPEN);
    var (ok1, s2) := ExpectSymbol(s1, PROTOCOL);
    var (v, _, s3) := ValueOf(s2);
    var (protocol, ok2) := SymbolOf(v);
    var (ok3, s4) := Expected(s3, CLOSE);
    (protocol, ok1 && ok2 && ok3, s4)
  }

  datatype Parameter = End | Bad | Parameter(tag: bytes, value: Option<int>)

  /** readParameter: a parameter that is not closed counts as the end. */
  function ReadParameter(s: bytes): (r: (Parameter, bytes))
    ensures |r.1| <= |s| && (r.0.Parameter? ==> |r.1| < |s|)
  {
    var (open, s1) := Expected(s, OPEN);
    if !open then (End, s1) else
    var (t, _, s2) := ValueOf(s1);
    var (v, _, s3) := ValueOf(s2);
    var (closed, s4) := Expected(s3, CLOSE);
    if !closed then (End, s4)
    else if SymbolOf(t).1 && NumberOf(v).1 then (Parameter(SymbolOf(t).0, NumberOf(v).0), s4)
    else (Bad, s4)
  }

  /** assignParameter */
  function Assigned(k: DsaKey, tag: bytes, v: Option<int>): Option<DsaKey> {
    if tag == G then Some(k.(g := v))
    else if tag == P then Some(k.(p := v))
    else if tag == Q then Some(k.(q := v))
    else if tag == X then Some(k.(x := v))
    else if tag == Y then Some(k.(y := v))
    else None
  }

  function ReadParameters(s: bytes, k: DsaKey): (r: (Option<DsaKey>, bytes))
    ensures |r.1| <= |s|
    decreases |s|
  {
    match ReadParameter(s)
    case (End, s1) => (Some(k), s1)
    case (Bad, s1) => (None, s1)
    case (Parameter(tag, v), s1) =>
      match Assigned(k, tag, v)
      case None => (None, s1)
      case Some(k1) => ReadParameters(s1, k1)
  }

  /** readDSAPrivateKey: None when it failed on a parameter; the bool is the rest of the checks. */
  function ReadDsaKey(s: bytes): (r: (Option<DsaKey>, bool, bytes))
    ensures |r.2| <= |s|
  {
    var (_, s1) := Expected(s, OPEN);
    var (ok1, s2) := ExpectSymbol(s1, DSA);
    var (k, s3) := ReadParameters(s2, NO_KEY);
    if k.None? then (None, false, s3) else
    var (ok2, s4) := Expected(s3, CLOSE);
    (k, ok1 && ok2, s4)
  }

  function ReadKey(s: bytes): (r: (DsaKey, bool, bytes))
    ensures |r.2| <= |s|
  {
    var (_, s1) := Expected(s, OPEN);
    var (ok1, s2) := ExpectSymbol(s1, PRIVATE_KEY);
    var (k, ok2, s3) := ReadDsaKey(s2);
    var (ok3, s4) := Expected(s3, CLOSE);
    (if ok2 && k.Some? then k.value else NO_KEY, ok1 && ok2 && ok3, s4)
  }

  /** readAccount, once its list has started. */
  function ReadAccount(s: bytes): (r: (Account, bool, bytes))
    ensures |r.2| <= |s|
  {
    var (ok1, s1) := ExpectSymbol(s, ACCOUNT);
    var (name, ok2, s2) := ReadName(s1);
    var (protocol, ok3, s3) := ReadProtocol(s2);
    var (key, ok4, s4) := ReadKey(s3);
    var (ok5, s5) := Expected(s4, CLOSE);
    (Account(name, protocol, key), ok1 && ok2 && ok3 && ok4 && ok5, s5)
  }

  function ReadAll(s: bytes): (r: (seq<Account>, bool, bytes))
    ensures |r.2| <= |s|
    decreases |s|
  {
    var (open, s1) := Expected(s, OPEN);
    if !open then ([], true, s1) else
    var (a, ok, s2) := ReadAccount(s1);
    var (more, ok2, s3) := ReadAll(s2);
    ([a] + more, ok && ok2, s3)
  }

  /** readAccounts */
  function ReadFile(s: bytes): (seq<Account>, bool) {
    var (_, s1) := Expected(s, OPEN);
    var (ok1, s2) := ExpectSymbol(s1, PRIVKEYS);
    var (accounts, ok2, s3) := ReadAll(s2);
    (accounts, ok1 && ok2 && Expected(s3, CLOSE).0)
  }

  // ------------------------------------------------------------ import, from a reader

  method ReadSymbolAndExpect(r: Reader, x: bytes) returns (ok: bool)
    requires r.Valid()
    modifies r
    ensures r.Valid() && r.pos >= old(r.pos) && (ok, r.Rest()) == ExpectSymbol(old(r.Rest()), x)
  {
    hide ValueOf;
    var v, _ := r.ReadValue();
    return v == Some(Symbol(x));
  }

  method ReadAccountName(r: Reader) returns (name: bytes, ok: bool)
    requires r.Valid()
    modifies r
    ensures r.Valid() && r.pos >= old(r.pos) && (name, ok, r.Rest()) == ReadName(old(r.Rest()))
  {
    hide ValueOf, Expected, ExpectSymbol;
    var _ := r.Expect(OPEN);
    var ok1 := ReadSymbolAndExpect(r, NAME);
    var v, _ := r.ReadValue();
    var ok3 := r.Expect(CLOSE);
    return TextOf(v).0, ok1 && TextOf(v).1 && ok3;
  }

  method ReadAccountProtocol(r: Reader) returns (protocol: bytes, ok: bool)
    requires r.Valid()
    modifies r
    ensures r.Valid() && r.pos >= old(r.pos) && (protocol, ok, r.Rest()) == ReadProtocol(old(r.Rest()))
  {
    hide ValueOf, Expected, ExpectSymbol;
    var _ := r.Expect(OPEN);
    var ok1 := ReadSymbolAndExpect(r, PROTOCOL);
    var v, _ := r.ReadValue();
    var ok3 := r.Expect(CLOSE);
    return SymbolOf(v).0, ok1 && SymbolOf(v).1 && ok3;
  }

  method ReadOneParameter(r: Reader) returns (param: Parameter)
    requires r.Valid()
    modifies r
    ensures r.Valid() && r.pos >= old(r.pos) && (param, r.Rest()) == ReadParameter(old(r.Rest()))
    ensures param.Parameter? ==> r.pos > old(r.pos)
  {
    hide ValueOf, Expected;
    var open := r.Expect(OPEN);
    if !open {
      return End;
    }
    var t, _ := r.ReadValue();
    var v, _ := r.ReadValue();
    var closed := r.Expect(CLOSE);
    if !closed {
      return End;
    }
    return if SymbolOf(t).1 && NumberOf(v).1 then Parameter(SymbolOf(t).0, NumberOf(v).0) else Bad;
  }

  /** The loop over the parameters, assigning the fields of a new key. */
  method ReadDsaPrivateKey(r: Reader) returns (k: Option<DsaKey>, ok: bool)
    requires r.Valid()
    modifies r
    ensures r.Valid() && r.pos >= old(r.pos) && (k, ok, r.Rest()) == ReadDsaKey(old(r.Rest()))
  {
    hide Expected, ExpectSymbol, ReadParameter, Assigned;
    var _ := r.Expect(OPEN);
    var ok1 := ReadSymbolAndExpect(r, DSA);
    var key := NO_KEY;
    ghost var s := r.Rest();
    while true
      invariant r.Valid() && r.pos >= old(r.pos) && ReadParameters(r.Rest(), key) == ReadParameters(s, NO_KEY)
      decreases |r.data| - r.pos
    {
      var param := ReadOneParameter(r);
      if param.Bad? {
        return None, false;
      }
      if param.End? {
        break;
      }
      var next := Assigned(key, param.tag, param.value);
      if next.None? {
        return None, false;
      }
      key := next.value;
    }
    var ok2 := r.Expect(CLOSE);
    return Some(key), ok1 && ok2;
  }

  method ReadPrivateKey(r: Reader) returns (k: DsaKey, ok: bool)
    requires r.Valid()
    modifies r
    ensures r.Valid() && r.pos >= old(r.pos) && (k, ok, r.Rest()) == ReadKey(old(r.Rest()))
  {
    hide Expected, ExpectSymbol, ReadDsaKey;
    var _ := r.Expect(OPEN);
    var ok1 := ReadSymbolAndExpect(r, PRIVATE_KEY);
    var read, ok2 := ReadDsaPrivateKey(r);
    var ok3 := r.Expect(CLOSE);
    return if ok2 && read.Some? then read.value else NO_KEY, ok1 && ok2 && ok3;
  }

  method ReadAccountFrom(r: Reader) returns (a: Account, ok: bool)
    requires r.Valid()
    modifies r
    ensures r.Valid() && r.pos >= old(r.pos) && (a, ok, r.Rest()) == ReadAccount(old(r.Rest()))
  {
    hide Expected, ExpectSymbol, ReadName, ReadProtocol, ReadKey;
    var ok1 := ReadSymbolAndExpect(r, ACCOUNT);
    var name, ok2 := ReadAccountName(r);
    var protocol, ok3 := ReadAccountProtocol(r);
    var key, ok4 := ReadPrivateKey(r);
    var ok5 := r.Expect(CLOSE);
    return Account(name, protocol, key), ok1 && ok2 && ok3 && ok4 && ok5;
  }

  /** readAccounts: the loop over the accounts of a file. */
  method ReadAccounts(r: Reader) returns (accounts: seq<Account>, ok: bool)
    requires r.Valid()
    modifies r
    ensures r.Valid() && (accounts, ok) == ReadFile(old(r.Rest()))
  {
    hide Expected, ExpectSymbol, ReadAccount;
    var _ := r.Expect(OPEN);
    var ok1 := ReadSymbolAndExpect(r, PRIVKEYS);
    var ok2 := true;
    accounts := [];
    ghost var all := ReadAll(r.Rest());
    assert accounts + all.0 == all.0;
    while true
      invariant r.Valid()
      invariant var (more, ok3, rest) := ReadAll(r.Rest()); (accounts + more, ok2 && ok3, rest) == all
      decreases |r.data| - r.pos
    {
      ghost var s := r.Rest();
      var open := r.Expect(OPEN);
      if !open {
        break;
      }
      ghost var s1 := r.Rest();
      var a, okA := ReadAccountFrom(r);
      assert ReadAll(s).0 == [a] + ReadAll(r.Rest()).0;
      assert accounts + ([a] + ReadAll(r.Rest()).0) == (accounts + [a]) + ReadAll(r.Rest()).0;
      ok2 := ok2 && okA;
      accounts := accounts + [a];
    }
    assert accounts + [] == accounts;
    var ok3 := r.Expect(CLOSE);
    return accounts, ok1 && ok2 && ok3;
  }

  // ------------------------------------------------------------ one field at a time

  lemma IgnoresSpace(c: byte, s: bytes)
    requires IsWhitespace(c)
    ensures forall x :: Expected([c] + s, x) == Expected(s, x)
  {
  }

  lemma {:induction false} HexDigits(v: Option<int>)
    ensures HASH !in HexText(v) && HexValue(HexText(v)) == v
  {
    assert Unsigned(NIL_TEXT, 16).None?;
    match v
    case None =>
    case Some(n) =>
      var digits := Numeral(if n < 0 then -n else n, 16, UPPER_A);
      NumeralReads(if n < 0 then -n else n, 16, UPPER_A);
      assert IsDigit(digits[0], 16);
      assert !IsDigit(HASH, 16);
      if n < 0 {
        assert HexText(v)[1..] == digits;
      }
  }

  lemma NumberReads(v: Option<int>, rest: bytes)
    ensures ValueOf([SPACE, HASH] + HexText(v) + [HASH] + rest) == (Some(Number(v)), false, rest)
  {
    HexDigits(v);
    hide HexText, HexValue, Delimited, Skipped;
    var text := [HASH] + HexText(v) + [HASH] + rest;
    assert [SPACE, HASH] + HexText(v) + [HASH] + rest == [SPACE] + text;
    SkipsSpace([SPACE], text);
    SkippedAlready(text);
    DelimitedReads([], HASH, HexText(v), rest);
    assert [] + [HASH] + HexText(v) + [HASH] + rest == text;
  }

  /** A parameter reads back, whatever its value, nil and negative numbers included. */
  lemma ParameterReads(tag: bytes, v: Option<int>, rest: bytes)
    requires IsSymbol(tag)
    ensures ReadParameter(ParameterText(tag, v) + rest) == (Parameter(tag, v), [NEWLINE] + rest)
  {
    hide HexText, Indent, ValueOf, Expected, IsSymbol;
    var s4 := [NEWLINE] + rest;
    var s3 := [CLOSE] + s4;
    var s2 := [SPACE, HASH] + HexText(v) + [HASH] + s3;
    var s1 := tag + s2;
    assert ParameterText(tag, v) + rest == Indent(8) + [OPEN] + s1;
    ExpectReads(Indent(8), OPEN, s1);
    SymbolReads([], tag, s2);
    assert [] + tag + s2 == s1;
    NumberReads(v, s3);
    ExpectReads([], CLOSE, s4);
    assert [] + [CLOSE] + s4 == s3;
  }

  /** Only a symbol is ever read as one. */
  lemma ReadSymbolsAreSymbols(s: bytes)
    ensures var v := ValueOf(s).0; v.Some? && v.value.Symbol? ==> IsSymbol(v.value.text)
  {
  }

  lemma FieldStarts(indent: nat, sym: bytes, rest: bytes)
    requires IsSymbol(sym) && rest != [] && IsNotSymbolCharacter(rest[0])
    ensures Expected(Indent(indent) + [OPEN] + sym + rest, OPEN) == (true, sym + rest)
    ensures ExpectSymbol(sym + rest, sym) == (true, rest)
  {
    hide Indent, ValueOf, Expected, IsSymbol;
    assert Indent(indent) + [OPEN] + sym + rest == Indent(indent) + [OPEN] + (sym + rest);
    ExpectReads(Indent(indent), OPEN, sym + rest);
    SymbolReads([], sym, rest);
    assert [] + sym + rest == sym + rest;
  }

  lemma StringReads(n: bytes, rest: bytes)
    requires QUOTE !in n
    ensures ValueOf([SPACE, QUOTE] + n + [QUOTE] + rest) == (Some(Str(n)), false, rest)
  {
    hide Delimited, Skipped;
    var text := [QUOTE] + n + [QUOTE] + rest;
    assert [SPACE, QUOTE] + n + [QUOTE] + rest == [SPACE] + text;
    SkipsSpace([SPACE], text);
    SkippedAlready(text);
    DelimitedReads([], QUOTE, n, rest);
    assert [] + [QUOTE] + n + [QUOTE] + rest == text;
  }

  /** An exported name reads back exactly when it holds no double quote. */
  lemma NameReads(n: bytes, rest: bytes)
    ensures ReadName(NameText(n) + rest).0 == n <==> QUOTE !in n
    ensures QUOTE !in n ==> ReadName(NameText(n) + rest) == (n, true, [NEWLINE] + rest)
  {
    hide Indent, ValueOf, Expected, ExpectSymbol;
    var s4 := [NEWLINE] + rest;
    var s3 := [CLOSE] + s4;
    var s2 := [SPACE, QUOTE] + n + [QUOTE] + s3;
    assert NameText(n) + rest == Indent(4) + [OPEN] + NAME + s2;
    assert IsSymbol(NAME);
    FieldStarts(4, NAME, s2);
    if QUOTE in n {
      var i := Reach(n, UntilFixed(QUOTE));
      assert i < |n|;
      var tail := n[i + 1..] + [QUOTE] + s3;
      assert s2 == [SPACE, QUOTE] + n[..i] + [QUOTE] + tail;
      StringReads(n[..i], tail);
    } else {
      StringReads(n, s3);
      ExpectReads([], CLOSE, s4);
      assert [] + [CLOSE] + s4 == s3;
    }
  }

  /** An exported protocol reads back exactly when it is a symbol. */
  lemma ProtocolReads(p: bytes, rest: bytes)
    ensures var (x, ok, _) := ReadProtocol(ProtocolText(p) + rest); x == p && ok <==> IsSymbol(p)
    ensures IsSymbol(p) ==> ReadProtocol(ProtocolText(p) + rest) == (p, true, [NEWLINE] + rest)
  {
    hide Indent, ValueOf, Expected, ExpectSymbol, IsSymbol;
    var s4 := [NEWLINE] + rest;
    var s3 := [CLOSE] + s4;
    var s2 := [SPACE] + p + s3;
    assert ProtocolText(p) + rest == Indent(4) + [OPEN] + PROTOCOL + s2;
    KnownSymbols();
    FieldStarts(4, PROTOCOL, s2);
    ReadSymbolsAreSymbols(s2);
    if IsSymbol(p) {
      SymbolReads([SPACE], p, s3);
      ExpectReads([], CLOSE, s4);
      assert [] + [CLOSE] + s4 == s3;
    }
  }

  lemma KnownSymbols()
    ensures IsSymbol(PRIVKEYS) && IsSymbol(ACCOUNT) && IsSymbol(NAME) && IsSymbol(PROTOCOL) && IsSymbol(PRIVATE_KEY) && IsSymbol(DSA)
    ensures IsSymbol(P) && IsSymbol(Q) && IsSymbol(G) && IsSymbol(Y) && IsSymbol(X)
  {
    hide IsSymbol;
    KnownHeads();
    KnownWords();
    KnownTags();
  }

  lemma KnownHeads()
    ensures IsSymbol(PRIVKEYS) && IsSymbol(ACCOUNT)
  {
  }

  lemma KnownWords()
    ensures IsSymbol(NAME) && IsSymbol(PROTOCOL) && IsSymbol(PRIVATE_KEY) && IsSymbol(DSA)
  {
  }

  lemma KnownTags()
    ensures IsSymbol(P) && IsSymbol(Q) && IsSymbol(G) && IsSymbol(Y) && IsSymbol(X)
  {
  }

  // ------------------------------------------------------------ keys, accounts, files

  lemma OneParameter(tag: bytes, v: Option<int>, k: DsaKey, rest: bytes)
    requires IsSymbol(tag) && Assigned(k, tag, v).Some?
    ensures ReadParameters(ParameterText(tag, v) + rest, k) == ReadParameters(rest, Assigned(k, tag, v).value)
  {
    hide ParameterText, IsSymbol, Assigned, ValueOf, Expected;
    ParameterReads(tag, v, rest);
    LeadingNewline(rest, Assigned(k, tag, v).value);
  }

  lemma LeadingNewline(s: bytes, k: DsaKey)
    ensures ReadParameters([NEWLINE] + s, k) == ReadParameters(s, k)
  {
    hide Expected, ValueOf, Assigned;
    IgnoresSpace(NEWLINE, s);
  }

  /** The close of a list, where another item could start. */
  lemma ClosesHere(space: bytes, s: bytes)
    requires forall c <- space :: IsWhitespace(c)
    ensures Expected(space + [CLOSE, NEWLINE] + s, OPEN) == (false, [CLOSE, NEWLINE] + s)
    ensures Expected(space + [CLOSE, NEWLINE] + s, CLOSE) == (true, [NEWLINE] + s)
    ensures Expected([CLOSE, NEWLINE] + s, CLOSE) == (true, [NEWLINE] + s)
  {
    var text := [CLOSE, NEWLINE] + s;
    assert space + [CLOSE, NEWLINE] + s == space + text;
    SkipsSpace(space, text);
    SkippedAlready(text);
    assert text[1..] == [NEWLINE] + s;
  }

  lemma ParametersRead(k: DsaKey, rest: bytes)
    requires !Expected(rest, OPEN).0
    ensures var text := ParameterText(P, k.p) + (ParameterText(Q, k.q) + (ParameterText(G, k.g) + (ParameterText(Y, k.y) + (ParameterText(X, k.x) + rest))));
            ReadParameters(text, NO_KEY) == (Some(k), Expected(rest, OPEN).1)
  {
    hide ParameterText, Expected, IsSymbol, ReadParameters;
    var t5 := ParameterText(X, k.x) + rest;
    var t4 := ParameterText(Y, k.y) + t5;
    var t3 := ParameterText(G, k.g) + t4;
    var t2 := ParameterText(Q, k.q) + t3;
    KnownSymbols();
    var k1 := NO_KEY.(p := k.p);
    var k2 := k1.(q := k.q);
    var k3 := k2.(g := k.g);
    var k4 := k3.(y := k.y);
    OneParameter(P, k.p, NO_KEY, t2);
    OneParameter(Q, k.q, k1, t3);
    OneParameter(G, k.g, k2, t4);
    OneParameter(Y, k.y, k3, t5);
    OneParameter(X, k.x, k4, rest);
    EndRead(k, rest);
  }

  lemma EndRead(k: DsaKey, rest: bytes)
    requires !Expected(rest, OPEN).0
    ensures ReadParameters(rest, k) == (Some(k), Expected(rest, OPEN).1)
  {
  }

  lemma DsaKeyReads(k: DsaKey, rest: bytes)
    ensures ReadDsaKey(DsaText(k) + rest) == (Some(k), true, [NEWLINE] + rest)
  {
    hide ParameterText, Indent, ValueOf, Expected, ExpectSymbol, IsSymbol, ReadParameters;
    var end := Indent(6) + [CLOSE, NEWLINE] + rest;
    var params := ParameterText(P, k.p) + (ParameterText(Q, k.q) + (ParameterText(G, k.g) + (ParameterText(Y, k.y) + (ParameterText(X, k.x) + end))));
    assert DsaText(k) + rest == Indent(6) + [OPEN] + DSA + ([NEWLINE] + params);
    KnownSymbols();
    FieldStarts(6, DSA, [NEWLINE] + params);
    LeadingNewline(params, NO_KEY);
    ClosesHere(Indent(6), rest);
    ParametersRead(k, end);
  }

  lemma KeyReads(k: DsaKey, rest: bytes)
    ensures ReadKey(KeyText(k) + rest) == (k, true, [NEWLINE] + rest)
  {
    hide DsaText, Indent, ValueOf, Expected, ExpectSymbol, IsSymbol, ReadDsaKey;
    var end := Indent(4) + [CLOSE, NEWLINE] + rest;
    var dsa := DsaText(k) + end;
    assert KeyText(k) + rest == Indent(4) + [OPEN] + PRIVATE_KEY + ([NEWLINE] + dsa);
    KnownSymbols();
    FieldStarts(4, PRIVATE_KEY, [NEWLINE] + dsa);
    DsaKeySkips(dsa);
    DsaKeyReads(k, end);
    IgnoresSpace(NEWLINE, end);
    ClosesHere(Indent(4), rest);
  }

  lemma DsaKeySkips(s: bytes)
    ensures ReadDsaKey([NEWLINE] + s) == ReadDsaKey(s)
  {
    hide Expected, ExpectSymbol, ReadParameters;
    IgnoresSpace(NEWLINE, s);
  }

  lemma FieldsSkip(s: bytes)
    ensures ReadName([NEWLINE] + s) == ReadName(s) && ReadProtocol([NEWLINE] + s) == ReadProtocol(s) && ReadKey([NEWLINE] + s) == ReadKey(s)
  {
    hide Expected, ExpectSymbol, ReadDsaKey, ValueOf;
    IgnoresSpace(NEWLINE, s);
  }

  ghost predicate Exportable(a: Account) {
    QUOTE !in a.name && IsSymbol(a.protocol)
  }

  /** An exported account reads back exactly when its name holds no double quote and its protocol is
      a symbol. */
  lemma AccountReads(a: Account, rest: bytes)
    ensures var text := AccountText(a) + rest; var s1 := Expected(text, OPEN).1;
            && Expected(text, OPEN).0
            && (var (b, ok, _) := ReadAccount(s1); b == a && ok <==> Exportable(a))
            && (Exportable(a) ==> ReadAccount(s1) == (a, true, [NEWLINE] + rest))
  {
    hide NameText, ProtocolText, KeyText, Indent, ValueOf, Expected, ExpectSymbol, IsSymbol, ReadName, ReadProtocol, ReadKey;
    var end := Indent(2) + [CLOSE, NEWLINE] + rest;
    var s4 := KeyText(a.key) + end;
    var s3 := ProtocolText(a.protocol) + s4;
    var s2 := NameText(a.name) + s3;
    assert AccountText(a) + rest == Indent(2) + [OPEN] + ACCOUNT + ([NEWLINE] + s2);
    KnownSymbols();
    FieldStarts(2, ACCOUNT, [NEWLINE] + s2);
    FieldsSkip(s2);
    NameReads(a.name, s3);
    FieldsSkip(s3);
    ProtocolReads(a.protocol, s4);
    FieldsSkip(s4);
    KeyReads(a.key, end);
    IgnoresSpace(NEWLINE, end);
    ClosesHere(Indent(2), rest);
  }

  lemma AllSkip(s: bytes)
    ensures ReadAll([NEWLINE] + s) == ReadAll(s)
  {
    hide Expected, ReadAccount;
    IgnoresSpace(NEWLINE, s);
  }

  lemma {:induction false} AllRead(accounts: seq<Account>)
    ensures var (read, ok, rest) := ReadAll(AccountsText(accounts));
            && (read == accounts && ok <==> forall a <- accounts :: Exportable(a))
            && ((forall a <- accounts :: Exportable(a)) ==> rest == [CLOSE, NEWLINE])
  {
    hide AccountText, Expected, ReadAccount, Exportable;
    if accounts == [] {
      ClosesHere([], []);
      assert [] + [CLOSE, NEWLINE] + [] == [CLOSE, NEWLINE] && [CLOSE, NEWLINE] + [] == [CLOSE, NEWLINE];
    } else {
      var a, more := accounts[0], accounts[1..];
      AccountReads(a, AccountsText(more));
      AllRead(more);
      AllSkip(AccountsText(more));
      assert accounts == [a] + more;
    }
  }

  /** An exported file of any number of accounts reads back unchanged exactly when every name is free
      of double quotes and every protocol is a symbol. */
  lemma FileRoundTrip(accounts: seq<Account>)
    ensures ReadFile(FileText(accounts)) == (accounts, true) <==> forall a <- accounts :: Exportable(a)
  {
    hide AccountsText, Expected, ExpectSymbol, ReadAll, IsSymbol, Exportable;
    var s2 := [NEWLINE] + AccountsText(accounts);
    assert FileText(accounts) == Indent(0) + [OPEN] + PRIVKEYS + s2;
    KnownSymbols();
    FieldStarts(0, PRIVKEYS, s2);
    AllSkip(AccountsText(accounts));
    AllRead(accounts);
    ClosesHere([], []);
    assert [CLOSE, NEWLINE] + [] == [CLOSE, NEWLINE];
  }
}
