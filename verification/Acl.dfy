/** Printing Windows access masks and access control entries, and reading them back. */
module Acl {
  import opened Seqs
  import opened Wrappers

  const DELETE: bv32 := 0x0001_0000
  const READ_CONTROL: bv32 := 0x0002_0000
  const WRITE_DAC: bv32 := 0x0004_0000
  const WRITE_OWNER: bv32 := 0x0008_0000
  const SYNCHRONIZE: bv32 := 0x0010_0000
  const ACCESS_SYSTEM_SECURITY: bv32 := 0x0100_0000
  const MAXIMUM_ALLOWED: bv32 := 0x0200_0000
  const GENERIC_ALL: bv32 := 0x1000_0000
  const GENERIC_EXECUTE: bv32 := 0x2000_0000
  const GENERIC_WRITE: bv32 := 0x4000_0000
  const GENERIC_READ: bv32 := 0x8000_0000
  const READ_DATA: bv32 := 0x0001
  const WRITE_DATA: bv32 := 0x0002
  const APPEND_DATA: bv32 := 0x0004
  const READ_EA: bv32 := 0x0008
  const WRITE_EA: bv32 := 0x0010
  const EXECUTE: bv32 := 0x0020
  const DELETE_CHILD: bv32 := 0x0040
  const READ_ATTRIBUTES: bv32 := 0x0080
  const WRITE_ATTRIBUTES: bv32 := 0x0100
  const STANDARD_RIGHTS_REQUIRED: bv32 := 0x000F_0000

  const FILE_GENERIC_READ: bv32 := READ_CONTROL | READ_DATA | READ_ATTRIBUTES | READ_EA | SYNCHRONIZE
  const FILE_GENERIC_WRITE: bv32 :=
    READ_CONTROL | WRITE_DATA | WRITE_ATTRIBUTES | WRITE_EA | APPEND_DATA | SYNCHRONIZE
  const FILE_GENERIC_EXECUTE: bv32 := READ_CONTROL | READ_ATTRIBUTES | EXECUTE | SYNCHRONIZE
  const FILE_ALL_ACCESS: bv32 := STANDARD_RIGHTS_REQUIRED | SYNCHRONIZE | 0x1FF
  const MODIFY: bv32 := FILE_GENERIC_READ | FILE_GENERIC_WRITE | FILE_GENERIC_EXECUTE | DELETE
  const READ_EXECUTE: bv32 := FILE_GENERIC_READ | FILE_GENERIC_EXECUTE

  datatype Right = Right(mask: bv32, token: string)

  // The named rights, in printing order.
  const RIGHTS: seq<Right> := [
    Right(DELETE, "DE"), Right(READ_CONTROL, "RC"), Right(WRITE_DAC, "WDAC"), Right(WRITE_OWNER, "WO"),
    Right(SYNCHRONIZE, "S"), Right(ACCESS_SYSTEM_SECURITY, "AS"), Right(MAXIMUM_ALLOWED, "MA"),
    Right(GENERIC_READ, "GR"), Right(GENERIC_WRITE, "GW"), Right(GENERIC_EXECUTE, "GE"), Right(GENERIC_ALL, "GA"),
    Right(READ_DATA, "RD"), Right(WRITE_DATA, "WD"), Right(APPEND_DATA, "AD"), Right(READ_EA, "REA"),
    Right(WRITE_EA, "WEA"), Right(EXECUTE, "X"), Right(DELETE_CHILD, "DC"), Right(READ_ATTRIBUTES, "RA"),
    Right(WRITE_ATTRIBUTES, "WA")]

  // The groups that may stand before the rights of an entry.
  const FLAG_NAMES: set<string> := {"I", "DENY", "OI", "CI", "IO", "NP"}

  // ---------- hexadecimal ----------

  function HexDigit(d: bv32): char {
    if d == 0 then '0' else if d == 1 then '1' else if d == 2 then '2' else if d == 3 then '3'
    else if d == 4 then '4' else if d == 5 then '5' else if d == 6 then '6' else if d == 7 then '7'
    else if d == 8 then '8' else if d == 9 then '9' else if d == 10 then 'A' else if d == 11 then 'B'
    else if d == 12 then 'C' else if d == 13 then 'D' else if d == 14 then 'E' else 'F'
  }

  function DigitValue(c: char): bv32 {
    if c == '0' then 0 else if c == '1' then 1 else if c == '2' then 2 else if c == '3' then 3
    else if c == '4' then 4 else if c == '5' then 5 else if c == '6' then 6 else if c == '7' then 7
    else if c == '8' then 8 else if c == '9' then 9 else if c == 'A' then 10 else if c == 'B' then 11
    else if c == 'C' then 12 else if c == 'D' then 13 else if c == 'E' then 14 else 15
  }

  // Upper-case digits, without leading zeros.
  function Hex(x: bv32): (s: string)
    ensures s != []
  {
    if x < 16 then [HexDigit(x)] else Hex(x >> 4) + [HexDigit(x & 0xF)]
  }

  function HexValue(s: string): bv32 {
    if s == [] then 0 else (HexValue(s[..|s| - 1]) << 4) | DigitValue(s[|s| - 1])
  }

  lemma DigitRoundTrip(d: bv32)
    requires d < 16
    ensures DigitValue(HexDigit(d)) == d
  {
  }

  lemma Appended(s: string, c: char)
    ensures HexValue(s + [c]) == (HexValue(s) << 4) | DigitValue(c)
  {
    assert (s + [c])[..|s|] == s;
  }

  lemma HexOfDigit(x: bv32)
    requires x < 16
    ensures HexValue(Hex(x)) == x
  {
    Appended([], HexDigit(x));
    DigitRoundTrip(x);
    assert [] + [HexDigit(x)] == Hex(x);
  }

  lemma {:induction false} HexRoundTrip(x: bv32)
    ensures HexValue(Hex(x)) == x
  {
    if x < 16 {
      HexOfDigit(x);
    } else {
      HexRoundTrip(x >> 4);
      var d := x & 0xF;
      DigitRoundTrip(d);
      Appended(Hex(x >> 4), HexDigit(d));
    }
  }

  // ---------- printing rights ----------

  predicate Has(mask: bv32, m: bv32) {
    mask & m == m
  }

  function Clear(x: bv32, m: bv32): bv32 {
    x & !m
  }

  function Union(x: bv32, y: bv32): bv32 {
    x | y
  }

  // The rights of a table that a mask holds.
  function Held(mask: bv32, table: seq<Right>): seq<Right> {
    if table == [] then []
    else if Has(mask, table[0].mask) then [table[0]] + Held(mask, table[1..])
    else Held(mask, table[1..])
  }

  function TokensOf(held: seq<Right>): seq<string> {
    if held == [] then [] else [held[0].token] + TokensOf(held[1..])
  }

  function Cleared(held: seq<Right>, remaining: bv32): bv32 {
    if held == [] then remaining else Cleared(held[1..], Clear(remaining, held[0].mask))
  }

  function Join(tokens: seq<string>): string {
    if tokens == [] then ""
    else if |tokens| == 1 then tokens[0]
    else tokens[0] + "," + Join(tokens[1..])
  }

  // The single letters, for masks that are exactly a well-known composite.
  function Composite(mask: bv32): Option<string> {
    if mask == 0 then Some("N")
    else if mask == GENERIC_ALL || mask == FILE_ALL_ACCESS then Some("F")
    else if mask == MODIFY then Some("M")
    else if mask == READ_EXECUTE then Some("RX")
    else if mask == FILE_GENERIC_READ then Some("R")
    else if mask == FILE_GENERIC_WRITE then Some("W")
    else if mask == DELETE then Some("D")
    else None
  }

  // The tokens of the rights held, and the bits without a name as a number.
  function AllTokens(mask: bv32): seq<string> {
    var held := Held(mask, RIGHTS);
    WithRest(TokensOf(held), Cleared(held, mask))
  }

  function WithRest(tokens: seq<string>, rest: bv32): seq<string> {
    if rest != 0 then tokens + ["0x" + Hex(rest)] else tokens
  }

  function RightsText(mask: bv32): string {
    var c := Composite(mask);
    if c.Some? then c.value
    else if AllTokens(mask) == [] then "N"
    else Join(AllTokens(mask))
  }

  method FormatAceRights(mask: bv32) returns (text: string)
    ensures text == RightsText(mask)
    ensures mask == 0 ==> text == "N"
    ensures mask == 0x1000_0000 || mask == 0x1F_01FF ==> text == "F"
    ensures mask == 0x13_01BF ==> text == "M"
    ensures mask == 0x12_00A9 ==> text == "RX"
    ensures mask == 0x12_0089 ==> text == "R"
    ensures mask == 0x12_0116 ==> text == "W"
    ensures mask == 0x1_0000 ==> text == "D"
  {
    var c := Composite(mask);
    if c.Some? {
      return c.value;
    }
    var tokens, remaining := NameRights(mask, RIGHTS);
    if remaining != 0 {
      tokens := tokens + ["0x" + Hex(remaining)];
    }
    text := if |tokens| == 0 then "N" else Join(tokens);
  }

  // What one more right adds to the tokens and takes from the bits.
  lemma OneMoreRight(r: Right, rest: seq<Right>, tokens: seq<string>, remaining: bv32)
    ensures tokens + TokensOf([r] + rest) == tokens + [r.token] + TokensOf(rest)
    ensures Cleared([r] + rest, remaining) == Cleared(rest, Clear(remaining, r.mask))
  {
    assert ([r] + rest)[1..] == rest;
  }

  // The loop over the vocabulary: the tokens of the rights held, and the bits without a name.
  method NameRights(mask: bv32, table: seq<Right>) returns (tokens: seq<string>, remaining: bv32)
    ensures tokens == TokensOf(Held(mask, table))
    ensures remaining == Cleared(Held(mask, table), mask)
  {
    tokens, remaining := [], mask;
    var i := 0;
    assert table[0..] == table;
    while i < |table|
      invariant 0 <= i <= |table|
      invariant TokensOf(Held(mask, table)) == tokens + TokensOf(Held(mask, table[i..]))
      invariant Cleared(Held(mask, table), mask) == Cleared(Held(mask, table[i..]), remaining)
    {
      var r := table[i];
      OneMoreRight(r, Held(mask, table[i + 1..]), tokens, remaining);
      if Has(mask, r.mask) {
        tokens := tokens + [r.token];
        remaining := Clear(remaining, r.mask);
      }
      i := i + 1;
    }
  }

  // ---------- reading rights ----------

  // The masks of the single letters, as numbers.
  function CompositeMask(text: string): Option<bv32> {
    if text == "N" then Some(0)
    else if text == "F" then Some(0x1F_01FF)
    else if text == "M" then Some(0x13_01BF)
    else if text == "RX" then Some(0x12_00A9)
    else if text == "R" then Some(0x12_0089)
    else if text == "W" then Some(0x12_0116)
    else if text == "D" then Some(0x1_0000)
    else None
  }

  // The bits of the named rights, as numbers.
  function NameMask(token: string): Option<bv32> {
    if token == "RD" then Some(0x1) else if token == "WD" then Some(0x2)
    else if token == "AD" then Some(0x4) else if token == "REA" then Some(0x8)
    else if token == "WEA" then Some(0x10) else if token == "X" then Some(0x20)
    else if token == "DC" then Some(0x40) else if token == "RA" then Some(0x80)
    else if token == "WA" then Some(0x100) else if token == "DE" then Some(0x1_0000)
    else if token == "RC" then Some(0x2_0000) else if token == "WDAC" then Some(0x4_0000)
    else if token == "WO" then Some(0x8_0000) else if token == "S" then Some(0x10_0000)
    else if token == "AS" then Some(0x100_0000) else if token == "MA" then Some(0x200_0000)
    else if token == "GA" then Some(0x1000_0000) else if token == "GE" then Some(0x2000_0000)
    else if token == "GW" then Some(0x4000_0000) else if token == "GR" then Some(0x8000_0000)
    else None
  }

  function TokenMask(token: string): bv32 {
    var named := NameMask(token);
    if named.Some? then named.value else HexValue(token[if |token| < 2 then |token| else 2..])
  }

  function AnyOf(tokens: seq<string>): bv32 {
    if tokens == [] then 0 else Union(TokenMask(tokens[0]), AnyOf(tokens[1..]))
  }

  // The stretches between commas.
  function SplitOnCommas(s: string): seq<string> {
    if s == [] then [[]]
    else
      var rest := SplitOnCommas(s[1..]);
      if s[0] == ',' then [[]] + rest
      else if rest == [] then [[s[0]]]
      else [[s[0]] + rest[0]] + rest[1..]
  }

  function RightsOf(text: string): bv32 {
    var c := CompositeMask(text);
    if c.Some? then c.value else AnyOf(SplitOnCommas(text))
  }

  // ---------- no bit is lost ----------

  function MasksOf(held: seq<Right>): bv32 {
    if held == [] then 0 else Union(held[0].mask, MasksOf(held[1..]))
  }

  lemma ClearOne(mask: bv32, m: bv32, remaining: bv32, seen: bv32)
    requires Has(mask, m) && Union(remaining, seen) == mask
    ensures Union(Clear(remaining, m), Union(seen, m)) == mask
  {
    ClearBits(m, remaining, seen);
  }

  lemma ClearBits(m: bv32, r: bv32, s: bv32)
    requires (r | s) & m == m
    ensures (r & !m) | (s | m) == r | s
  {
    assert (r & !m) | m == r | m;
  }

  lemma UnionZero(a: bv32)
    ensures Union(a, 0) == a && Union(0, a) == a
  {
  }

  lemma UnionCommutes(a: bv32, b: bv32)
    ensures Union(a, b) == Union(b, a)
  {
  }

  // Whatever is not named is left over.
  lemma {:induction false} NothingLost(mask: bv32, held: seq<Right>, remaining: bv32, seen: bv32)
    requires Union(remaining, seen) == mask
    requires forall i :: 0 <= i < |held| ==> Has(mask, held[i].mask)
    ensures Union(Cleared(held, remaining), Union(seen, MasksOf(held))) == mask
  {
    if held == [] {
      UnionZero(seen);
    } else {
      var m := held[0].mask;
      ClearOne(mask, m, remaining, seen);
      NothingLost(mask, held[1..], Clear(remaining, m), Union(seen, m));
    }
  }

  // ---------- the printing order ----------

  /** The named rights, with their bits as numbers, in the order in which they are printed. */
  lemma PrintingOrder(i: nat)
    requires i < 20
    ensures |RIGHTS| == 20 && RIGHTS[i].token ==
      ["DE", "RC", "WDAC", "WO", "S", "AS", "MA", "GR", "GW", "GE", "GA",
       "RD", "WD", "AD", "REA", "WEA", "X", "DC", "RA", "WA"][i]
  {
  }

  function IsHeld(mask: bv32): Right -> bool {
    (r: Right) => Has(mask, r.mask)
  }

  function TokenOf(): (Right, string) -> bool {
    (r: Right, token: string) => token == r.token
  }

  lemma {:induction false} HeldLast(mask: bv32, table: seq<Right>, r: Right)
    ensures TokensOf(Held(mask, table + [r])) ==
      TokensOf(Held(mask, table)) + if Has(mask, r.mask) then [r.token] else []
  {
    if table == [] {
      assert table + [r] == [r] && [r][1..] == [] && Held(mask, []) == [];
    } else {
      assert (table + [r])[1..] == table[1..] + [r];
      HeldLast(mask, table[1..], r);
    }
  }

  /** The tokens printed are those of the rights held, in the order of the table. */
  lemma {:induction false} TokensInOrder(mask: bv32, table: seq<Right>) returns (at: seq<nat>)
    ensures Picks(table, at, TokensOf(Held(mask, table)), IsHeld(mask), TokenOf())
  {
    if table == [] {
      at := [];
    } else {
      var n := |table| - 1;
      at := TokensInOrder(mask, table[..n]);
      assert table == table[..n] + [table[n]];
      HeldLast(mask, table[..n], table[n]);
      var before := TokensOf(Held(mask, table[..n]));
      at := PicksNext(table[..n], at, before, IsHeld(mask), TokenOf(), table[n], table[n].token);
    }
  }

  // ---------- tokens are told apart ----------

  lemma StandardNamesAreRead()
    ensures forall i :: 0 <= i < 7 ==> NameMask(RIGHTS[i].token) == Some(RIGHTS[i].mask)
  {
  }

  lemma GenericNamesAreRead()
    ensures forall i :: 7 <= i < 14 ==> NameMask(RIGHTS[i].token) == Some(RIGHTS[i].mask)
  {
  }

  /** The printing table agrees with the values that the names stand for. */
  lemma NamesAreRead(r: Right)
    requires r in RIGHTS
    ensures NameMask(r.token) == Some(r.mask)
  {
    StandardNamesAreRead();
    GenericNamesAreRead();
  }

  lemma {:induction false} HeldIsPart(mask: bv32, table: seq<Right>)
    ensures forall i :: 0 <= i < |Held(mask, table)| ==> Has(mask, Held(mask, table)[i].mask)
    ensures forall i :: 0 <= i < |Held(mask, table)| ==> Held(mask, table)[i] in table
  {
    if table != [] {
      HeldIsPart(mask, table[1..]);
    }
  }

  lemma NumberRead(x: bv32)
    ensures TokenMask("0x" + Hex(x)) == x
  {
    var text := "0x" + Hex(x);
    assert text[0] == '0' && text[2..] == Hex(x);
    HexRoundTrip(x);
  }

  // Named rights are read back as their bits.
  lemma {:induction false} NamesRead(held: seq<Right>)
    requires forall i :: 0 <= i < |held| ==> held[i] in RIGHTS
    ensures AnyOf(TokensOf(held)) == MasksOf(held)
  {
    if held != [] {
      assert held[0] in RIGHTS;
      NamesAreRead(held[0]);
      NamesRead(held[1..]);
      assert TokensOf(held)[1..] == TokensOf(held[1..]);
    }
  }

  lemma {:induction false} LastRead(tokens: seq<string>, last: string)
    ensures AnyOf(tokens + [last]) == Union(AnyOf(tokens), TokenMask(last))
  {
    if tokens == [] {
      assert ([] + [last])[1..] == [];
      UnionZero(TokenMask(last));
    } else {
      assert (tokens + [last])[1..] == tokens[1..] + [last];
      LastRead(tokens[1..], last);
    }
  }

  // The tokens of a mask, read as numbers, make up the mask.
  lemma TokensRead(mask: bv32)
    ensures AnyOf(AllTokens(mask)) == mask
  {
    var held := Held(mask, RIGHTS);
    var rest := Cleared(held, mask);
    HeldIsPart(mask, RIGHTS);
    NamesRead(held);
    UnionZero(mask);
    NothingLost(mask, held, mask, 0);
    UnionZero(MasksOf(held));
    UnionCommutes(rest, MasksOf(held));
    if rest != 0 {
      NumberRead(rest);
      LastRead(TokensOf(held), "0x" + Hex(rest));
    }
  }

  // ---------- splitting undoes joining ----------

  lemma {:induction false} SplitWord(a: string)
    requires ',' !in a
    ensures SplitOnCommas(a) == [a]
  {
    if a != [] {
      assert ',' !in a[1..];
      SplitWord(a[1..]);
      assert [a[0]] + a[1..] == a;
    }
  }

  lemma {:induction false} SplitFirst(a: string, s: string)
    requires ',' !in a
    ensures SplitOnCommas(a + "," + s) == [a] + SplitOnCommas(s)
  {
    var text := a + "," + s;
    if a == [] {
      assert text[1..] == s && text[0] == ',';
    } else {
      assert text[0] == a[0] && a[0] in a && text[1..] == a[1..] + "," + s;
      assert ',' !in a[1..];
      SplitFirst(a[1..], s);
      assert [a[0]] + a[1..] == a;
    }
  }

  lemma {:induction false} SplitUndoesJoin(tokens: seq<string>)
    requires tokens != [] && forall i :: 0 <= i < |tokens| ==> ',' !in tokens[i]
    ensures SplitOnCommas(Join(tokens)) == tokens
  {
    if |tokens| == 1 {
      SplitWord(tokens[0]);
    } else {
      SplitUndoesJoin(tokens[1..]);
      SplitFirst(tokens[0], Join(tokens[1..]));
      assert [tokens[0]] + tokens[1..] == tokens;
    }
  }

  // ---------- no list of tokens is taken for a composite ----------

  ghost predicate IsHexDigit(c: char) {
    '0' <= c <= '9' || 'A' <= c <= 'F'
  }

  lemma DigitIsHex(d: bv32)
    ensures IsHexDigit(HexDigit(d))
  {
  }

  lemma {:induction false} HexIsDigits(x: bv32)
    ensures forall i :: 0 <= i < |Hex(x)| ==> IsHexDigit(Hex(x)[i])
  {
    if x < 16 {
      DigitIsHex(x);
    } else {
      HexIsDigits(x >> 4);
      DigitIsHex(x & 0xF);
    }
  }

  lemma NumberIsNumber(x: bv32)
    ensures IsNumber("0x" + Hex(x))
  {
    HexIsDigits(x);
  }

  ghost predicate IsNumber(token: string) {
    |token| > 2 && token[0] == '0' && token[1] == 'x' &&
    forall i :: 2 <= i < |token| ==> IsHexDigit(token[i])
  }

  // A token is the name of a right or a number.
  ghost predicate IsToken(token: string) {
    (exists i :: 0 <= i < |RIGHTS| && RIGHTS[i].token == token) || IsNumber(token)
  }

  ghost predicate Unpunctuated(token: string) {
    ',' !in token && ')' !in token && '(' !in token && ':' !in token
  }

  // What is true of every token: no punctuation, and neither a composite nor a flag.
  ghost predicate TokenLike(token: string) {
    Unpunctuated(token) && CompositeMask(token).None? && token !in FLAG_NAMES
  }

  lemma NamesAreUnpunctuated()
    ensures forall i :: 0 <= i < |RIGHTS| ==> Unpunctuated(RIGHTS[i].token)
  {
  }

  lemma NamesAreNoFlags()
    ensures forall i :: 0 <= i < |RIGHTS| ==> RIGHTS[i].token !in FLAG_NAMES
  {
  }

  lemma NumberIsTokenLike(token: string)
    requires IsNumber(token)
    ensures TokenLike(token)
  {
  }

  lemma TokenShape(token: string)
    requires IsToken(token)
    ensures TokenLike(token)
  {
    if IsNumber(token) {
      NumberIsTokenLike(token);
    } else {
      NamesAreUnpunctuated();
      NamesAreNoFlags();
    }
  }

  lemma {:induction false} NamesAreTokens(held: seq<Right>)
    requires forall i :: 0 <= i < |held| ==> held[i] in RIGHTS
    ensures forall i :: 0 <= i < |TokensOf(held)| ==> IsToken(TokensOf(held)[i])
  {
    if held != [] {
      assert held[0] in RIGHTS;
      NamesAreTokens(held[1..]);
    }
  }

  lemma AllAreTokens(mask: bv32)
    ensures forall i :: 0 <= i < |AllTokens(mask)| ==> IsToken(AllTokens(mask)[i])
  {
    var held := Held(mask, RIGHTS);
    HeldIsPart(mask, RIGHTS);
    NamesAreTokens(held);
    NumberIsNumber(Cleared(held, mask));
  }

  lemma {:induction false} JoinedShape(tokens: seq<string>)
    requires tokens != [] && forall i :: 0 <= i < |tokens| ==> IsToken(tokens[i])
    ensures |tokens| > 1 ==> ',' in Join(tokens)
    ensures ')' !in Join(tokens) && '(' !in Join(tokens) && ':' !in Join(tokens)
  {
    TokenShape(tokens[0]);
    if |tokens| > 1 {
      JoinedShape(tokens[1..]);
    }
  }

  lemma CompositeHasNoComma(text: string)
    requires CompositeMask(text).Some? || text in FLAG_NAMES
    ensures ',' !in text
  {
  }

  lemma JoinedIsNoComposite(tokens: seq<string>)
    requires tokens != [] && forall i :: 0 <= i < |tokens| ==> IsToken(tokens[i])
    ensures CompositeMask(Join(tokens)).None?
    ensures Join(tokens) !in FLAG_NAMES
  {
    JoinedShape(tokens);
    TokenShape(tokens[0]);
    if CompositeMask(Join(tokens)).Some? || Join(tokens) in FLAG_NAMES {
      CompositeHasNoComma(Join(tokens));
    }
  }

  lemma CompositeRead(mask: bv32)
    requires Composite(mask).Some?
    ensures CompositeMask(Composite(mask).value) == Some(if mask == GENERIC_ALL then FILE_ALL_ACCESS else mask)
  {
  }

  /**
   Every mask is recovered from its printed text, except that generic-all reads back as full file
   access, with which it shares its letter.
   */
  lemma RightsRoundTrip(mask: bv32)
    ensures RightsOf(RightsText(mask)) == if mask == 0x1000_0000 then 0x1F_01FF else mask
  {
    if Composite(mask).Some? {
      CompositeRead(mask);
    } else {
      TokensRead(mask);
      var tokens := AllTokens(mask);
      if tokens != [] {
        AllAreTokens(mask);
        JoinedIsNoComposite(tokens);
        forall i | 0 <= i < |tokens|
          ensures ',' !in tokens[i]
        {
          TokenShape(tokens[i]);
        }
        SplitUndoesJoin(tokens);
      }
    }
  }

  /**
   A mask without a letter of its own is printed as the tokens of the rights it holds, in the order of the
   table, and then the bits that have no name, with commas between them.
   */
  lemma RightsListed(mask: bv32) returns (named: seq<string>, at: seq<nat>, rest: bv32)
    requires Composite(mask).None?
    ensures Picks(RIGHTS, at, named, IsHeld(mask), TokenOf()) && Union(AnyOf(named), rest) == mask
    ensures SplitOnCommas(RightsText(mask)) == named + if rest != 0 then ["0x" + Hex(rest)] else []
  {
    named, rest := TokensOf(Held(mask, RIGHTS)), Cleared(Held(mask, RIGHTS), mask);
    at := TokensInOrder(mask, RIGHTS);
    TokensRead(mask);
    AllAreTokens(mask);
    var tokens := AllTokens(mask);
    assert tokens == named + if rest != 0 then ["0x" + Hex(rest)] else [];
    if rest != 0 {
      NumberRead(rest);
      LastRead(named, "0x" + Hex(rest));
    } else {
      UnionZero(AnyOf(named));
    }
    forall i | 0 <= i < |tokens|
      ensures ',' !in tokens[i]
    {
      TokenShape(tokens[i]);
    }
    SplitUndoesJoin(tokens);
  }

  /** Two masks print alike exactly when they are equal or are the two spellings of full control. */
  lemma SameTextSameRights(a: bv32, b: bv32)
    ensures RightsText(a) == RightsText(b) <==>
      a == b || {a, b} == {0x1000_0000, 0x1F_01FF}
  {
    RightsRoundTrip(a);
    RightsRoundTrip(b);
  }

  // ---------- entries ----------

  const OBJECT_INHERIT: bv8 := 0x1
  const CONTAINER_INHERIT: bv8 := 0x2
  const NO_PROPAGATE_INHERIT: bv8 := 0x4
  const INHERIT_ONLY: bv8 := 0x8
  const INHERITED: bv8 := 0x10

  const ACCESS_DENIED: bv8 := 0x1

  lemma Reassociate(a: string, b: string, c: string)
    ensures a + (b + c) == a + b + c
  {
  }

  function Group(name: string): string {
    "(" + name + ")"
  }

  // The names that are present, each in parentheses.
  function Groups(names: seq<string>, present: seq<bool>): string
    requires |names| == |present|
  {
    if names == [] then ""
    else if present[0] then Group(names[0]) + Groups(names[1..], present[1..])
    else Groups(names[1..], present[1..])
  }

  const GROUP_NAMES: seq<string> := ["I", "DENY", "OI", "CI", "IO", "NP"]

  // Which groups an entry shows, in the order of their names.
  function Shown(aceType: bv8, aceFlags: bv8): (present: seq<bool>)
    ensures |present| == 6
  {
    [aceFlags & INHERITED != 0, aceType == ACCESS_DENIED, aceFlags & OBJECT_INHERIT != 0,
     aceFlags & CONTAINER_INHERIT != 0, aceFlags & INHERIT_ONLY != 0, aceFlags & NO_PROPAGATE_INHERIT != 0]
  }

  datatype Flag = Flag(bit: bv8, token: string)

  // The inheritance flags, in printing order.
  const INHERIT_FLAGS: seq<Flag> := [
    Flag(OBJECT_INHERIT, "OI"), Flag(CONTAINER_INHERIT, "CI"), Flag(INHERIT_ONLY, "IO"),
    Flag(NO_PROPAGATE_INHERIT, "NP")]

  function FlagGroups(aceFlags: bv8, table: seq<Flag>): string {
    if table == [] then ""
    else if aceFlags & table[0].bit != 0 then Group(table[0].token) + FlagGroups(aceFlags, table[1..])
    else FlagGroups(aceFlags, table[1..])
  }

  function Showing(text: string, b: bool, name: string): string {
    if b then text + Group(name) else text
  }

  function AceText(principal: string, aceType: bv8, aceFlags: bv8, mask: bv32): string {
    Showing(Showing(principal + ":", aceFlags & INHERITED != 0, "I"), aceType == ACCESS_DENIED, "DENY")
    + FlagGroups(aceFlags, INHERIT_FLAGS) + Group(RightsText(mask))
  }

  // The groups of the inheritance flags in the order they are printed, with the bits as numbers.
  function Flags(oi: bool, ci: bool, io: bool, np: bool): string {
    (if oi then "(OI)" else "") + ((if ci then "(CI)" else "")
      + ((if io then "(IO)" else "") + if np then "(NP)" else ""))
  }

  lemma FlagsWritten(aceFlags: bv8)
    ensures FlagGroups(aceFlags, INHERIT_FLAGS) ==
      Flags(aceFlags & 0x1 != 0, aceFlags & 0x2 != 0, aceFlags & 0x8 != 0, aceFlags & 0x4 != 0)
  {
    var t1, t2, t3 := INHERIT_FLAGS[1..], INHERIT_FLAGS[1..][1..], INHERIT_FLAGS[1..][1..][1..];
    assert t3 == [INHERIT_FLAGS[3]] && [INHERIT_FLAGS[3]][1..] == [];
    assert Group("OI") == "(OI)" && Group("CI") == "(CI)" && Group("IO") == "(IO)" && Group("NP") == "(NP)";
    var np := if aceFlags & 0x4 != 0 then "(NP)" else "";
    assert FlagGroups(aceFlags, t3) == np;
    var io := (if aceFlags & 0x8 != 0 then "(IO)" else "") + np;
    assert FlagGroups(aceFlags, t2) == io;
    var ci := (if aceFlags & 0x2 != 0 then "(CI)" else "") + io;
    assert FlagGroups(aceFlags, t1) == ci;
    assert FlagGroups(aceFlags, INHERIT_FLAGS) == (if aceFlags & 0x1 != 0 then "(OI)" else "") + ci;
  }

  method FormatAce(principal: string, aceType: bv8, aceFlags: bv8, mask: bv32) returns (text: string)
    ensures text == AceText(principal, aceType, aceFlags, mask)
    ensures text ==
      principal + ":" + (if aceFlags & 0x10 != 0 then "(I)" else "") + (if aceType == 1 then "(DENY)" else "")
      + Flags(aceFlags & 0x1 != 0, aceFlags & 0x2 != 0, aceFlags & 0x8 != 0, aceFlags & 0x4 != 0)
      + ("(" + RightsText(mask) + ")")
  {
    FlagsWritten(aceFlags);
    assert Group("I") == "(I)" && Group("DENY") == "(DENY)";
    text := principal + ":";
    assert text + "" == text && text + "(I)" + "" == text + "(I)";
    if aceFlags & INHERITED != 0 {
      text := text + Group("I");
    }
    if aceType == ACCESS_DENIED {
      text := text + Group("DENY");
    }
    var flags := ShowFlags(aceFlags, INHERIT_FLAGS);
    var rights := FormatAceRights(mask);
    text := text + flags + Group(rights);
  }

  lemma NextFlag(aceFlags: bv8, table: seq<Flag>, i: nat, text: string)
    requires i < |table|
    ensures text + FlagGroups(aceFlags, table[i..]) ==
      if aceFlags & table[i].bit != 0 then text + Group(table[i].token) + FlagGroups(aceFlags, table[i + 1..])
      else text + FlagGroups(aceFlags, table[i + 1..])
  {
    assert table[i..][0] == table[i] && table[i..][1..] == table[i + 1..];
    Reassociate(text, Group(table[i].token), FlagGroups(aceFlags, table[i + 1..]));
  }

  lemma NoFlagLeft(aceFlags: bv8, table: seq<Flag>, text: string)
    requires table == []
    ensures text + FlagGroups(aceFlags, table) == text
  {
  }

  method ShowFlags(aceFlags: bv8, table: seq<Flag>) returns (text: string)
    ensures text == FlagGroups(aceFlags, table)
  {
    text := "";
    var i := 0;
    assert table[0..] == table;
    while i < |table|
      invariant 0 <= i <= |table|
      invariant FlagGroups(aceFlags, table) == text + FlagGroups(aceFlags, table[i..])
    {
      NextFlag(aceFlags, table, i, text);
      var f := table[i];
      if aceFlags & f.bit != 0 {
        text := text + Group(f.token);
      }
      i := i + 1;
    }
    NoFlagLeft(aceFlags, table[i..], text);
  }

  lemma FlagGroupsAreGroups(aceFlags: bv8)
    ensures FlagGroups(aceFlags, INHERIT_FLAGS) ==
      Groups(["OI", "CI", "IO", "NP"],
             [aceFlags & OBJECT_INHERIT != 0, aceFlags & CONTAINER_INHERIT != 0,
              aceFlags & INHERIT_ONLY != 0, aceFlags & NO_PROPAGATE_INHERIT != 0])
  {
    var present := [aceFlags & OBJECT_INHERIT != 0, aceFlags & CONTAINER_INHERIT != 0,
      aceFlags & INHERIT_ONLY != 0, aceFlags & NO_PROPAGATE_INHERIT != 0];
    assert INHERIT_FLAGS[1..][1..][1..] == [INHERIT_FLAGS[3]] && present[1..][1..][1..] == [present[3]];
    assert FlagGroups(aceFlags, INHERIT_FLAGS[1..][1..][1..]) == Groups(["NP"], present[1..][1..][1..]);
    assert ["IO", "NP"][1..] == ["NP"] && ["CI", "IO", "NP"][1..] == ["IO", "NP"];
    assert FlagGroups(aceFlags, INHERIT_FLAGS[1..][1..]) == Groups(["IO", "NP"], present[1..][1..]);
    assert FlagGroups(aceFlags, INHERIT_FLAGS[1..]) == Groups(["CI", "IO", "NP"], present[1..]);
    assert ["OI", "CI", "IO", "NP"][1..] == ["CI", "IO", "NP"];
  }

  // An entry shows the groups of Shown, in the order of GROUP_NAMES.
  lemma AceTextIsGroups(principal: string, aceType: bv8, aceFlags: bv8, mask: bv32)
    ensures AceText(principal, aceType, aceFlags, mask) ==
      principal + ":" + (Groups(GROUP_NAMES, Shown(aceType, aceFlags)) + Group(RightsText(mask)))
  {
    var present := Shown(aceType, aceFlags);
    FlagGroupsAreGroups(aceFlags);
    assert GROUP_NAMES[1..][1..] == ["OI", "CI", "IO", "NP"];
    assert present[1..][1..] == [present[2], present[3], present[4], present[5]];
    var flags, rights := FlagGroups(aceFlags, INHERIT_FLAGS), Group(RightsText(mask));
    var denied := (if present[1] then Group("DENY") else "") + flags;
    assert Groups(GROUP_NAMES[1..], present[1..]) == denied;
    assert Groups(GROUP_NAMES, present) == (if present[0] then Group("I") else "") + denied;
    ShowingTwo(principal + ":", present[0], present[1], flags, rights);
  }

  lemma ShowingTwo(text: string, i: bool, d: bool, flags: string, rights: string)
    ensures Showing(Showing(text, i, "I"), d, "DENY") + flags + rights ==
      text + ((if i then Group("I") else "") + ((if d then Group("DENY") else "") + flags) + rights)
  {
  }

  // ---------- reading entries ----------

  datatype Ace = Ace(principal: string, denied: bool, flags: bv8, rights: bv32)

  // Everything after the last colon.
  function AfterLastColon(s: string): string {
    if s == [] || s[|s| - 1] == ':' then [] else AfterLastColon(s[..|s| - 1]) + [s[|s| - 1]]
  }

  // Which of the names stand at the front, in order, and what follows them.
  function ReadGroups(names: seq<string>, s: string): (r: (seq<bool>, string))
    ensures |r.0| == |names|
  {
    if names == [] then ([], s)
    else if Group(names[0]) <= s then
      var rest := ReadGroups(names[1..], s[|Group(names[0])|..]);
      ([true] + rest.0, rest.1)
    else
      var rest := ReadGroups(names[1..], s);
      ([false] + rest.0, rest.1)
  }

  function Bit(b: bool, flag: bv8): bv8 {
    if b then flag else 0
  }

  function FlagsOf(present: seq<bool>): bv8
    requires |present| == 6
  {
    Bit(present[0], 0x10) | Bit(present[2], 0x1) | Bit(present[3], 0x2) | Bit(present[4], 0x8) | Bit(present[5], 0x4)
  }

  function ReadAce(text: string): Ace {
    var tail := AfterLastColon(text);
    var head := if |tail| < |text| then text[..|text| - |tail| - 1] else "";
    var (present, rights) := ReadGroups(GROUP_NAMES, tail);
    var inner := if |rights| >= 2 then rights[1..|rights| - 1] else "";
    Ace(head, present[1], FlagsOf(present), RightsOf(inner))
  }

  // ---------- entries are read back ----------

  lemma {:induction false} LastColonFound(p: string, t: string)
    requires ':' !in t
    ensures AfterLastColon(p + ":" + t) == t
  {
    var s := p + ":" + t;
    if t != [] {
      var n := |t| - 1;
      assert s[|s| - 1] == t[n] && t[n] in t;
      assert s[..|s| - 1] == p + ":" + t[..n];
      LastColonFound(p, t[..n]);
      assert t == t[..n] + [t[n]];
    }
  }

  // A closed parenthesis ends a group's name.
  lemma GroupPrefix(a: string, b: string, rest: string)
    requires ')' !in a && ')' !in b
    ensures Group(a) <= Group(b) + rest <==> a == b
  {
    var text := Group(b) + rest;
    assert forall i :: 0 <= i < |a| ==> Group(a)[i + 1] == a[i];
    assert forall i :: 0 <= i < |b| ==> text[i + 1] == b[i];
    assert Group(a)[|a| + 1] == ')' && text[|b| + 1] == ')';
    if |a| < |b| {
      assert text[|a| + 1] in b;
    } else if |b| < |a| {
      assert Group(a)[|b| + 1] in a;
    } else {
      assert Group(a) <= text ==> forall i :: 0 <= i < |a| ==> a[i] == text[i + 1];
      assert a == b ==> text[..|Group(a)|] == Group(a);
    }
  }

  // The names and what follows them are told apart by what stands in parentheses.
  ghost predicate Ends(names: seq<string>, last: string) {
    if names == [] then ')' !in last
    else ')' !in names[0] && names[0] !in names[1..] && names[0] != last && Ends(names[1..], last)
  }

  // A name that is none of those that follow is not at the front.
  lemma {:induction false} NotAtFront(name: string, names: seq<string>, present: seq<bool>, last: string)
    requires |names| == |present| && Ends(names, last)
    requires ')' !in name && name !in names && name != last
    ensures !(Group(name) <= Groups(names, present) + Group(last))
  {
    if names == [] {
      GroupPrefix(name, last, "");
      assert Groups(names, present) + Group(last) == Group(last) + "";
    } else if present[0] {
      var rest := Groups(names[1..], present[1..]) + Group(last);
      assert Groups(names, present) + Group(last) == Group(names[0]) + rest;
      GroupPrefix(name, names[0], rest);
    } else {
      NotAtFront(name, names[1..], present[1..], last);
      assert Groups(names, present) == Groups(names[1..], present[1..]);
    }
  }

  lemma {:induction false} GroupsRead(names: seq<string>, present: seq<bool>, last: string)
    requires |names| == |present| && Ends(names, last)
    ensures ReadGroups(names, Groups(names, present) + Group(last)) == (present, Group(last))
  {
    var text := Groups(names, present) + Group(last);
    if names == [] {
      assert text == Group(last);
    } else {
      var rest := Groups(names[1..], present[1..]) + Group(last);
      GroupsRead(names[1..], present[1..], last);
      assert [present[0]] + present[1..] == present;
      if present[0] {
        Reassociate(Group(names[0]), Groups(names[1..], present[1..]), Group(last));
        assert text[|Group(names[0])|..] == rest;
      } else {
        NotAtFront(names[0], names[1..], present[1..], last);
      }
    }
  }

  lemma CompositeShape(mask: bv32)
    requires Composite(mask).Some?
    ensures Unpunctuated(Composite(mask).value) && Composite(mask).value !in FLAG_NAMES
  {
  }

  lemma RightsShape(mask: bv32)
    ensures ')' !in RightsText(mask) && ':' !in RightsText(mask) && RightsText(mask) !in FLAG_NAMES
  {
    if Composite(mask).Some? {
      CompositeShape(mask);
    } else if AllTokens(mask) != [] {
      AllAreTokens(mask);
      JoinedShape(AllTokens(mask));
      JoinedIsNoComposite(AllTokens(mask));
    }
  }

  lemma FlagBits(aceType: bv8, aceFlags: bv8)
    ensures FlagsOf(Shown(aceType, aceFlags)) == aceFlags & 0x1F
  {
  }

  lemma NamesEnd(last: string)
    requires ')' !in last && last !in FLAG_NAMES
    ensures Ends(GROUP_NAMES, last)
  {
    assert Ends([], last);
    assert ["NP"][1..] == [] && Ends(["NP"], last);
    assert ["IO", "NP"][1..] == ["NP"] && Ends(["IO", "NP"], last);
    assert ["CI", "IO", "NP"][1..] == ["IO", "NP"] && Ends(["CI", "IO", "NP"], last);
    assert ["OI", "CI", "IO", "NP"][1..] == ["CI", "IO", "NP"] && Ends(["OI", "CI", "IO", "NP"], last);
    assert GROUP_NAMES[1..][1..] == ["OI", "CI", "IO", "NP"] && Ends(GROUP_NAMES[1..], last);
  }

  lemma {:induction false} GroupsHaveNoColon(names: seq<string>, present: seq<bool>)
    requires |names| == |present| && forall i :: 0 <= i < |names| ==> ':' !in names[i]
    ensures ':' !in Groups(names, present)
  {
    if names != [] {
      GroupsHaveNoColon(names[1..], present[1..]);
    }
  }

  lemma HeadFound(p: string, t: string)
    requires ':' !in t
    ensures var text := p + ":" + t;
      AfterLastColon(text) == t && |t| < |text| && text[..|text| - |t| - 1] == p
  {
    LastColonFound(p, t);
    assert (p + ":" + t)[..|p|] == p;
  }

  lemma TailRead(present: seq<bool>, mask: bv32)
    requires |present| == 6
    ensures var tail := Groups(GROUP_NAMES, present) + Group(RightsText(mask));
      ':' !in tail && ReadGroups(GROUP_NAMES, tail) == (present, Group(RightsText(mask)))
  {
    RightsShape(mask);
    GroupsHaveNoColon(GROUP_NAMES, present);
    NamesEnd(RightsText(mask));
    GroupsRead(GROUP_NAMES, present, RightsText(mask));
  }

  /**
   An entry is read back from its text whatever its principal, colons included: who, whether it denies,
   the five flags that are printed, and the rights.
   */
  lemma AceRoundTrip(principal: string, aceType: bv8, aceFlags: bv8, mask: bv32)
    ensures ReadAce(AceText(principal, aceType, aceFlags, mask)) ==
      Ace(principal, aceType == 1, aceFlags & 0x1F, if mask == 0x1000_0000 then 0x1F_01FF else mask)
  {
    var present, rights := Shown(aceType, aceFlags), RightsText(mask);
    AceTextIsGroups(principal, aceType, aceFlags, mask);
    TailRead(present, mask);
    HeadFound(principal, Groups(GROUP_NAMES, present) + Group(rights));
    assert Group(rights)[1..|Group(rights)| - 1] == rights;
    FlagBits(aceType, aceFlags);
    RightsRoundTrip(mask);
  }
}
