/**
  A type-directed EIP-712 encoder over untyped values (EIP-712, "Definition of hashStruct" and "Definition of
  encodeData"), for any table of struct types. `Decode` reads an untyped value as typed data; `EncodeData` is
  the encoding of typed data; the encoder is the one after the other.
*/
module Eip712 {
  import opened TextOrder
  import opened Wrappers

  type Byte = b: int | 0 <= b < 256
  type Bytes = seq<Byte>

  /** JavaScript values as the encoder meets them. */
  datatype Value =
    | Undefined
    | Str(text: string)
    | Num(number: int)
    | Buf(bytes: Bytes)
    | Arr(items: seq<Value>)
    | Obj(properties: seq<Property>)

  datatype Property = Property(name: string, value: Value)
  datatype Field = Field(name: string, fieldType: string)
  type Types = map<string, seq<Field>>

  datatype EncodeError =
    | InvalidArray | InvalidStruct | InvalidHex | InvalidAddress | NotAnInteger | OutOfBounds | UnsupportedType

  /** Library functions, uninterpreted. `textOf` and `integerOf` are String(value) and BigInt(Number(value)). */
  datatype Primitives = Primitives(keccak: Bytes -> Bytes, utf8: string -> Bytes, base58: string -> Option<Bytes>,
                                   textOf: Value -> string, bigInt: string -> Option<int>,
                                   integerOf: Value -> Option<int>)
  {
    ghost predicate HashesTo32() {
      forall x :: |keccak(x)| == 32
    }

    function Text(v: Value): string {
      if v.Str? then v.text else textOf(v)
    }

    function Integer(v: Value): Option<int> {
      if v.Num? then Some(v.number) else integerOf(v)
    }
  }

  // ---------------------------------------------------------------- words

  function HexDigit(c: char): Option<nat> {
    if '0' <= c <= '9' then Some(c as int - '0' as int)
    else if 'a' <= c <= 'f' then Some(c as int - 'a' as int + 10)
    else if 'A' <= c <= 'F' then Some(c as int - 'A' as int + 10)
    else None
  }

  function HexPairs(s: string): Option<Bytes> {
    if s == [] then Some([])
    else if |s| < 2 || HexDigit(s[0]).None? || HexDigit(s[1]).None? then None
    else
      var rest := HexPairs(s[2..]);
      if rest.None? then None else Some([Pair(HexDigit(s[0]).value, HexDigit(s[1]).value)] + rest.value)
  }

  function Pair(high: nat, low: nat): Byte {
    (16 * high + low) % 256
  }

  /** `bytes`: text matching `^0x(?:[0-9a-fA-F]{2})*$`, decoded. */
  function HexBytes(s: string): Result<Bytes, EncodeError> {
    if |s| < 2 || s[0] != '0' || s[1] != 'x' || HexPairs(s[2..]).None? then Err(InvalidHex)
    else Ok(HexPairs(s[2..]).value)
  }

  /** The sixteen digits in lower case, then in upper case. */
  const HEX_DIGITS := "0123456789abcdef0123456789ABCDEF"

  predicate IsDigitOf(c: char, n: nat)
    requires n < 16
  {
    c == HEX_DIGITS[n] || c == HEX_DIGITS[n + 16]
  }

  predicate SpellsByte(high: char, low: char, b: Byte) {
    IsDigitOf(high, b / 16) && IsDigitOf(low, b % 16)
  }

  /** Two digits per byte, the high one first, in either case. */
  predicate SpellsPairs(s: string, b: Bytes) {
    && |s| == 2 * |b|
    && forall i | 0 <= i < |b| :: SpellsByte(s[2 * i], s[2 * i + 1], b[i])
  }

  /** The text is "0x" and the bytes in hexadecimal. */
  predicate Spells(s: string, b: Bytes) {
    |s| >= 2 && s[..2] == "0x" && SpellsPairs(s[2..], b)
  }

  lemma DigitExactly(c: char, n: nat)
    requires n < 16
    ensures HexDigit(c) == Some(n) <==> IsDigitOf(c, n)
    ensures HexDigit(c).Some? ==> HexDigit(c).value < 16
  {
  }

  lemma PairExactly(b: Byte, high: nat, low: nat)
    requires high < 16 && low < 16
    ensures b == Pair(high, low) <==> b / 16 == high && b % 16 == low
  {
  }

  lemma FirstPair(s: string, b: Bytes)
    requires |s| == 2 * |b| && b != []
    ensures SpellsPairs(s, b) <==> SpellsByte(s[0], s[1], b[0]) && SpellsPairs(s[2..], b[1..])
  {
    if SpellsByte(s[0], s[1], b[0]) && SpellsPairs(s[2..], b[1..]) {
      forall i | 0 <= i < |b| ensures SpellsByte(s[2 * i], s[2 * i + 1], b[i]) {
        if i > 0 {
          LaterPair(s, b, i - 1);
        }
      }
    }
    if SpellsPairs(s, b) {
      assert SpellsByte(s[2 * 0], s[2 * 0 + 1], b[0]);
      forall i | 0 <= i < |b| - 1 ensures SpellsByte(s[2..][2 * i], s[2..][2 * i + 1], b[1..][i]) {
        LaterPair(s, b, i);
      }
    }
  }

  lemma LaterPair(s: string, b: Bytes, i: nat)
    requires |s| == 2 * |b| && i < |b| - 1
    ensures SpellsByte(s[2..][2 * i], s[2..][2 * i + 1], b[1..][i])
       <==> SpellsByte(s[2 * (i + 1)], s[2 * (i + 1) + 1], b[i + 1])
  {
    assert s[2..][2 * i] == s[2 * (i + 1)] && s[2..][2 * i + 1] == s[2 * (i + 1) + 1] && b[1..][i] == b[i + 1];
  }

  lemma {:induction false} PairsExactly(s: string, b: Bytes)
    ensures HexPairs(s) == Some(b) <==> SpellsPairs(s, b)
  {
    if |s| >= 2 && b != [] {
      PairsExactly(s[2..], b[1..]);
      DigitExactly(s[0], b[0] / 16);
      DigitExactly(s[1], b[0] % 16);
      if |s| == 2 * |b| {
        FirstPair(s, b);
      }
      if HexDigit(s[0]).Some? && HexDigit(s[1]).Some? {
        PairExactly(b[0], HexDigit(s[0]).value, HexDigit(s[1]).value);
        PairsSplit(s, b);
      }
    }
  }

  lemma PairsSplit(s: string, b: Bytes)
    requires |s| >= 2 && b != [] && HexDigit(s[0]).Some? && HexDigit(s[1]).Some?
    ensures HexPairs(s) == Some(b) <==>
            b[0] == Pair(HexDigit(s[0]).value, HexDigit(s[1]).value) && HexPairs(s[2..]) == Some(b[1..])
  {
    var first := Pair(HexDigit(s[0]).value, HexDigit(s[1]).value);
    assert b == [b[0]] + b[1..];
    var rest := HexPairs(s[2..]);
    assert rest.Some? ==> ([first] + rest.value)[0] == first && ([first] + rest.value)[1..] == rest.value;
  }

  /** A text decodes to some bytes exactly when it spells them, and every other text is refused as not hexadecimal. */
  lemma HexBytesExact(s: string)
    ensures forall b: Bytes :: HexBytes(s) == Ok(b) <==> Spells(s, b)
    ensures HexBytes(s).Err? ==> HexBytes(s) == Err(InvalidHex)
  {
    forall b: Bytes ensures HexBytes(s) == Ok(b) <==> Spells(s, b) {
      if |s| >= 2 {
        assert s[..2] == "0x" <==> s[0] == '0' && s[1] == 'x';
        PairsExactly(s[2..], b);
      }
    }
  }

  /** Bytes in hexadecimal, in lower or upper case. */
  function PrintHex(b: Bytes, upper: bool): string {
    "0x" + PrintPairs(b, if upper then 16 else 0)
  }

  function PrintPairs(b: Bytes, shift: nat): string
    requires shift <= 16
  {
    if b == [] then "" else [HEX_DIGITS[b[0] / 16 + shift], HEX_DIGITS[b[0] % 16 + shift]] + PrintPairs(b[1..], shift)
  }

  lemma {:induction false} PrintedPairs(b: Bytes, upper: bool)
    ensures SpellsPairs(PrintPairs(b, if upper then 16 else 0), b)
  {
    if b != [] {
      var shift := if upper then 16 else 0;
      PrintedPairs(b[1..], upper);
      var s := PrintPairs(b, shift);
      assert s[2..] == PrintPairs(b[1..], shift);
      assert |s| == 2 + |PrintPairs(b[1..], shift)|;
      FirstPair(s, b);
    }
  }

  /** Printing and decoding gives the bytes back, in either case. */
  lemma HexRoundTrip(b: Bytes, upper: bool)
    ensures HexBytes(PrintHex(b, upper)) == Ok(b)
  {
    PrintedPairs(b, upper);
    HexBytesExact(PrintHex(b, upper));
    assert PrintHex(b, upper)[2..] == PrintPairs(b, if upper then 16 else 0);
  }

  function Pow256(k: nat): (n: nat)
    ensures n > 0
  {
    if k == 0 then 1 else 256 * Pow256(k - 1)
  }

  function BigEndian(n: nat, width: nat): (b: Bytes)
    ensures |b| == width
  {
    if width == 0 then [] else BigEndian(n / 256, width - 1) + [n % 256]
  }

  function FromBigEndian(b: Bytes): nat {
    if b == [] then 0 else 256 * FromBigEndian(b[..|b| - 1]) + b[|b| - 1]
  }

  lemma {:induction false} BigEndianRoundTrip(n: nat, width: nat)
    requires n < Pow256(width)
    ensures FromBigEndian(BigEndian(n, width)) == n
  {
    if width > 0 {
      BigEndianRoundTrip(n / 256, width - 1);
      assert BigEndian(n, width)[..width - 1] == BigEndian(n / 256, width - 1);
    }
  }

  lemma {:induction false} Pow256Monotone(less: nat, more: nat)
    requires less <= more
    ensures Pow256(less) <= Pow256(more)
    decreases more
  {
    if less < more {
      Pow256Monotone(less, more - 1);
    }
  }

  /** `uint`: an integer of so many bytes, as a 32-byte word. */
  function Uint(n: Option<int>, width: nat): Result<nat, EncodeError> {
    if n.None? then Err(NotAnInteger)
    else if n.value < 0 || n.value >= Pow256(width) then Err(OutOfBounds)
    else Ok(n.value)
  }

  // ---------------------------------------------------------------- type hashes

  predicate IsArrayType(t: string) {
    |t| >= 2 && t[|t| - 2] == '[' && t[|t| - 1] == ']'
  }

  /** `type.replace(/\[\]$/, '')`. */
  function Base(t: string): string {
    if IsArrayType(t) then t[..|t| - 2] else t
  }

  /** The structs a list of fields refers to, added to those already seen: the recursive `visit`, field by field. */
  function Visit(types: Types, root: string, fields: seq<Field>, referenced: set<string>): (r: set<string>)
    requires referenced <= types.Keys
    ensures referenced <= r <= types.Keys
    decreases |types.Keys - referenced|, |fields|
  {
    if fields == [] then referenced
    else
      var base := Base(fields[0].fieldType);
      if base !in types || base == root || base in referenced then Visit(types, root, fields[1..], referenced)
      else
        Shrinks(types.Keys, referenced, base);
        var inner := Visit(types, root, types[base], referenced + {base});
        NoLarger(types.Keys, referenced, inner);
        Visit(types, root, fields[1..], inner)
  }

  lemma Shrinks(all: set<string>, seen: set<string>, x: string)
    requires x in all && x !in seen
    ensures |all - (seen + {x})| < |all - seen|
  {
    assert all - seen == (all - (seen + {x})) + {x};
  }

  lemma NoLarger(all: set<string>, less: set<string>, more: set<string>)
    requires less <= more
    ensures |all - more| <= |all - less|
  {
    Inclusion(all - more, all - less);
  }

  lemma {:induction false} Inclusion(a: set<string>, b: set<string>)
    requires a <= b
    ensures |a| <= |b|
    decreases |a|
  {
    if a != {} {
      var x :| x in a;
      Inclusion(a - {x}, b - {x});
    }
  }

  function Referenced(types: Types, name: string): set<string>
    requires name in types
  {
    Visit(types, name, types[name], {})
  }

  /** A struct whose fields name the other one, directly or as an array. */
  predicate Names(fields: seq<Field>, x: string) {
    exists f | f in fields :: Base(f.fieldType) == x
  }

  /** A chain of structs, each named by the one before and none of them the root. */
  ghost predicate Chain(types: Types, root: string, chain: seq<string>) {
    && root in types
    && chain != []
    && (forall i | 0 <= i < |chain| :: chain[i] in types && chain[i] != root)
    && Names(types[root], chain[0])
    && forall i | 0 <= i < |chain| - 1 :: Names(types[chain[i]], chain[i + 1])
  }

  /** Nothing more to add: the named structs, other than the root, are all in the set. */
  ghost predicate ClosedUnder(types: Types, root: string, fields: seq<Field>, r: set<string>) {
    forall f | f in fields :: Base(f.fieldType) in types && Base(f.fieldType) != root ==> Base(f.fieldType) in r
  }

  /** What one visit adds is closed; what was there before stays as closed as it was. */
  lemma {:induction false} VisitCloses(types: Types, root: string, fields: seq<Field>, referenced: set<string>)
    requires referenced <= types.Keys
    ensures var r := Visit(types, root, fields, referenced);
      && ClosedUnder(types, root, fields, r)
      && forall x | x in r && x !in referenced :: ClosedUnder(types, root, types[x], r)
    decreases |types.Keys - referenced|, |fields|
  {
    if fields != [] {
      var base := Base(fields[0].fieldType);
      if base !in types || base == root || base in referenced {
        VisitCloses(types, root, fields[1..], referenced);
      } else {
        Shrinks(types.Keys, referenced, base);
        VisitCloses(types, root, types[base], referenced + {base});
        var inner := Visit(types, root, types[base], referenced + {base});
        NoLarger(types.Keys, referenced, inner);
        VisitCloses(types, root, fields[1..], inner);
      }
      assert fields == [fields[0]] + fields[1..];
    }
  }

  ghost predicate Reached(types: Types, root: string, x: string) {
    exists chain :: Chain(types, root, chain) && chain[|chain| - 1] == x
  }

  /**
    Everything a visit adds is reached by a chain, when the fields visited are those of the root or of a reached struct.
  */
  lemma {:induction false} VisitReaches(types: Types, root: string, owner: string, fields: seq<Field>,
                                        referenced: set<string>)
    requires referenced <= types.Keys && root in types && owner in types
    requires owner == root || Reached(types, root, owner)
    requires forall f | f in fields :: f in types[owner]
    requires forall x | x in referenced :: Reached(types, root, x)
    ensures forall x | x in Visit(types, root, fields, referenced) :: Reached(types, root, x)
    decreases |types.Keys - referenced|, |fields|
  {
    if fields != [] {
      var base := Base(fields[0].fieldType);
      assert fields[0] in types[owner];
      if base !in types || base == root || base in referenced {
        VisitReaches(types, root, owner, fields[1..], referenced);
      } else {
        Extend(types, root, owner, base);
        Shrinks(types.Keys, referenced, base);
        VisitReaches(types, root, base, types[base], referenced + {base});
        var inner := Visit(types, root, types[base], referenced + {base});
        NoLarger(types.Keys, referenced, inner);
        VisitReaches(types, root, owner, fields[1..], inner);
      }
    }
  }

  lemma Extend(types: Types, root: string, owner: string, x: string)
    requires root in types && owner in types && x in types && x != root
    requires owner == root || Reached(types, root, owner)
    requires Names(types[owner], x)
    ensures Reached(types, root, x)
  {
    if owner == root {
      assert Chain(types, root, [x]);
    } else {
      var chain :| Chain(types, root, chain) && chain[|chain| - 1] == owner;
      assert Chain(types, root, chain + [x]);
      assert (chain + [x])[|chain|] == x;
    }
  }

  lemma {:induction false} ChainStaysInside(types: Types, root: string, chain: seq<string>, r: set<string>)
    requires Chain(types, root, chain) && r <= types.Keys
    requires ClosedUnder(types, root, types[root], r)
    requires forall x | x in r :: ClosedUnder(types, root, types[x], r)
    ensures chain[|chain| - 1] in r
    decreases |chain|
  {
    if |chain| > 1 {
      var front := chain[..|chain| - 1];
      assert front[|front| - 1] == chain[|chain| - 2];
      ChainStaysInside(types, root, front, r);
      assert Names(types[chain[|chain| - 2]], chain[|chain| - 1]);
    }
  }

  /** The set a type hash is taken over: exactly the other structs reachable from the named one. */
  lemma ReferencedIsReachable(types: Types, name: string, x: string)
    requires name in types
    ensures x in Referenced(types, name) <==> Reached(types, name, x)
  {
    var r := Referenced(types, name);
    VisitCloses(types, name, types[name], {});
    VisitReaches(types, name, name, types[name], {});
    if Reached(types, name, x) {
      var chain :| Chain(types, name, chain) && chain[|chain| - 1] == x;
      ChainStaysInside(types, name, chain, r);
    }
  }

  lemma {:induction false} LeastExists(s: set<string>)
    requires s != {}
    ensures exists x | x in s :: Least(x, s)
    decreases |s|
  {
    var y :| y in s;
    if s == {y} {
      assert Least(y, s) by { BeforeTrichotomy(y, y); }
    } else {
      var rest := s - {y};
      assert rest != {} by { assert s != {y}; }
      LeastExists(rest);
      var x :| x in rest && Least(x, rest);
      if Before(y, x) {
        forall z | z in s ensures !Before(z, y) {
          BeforeTrichotomy(y, x);
          BeforeTrichotomy(y, z);
          if z != y {
            BeforeTransitive(y, x, z);
          }
        }
        assert Least(y, s);
      } else {
        assert Least(x, s);
      }
    }
  }

  predicate Least(x: string, s: set<string>) {
    forall z | z in s :: !Before(z, x)
  }

  lemma LeastIsUnique(s: set<string>)
    ensures forall x, y | x in s && y in s && Least(x, s) && Least(y, s) :: x == y
  {
    forall x, y | x in s && y in s && Least(x, s) && Least(y, s) ensures x == y {
      BeforeTrichotomy(x, y);
    }
  }

  /** `[...set].sort()`. */
  function SortedNames(s: set<string>): (r: seq<string>)
    ensures (set x | x in r) == s
    ensures forall i, j | 0 <= i < j < |r| :: Before(r[i], r[j])
    decreases |s|
  {
    if s == {} then []
    else
      LeastExists(s);
      LeastIsUnique(s);
      var x :| x in s && Least(x, s);
      var rest := SortedNames(s - {x});
      LeastComesFirst(x, s, rest);
      [x] + rest
  }

  lemma LeastComesFirst(x: string, s: set<string>, rest: seq<string>)
    requires x in s && Least(x, s) && (set y | y in rest) == s - {x}
    ensures forall y | y in rest :: Before(x, y)
    ensures (set y | y in [x] + rest) == s
  {
    forall y | y in rest ensures Before(x, y) {
      assert y in (set y | y in rest);
      assert y in s - {x};
      BeforeTrichotomy(x, y);
    }
    forall y ensures y in [x] + rest <==> y in s {
      assert y in rest <==> y in (set y | y in rest);
      assert y in rest <==> y in s - {x};
    }
  }

  function FieldText(fields: seq<Field>): string {
    if fields == [] then []
    else fields[0].fieldType + " " + fields[0].name + (if |fields| == 1 then "" else "," + FieldText(fields[1..]))
  }

  function Definition(types: Types, name: string): string
    requires name in types
  {
    name + "(" + FieldText(types[name]) + ")"
  }

  function Definitions(types: Types, names: seq<string>): string
    requires forall n | n in names :: n in types
  {
    if names == [] then [] else Definition(types, names[0]) + Definitions(types, names[1..])
  }

  /** EIP-712 encodeType: the struct's own definition, then those it refers to in alphabetical order. */
  function EncodeType(types: Types, name: string): string
    requires name in types
  {
    var names := SortedNames(Referenced(types, name));
    assert forall n | n in names :: n in (set x | x in names);
    Definition(types, name) + Definitions(types, names)
  }

  function TypeHash(types: Types, p: Primitives, name: string): Bytes
    requires name in types
  {
    p.keccak(p.utf8(EncodeType(types, name)))
  }

  /** One call of the recursive `visit`, which adds to the shared set and goes through the fields in turn. */
  method VisitType(types: Types, root: string, t: string, referenced: set<string>) returns (r: set<string>)
    requires referenced <= types.Keys
    ensures r == Visit(types, root, [Field("", t)], referenced)
    decreases |types.Keys - referenced|, 0
  {
    ghost var asField := [Field("", t)];
    assert asField[1..] == [];
    var base := Base(t);
    if base !in types || base == root || base in referenced {
      return referenced;
    }
    Shrinks(types.Keys, referenced, base);
    r := VisitAll(types, root, types[base], referenced + {base});
  }

  method VisitAll(types: Types, root: string, fields: seq<Field>, referenced: set<string>) returns (r: set<string>)
    requires referenced <= types.Keys
    ensures r == Visit(types, root, fields, referenced)
    decreases |types.Keys - referenced|, 1
  {
    r := referenced;
    var i := 0;
    while i < |fields|
      invariant 0 <= i <= |fields|
      invariant referenced <= r <= types.Keys
      invariant Visit(types, root, fields, referenced) == Visit(types, root, fields[i..], r)
    {
      NoLarger(types.Keys, referenced, r);
      VisitOne(types, root, fields[i..], r);
      r := VisitType(types, root, fields[i].fieldType, r);
      i := i + 1;
    }
  }

  lemma VisitOne(types: Types, root: string, fields: seq<Field>, referenced: set<string>)
    requires referenced <= types.Keys && fields != []
    ensures Visit(types, root, fields, referenced)
         == Visit(types, root, fields[1..], Visit(types, root, [Field("", fields[0].fieldType)], referenced))
  {
    assert [Field("", fields[0].fieldType)][1..] == [];
  }

  /** `typeHash` as the source runs it: grow the set, sort it, hash the definitions. */
  method ComputeTypeHash(types: Types, p: Primitives, name: string) returns (h: Bytes)
    requires name in types
    ensures h == TypeHash(types, p, name)
  {
    var referenced := VisitAll(types, name, types[name], {});
    var names := SortedNames(referenced);
    assert forall n | n in names :: n in (set x | x in names);
    h := p.keccak(p.utf8(Definition(types, name) + Definitions(types, names)));
  }
}
