/**
  The recursive encoder, the typed data it reads, and what its hashes commit to.
*/
module Eip712Commitment {
  import opened Wrappers
  import opened Eip712

  // ---------------------------------------------------------------- the encoder

  function EncodeValue(types: Types, p: Primitives, t: string, value: Value): Result<Bytes, EncodeError>
    decreases value, 0, 0
  {
    if IsArrayType(t) then
      if !value.Arr? then Err(InvalidArray)
      else
        var items := EncodeItems(types, p, t[..|t| - 2], value.items);
        if items.Err? then items else Ok(p.keccak(items.value))
    else if t in types then
      if !value.Obj? then Err(InvalidStruct) else HashStruct(types, p, t, value.properties)
    else EncodeAtom(p, t, value)
  }

  function EncodeItems(types: Types, p: Primitives, t: string, items: seq<Value>): Result<Bytes, EncodeError>
    decreases items, 0, 0
  {
    if items == [] then Ok([])
    else
      var first := EncodeValue(types, p, t, items[0]);
      if first.Err? then first
      else
        var rest := EncodeItems(types, p, t, items[1..]);
        if rest.Err? then rest else Ok(first.value + rest.value)
  }

  function HashStruct(types: Types, p: Primitives, t: string, properties: seq<Property>): Result<Bytes, EncodeError>
    requires t in types
    decreases properties, |types[t]| + 1, 0
  {
    var fields := EncodeFields(types, p, types[t], properties);
    if fields.Err? then fields else Ok(p.keccak(TypeHash(types, p, t) + fields.value))
  }

  function EncodeFields(types: Types, p: Primitives, fields: seq<Field>,
                        properties: seq<Property>): Result<Bytes, EncodeError>
    decreases properties, |fields|, 1
  {
    if fields == [] then Ok([])
    else
      var first := EncodeProperty(types, p, fields[0].fieldType, fields[0].name, properties);
      if first.Err? then first
      else
        var rest := EncodeFields(types, p, fields[1..], properties);
        if rest.Err? then rest else Ok(first.value + rest.value)
  }

  /** `encodeValue(field.type, value[field.name])`. */
  function EncodeProperty(types: Types, p: Primitives, t: string, name: string,
                          properties: seq<Property>): Result<Bytes, EncodeError>
    decreases properties, 0, 0
  {
    if properties == [] then EncodeUndefined(types, p, t)
    else if properties[0].name == name then EncodeValue(types, p, t, properties[0].value)
    else EncodeProperty(types, p, t, name, properties[1..])
  }

  function EncodeUndefined(types: Types, p: Primitives, t: string): Result<Bytes, EncodeError> {
    if IsArrayType(t) then Err(InvalidArray) else if t in types then Err(InvalidStruct) else EncodeAtom(p, t, Undefined)
  }

  function EncodeAtom(p: Primitives, t: string, value: Value): Result<Bytes, EncodeError> {
    if t == "string" then Ok(p.keccak(p.utf8(p.Text(value))))
    else if t == "bytes" then
      var raw := if value.Buf? then Ok(value.bytes) else HexBytes(p.Text(value));
      if raw.Err? then raw else Ok(p.keccak(raw.value))
    else if t == "address" then
      var raw := HexBytes(p.Text(value));
      if raw.Err? then raw
      else if |raw.value| != 20 then Err(InvalidAddress)
      else Ok(seq(12, _ => 0) + raw.value)
    else if t == "uint256" then Word(Uint(p.bigInt(p.Text(value)), 32))
    else if t == "uint32" then Word(Uint(p.Integer(value), 4))
    else Err(UnsupportedType)
  }

  function Word(n: Result<nat, EncodeError>): Result<Bytes, EncodeError> {
    if n.Err? then Err(n.error) else Ok(BigEndian(n.value, 32))
  }

  // ---------------------------------------------------------------- typed data

  datatype Data =
    | Text(utf8: Bytes)
    | Blob(bytes: Bytes)
    | Address(account: Bytes)
    | Number(number: nat)
    | Array(items: seq<Data>)
    | Struct(name: string, fields: seq<Data>)

  /** What a value says under a type, before anything is hashed. */
  function Decode(types: Types, p: Primitives, t: string, value: Value): Result<Data, EncodeError>
    decreases value, 0, 0
  {
    if IsArrayType(t) then
      if !value.Arr? then Err(InvalidArray)
      else
        var items := DecodeItems(types, p, t[..|t| - 2], value.items);
        if items.Err? then Err(items.error) else Ok(Array(items.value))
    else if t in types then
      if !value.Obj? then Err(InvalidStruct)
      else
        var fields := DecodeFields(types, p, types[t], value.properties);
        if fields.Err? then Err(fields.error) else Ok(Struct(t, fields.value))
    else DecodeAtom(p, t, value)
  }

  function DecodeItems(types: Types, p: Primitives, t: string, items: seq<Value>): Result<seq<Data>, EncodeError>
    decreases items, 0, 0
  {
    if items == [] then Ok([])
    else
      var first := Decode(types, p, t, items[0]);
      if first.Err? then Err(first.error)
      else
        var rest := DecodeItems(types, p, t, items[1..]);
        if rest.Err? then rest else Ok([first.value] + rest.value)
  }

  function DecodeFields(types: Types, p: Primitives, fields: seq<Field>,
                        properties: seq<Property>): Result<seq<Data>, EncodeError>
    decreases properties, |fields|, 1
  {
    if fields == [] then Ok([])
    else
      var first := DecodeProperty(types, p, fields[0].fieldType, fields[0].name, properties);
      if first.Err? then Err(first.error)
      else
        var rest := DecodeFields(types, p, fields[1..], properties);
        if rest.Err? then rest else Ok([first.value] + rest.value)
  }

  function DecodeProperty(types: Types, p: Primitives, t: string, name: string,
                          properties: seq<Property>): Result<Data, EncodeError>
    decreases properties, 0, 0
  {
    if properties == [] then
      if IsArrayType(t) then Err(InvalidArray)
    else if t in types then Err(InvalidStruct)
    else DecodeAtom(p, t, Undefined)
    else if properties[0].name == name then Decode(types, p, t, properties[0].value)
    else DecodeProperty(types, p, t, name, properties[1..])
  }

  function DecodeAtom(p: Primitives, t: string, value: Value): Result<Data, EncodeError> {
    if t == "string" then Ok(Text(p.utf8(p.Text(value))))
    else if t == "bytes" then
      var raw := if value.Buf? then Ok(value.bytes) else HexBytes(p.Text(value));
      if raw.Err? then Err(raw.error) else Ok(Blob(raw.value))
    else if t == "address" then
      var raw := HexBytes(p.Text(value));
      if raw.Err? then Err(raw.error) else if |raw.value| != 20 then Err(InvalidAddress) else Ok(Address(raw.value))
    else if t == "uint256" then Numeric(Uint(p.bigInt(p.Text(value)), 32))
    else if t == "uint32" then Numeric(Uint(p.Integer(value), 4))
    else Err(UnsupportedType)
  }

  function Numeric(n: Result<nat, EncodeError>): Result<Data, EncodeError> {
    if n.Err? then Err(n.error) else Ok(Number(n.value))
  }

  /** Every kind of data becomes one word: atoms that fit directly, everything else through the hash. */
  function EncodeData(types: Types, p: Primitives, d: Data): Bytes
    decreases d
  {
    match d
    case Text(utf8) => p.keccak(utf8)
    case Blob(bytes) => p.keccak(bytes)
    case Address(account) => seq(12, _ => 0) + account
    case Number(n) => BigEndian(n, 32)
    case Array(items) => p.keccak(Joined(types, p, items))
    case Struct(name, fields) => p.keccak(Preimage(types, p, name, Joined(types, p, fields)))
  }

  function Joined(types: Types, p: Primitives, items: seq<Data>): Bytes
    decreases items
  {
    if items == [] then [] else EncodeData(types, p, items[0]) + Joined(types, p, items[1..])
  }

  function Preimage(types: Types, p: Primitives, name: string, fields: Bytes): Bytes {
    if name in types then TypeHash(types, p, name) + fields else fields
  }

  function Mapped(types: Types, p: Primitives, d: Result<Data, EncodeError>): Result<Bytes, EncodeError> {
    if d.Err? then Err(d.error) else Ok(EncodeData(types, p, d.value))
  }

  function MappedAll(types: Types, p: Primitives, d: Result<seq<Data>, EncodeError>): Result<Bytes, EncodeError> {
    if d.Err? then Err(d.error) else Ok(Joined(types, p, d.value))
  }

  /** The encoder reads the value as typed data and encodes that: same results and same errors. */
  lemma {:induction false} EncoderReadsData(types: Types, p: Primitives, t: string, value: Value)
    ensures EncodeValue(types, p, t, value) == Mapped(types, p, Decode(types, p, t, value))
    decreases value, 0, 0
  {
    if IsArrayType(t) {
      if value.Arr? {
        ItemsReadData(types, p, t[..|t| - 2], value.items);
      }
    } else if t in types {
      if value.Obj? {
        FieldsReadData(types, p, types[t], value.properties);
        StructReadsData(types, p, t, value.properties);
      }
    } else {
      AtomReadsData(types, p, t, value);
    }
  }

  lemma StructReadsData(types: Types, p: Primitives, t: string, properties: seq<Property>)
    requires t in types && !IsArrayType(t)
    requires EncodeFields(types, p, types[t], properties)
        == MappedAll(types, p, DecodeFields(types, p, types[t], properties))
    ensures HashStruct(types, p, t, properties) == Mapped(types, p, Decode(types, p, t, Obj(properties)))
  {
  }

  lemma AtomReadsData(types: Types, p: Primitives, t: string, value: Value)
    ensures EncodeAtom(p, t, value) == Mapped(types, p, DecodeAtom(p, t, value))
  {
  }

  lemma {:induction false} ItemsReadData(types: Types, p: Primitives, t: string, items: seq<Value>)
    ensures EncodeItems(types, p, t, items) == MappedAll(types, p, DecodeItems(types, p, t, items))
    decreases items, 0, 0
  {
    if items != [] {
      EncoderReadsData(types, p, t, items[0]);
      ItemsReadData(types, p, t, items[1..]);
      JoinFirst(types, p, Decode(types, p, t, items[0]), DecodeItems(types, p, t, items[1..]));
    }
  }

  lemma {:induction false} FieldsReadData(types: Types, p: Primitives, fields: seq<Field>, properties: seq<Property>)
    ensures EncodeFields(types, p, fields, properties)
        == MappedAll(types, p, DecodeFields(types, p, fields, properties))
    decreases properties, |fields|, 1
  {
    if fields != [] {
      PropertyReadsData(types, p, fields[0].fieldType, fields[0].name, properties);
      FieldsReadData(types, p, fields[1..], properties);
      JoinFirst(types, p, DecodeProperty(types, p, fields[0].fieldType, fields[0].name, properties),
                DecodeFields(types, p, fields[1..], properties));
    }
  }

  lemma {:induction false} PropertyReadsData(types: Types, p: Primitives, t: string, name: string,
                                             properties: seq<Property>)
    ensures EncodeProperty(types, p, t, name, properties)
        == Mapped(types, p, DecodeProperty(types, p, t, name, properties))
    decreases properties, 0, 0
  {
    if properties == [] {
      AtomReadsData(types, p, t, Undefined);
    } else {
      if properties[0].name == name {
        EncoderReadsData(types, p, t, properties[0].value);
      } else {
        PropertyReadsData(types, p, t, name, properties[1..]);
      }
    }
  }

  lemma JoinFirst(types: Types, p: Primitives, first: Result<Data, EncodeError>, rest: Result<seq<Data>, EncodeError>)
    ensures first.Ok? && rest.Ok? ==>
      Joined(types, p, [first.value] + rest.value) == EncodeData(types, p, first.value) + Joined(types, p, rest.value)
  {
    if first.Ok? && rest.Ok? {
      assert ([first.value] + rest.value)[1..] == rest.value;
    }
  }

  // ---------------------------------------------------------------- typing

  /** Data of a type: what decoding produces. */
  ghost predicate HasType(types: Types, t: string, d: Data)
    decreases d
  {
    if IsArrayType(t) then d.Array? && forall i | 0 <= i < |d.items| :: HasType(types, t[..|t| - 2], d.items[i])
    else if t in types then
      && d.Struct? && d.name == t && |d.fields| == |types[t]|
      && forall i | 0 <= i < |d.fields| :: HasType(types, types[t][i].fieldType, d.fields[i])
    else if t == "string" then d.Text?
    else if t == "bytes" then d.Blob?
    else if t == "address" then d.Address? && |d.account| == 20
    else if t == "uint256" then d.Number? && d.number < Pow256(32)
    else if t == "uint32" then d.Number? && d.number < Pow256(4)
    else false
  }

  lemma {:induction false} DecodedHasType(types: Types, p: Primitives, t: string, value: Value)
    requires Decode(types, p, t, value).Ok?
    ensures HasType(types, t, Decode(types, p, t, value).value)
    decreases value, 0, 0
  {
    if IsArrayType(t) {
      ItemsHaveType(types, p, t[..|t| - 2], value.items);
    } else if t in types {
      FieldsHaveType(types, p, types[t], value.properties);
    }
  }

  lemma {:induction false} ItemsHaveType(types: Types, p: Primitives, t: string, items: seq<Value>)
    requires DecodeItems(types, p, t, items).Ok?
    ensures |DecodeItems(types, p, t, items).value| == |items|
    ensures forall d | d in DecodeItems(types, p, t, items).value :: HasType(types, t, d)
    decreases items, 0, 0
  {
    if items != [] {
      DecodedHasType(types, p, t, items[0]);
      ItemsHaveType(types, p, t, items[1..]);
    }
  }

  lemma {:induction false} FieldsHaveType(types: Types, p: Primitives, fields: seq<Field>, properties: seq<Property>)
    requires DecodeFields(types, p, fields, properties).Ok?
    ensures
      var d := DecodeFields(types, p, fields, properties).value;
      |d| == |fields| && forall i | 0 <= i < |d| :: HasType(types, fields[i].fieldType, d[i])
    decreases properties, |fields|, 1
  {
    if fields != [] {
      PropertyHasType(types, p, fields[0].fieldType, fields[0].name, properties);
      FieldsHaveType(types, p, fields[1..], properties);
    }
  }

  lemma {:induction false} PropertyHasType(types: Types, p: Primitives, t: string, name: string,
                                           properties: seq<Property>)
    requires DecodeProperty(types, p, t, name, properties).Ok?
    ensures HasType(types, t, DecodeProperty(types, p, t, name, properties).value)
    decreases properties, 0, 0
  {
    if properties != [] {
      if properties[0].name == name {
        DecodedHasType(types, p, t, properties[0].value);
      } else {
        PropertyHasType(types, p, t, name, properties[1..]);
      }
    }
  }

  // ---------------------------------------------------------------- commitment

  /** Everything fed to the hash while the data is encoded, type strings apart. */
  ghost function Hashed(types: Types, p: Primitives, d: Data): set<Bytes>
    decreases d
  {
    match d
    case Text(utf8) => {utf8}
    case Blob(bytes) => {bytes}
    case Address(account) => {}
    case Number(n) => {}
    case Array(items) => {Joined(types, p, items)} + HashedAll(types, p, items)
    case Struct(name, fields) => {Preimage(types, p, name, Joined(types, p, fields))} + HashedAll(types, p, fields)
  }

  ghost function HashedAll(types: Types, p: Primitives, items: seq<Data>): set<Bytes>
    decreases items
  {
    if items == [] then {} else Hashed(types, p, items[0]) + HashedAll(types, p, items[1..])
  }

  /** No two of these inputs collide: what a collision-resistant hash is assumed for. */
  ghost predicate NoCollision(p: Primitives, inputs: set<Bytes>) {
    forall x, y | x in inputs && y in inputs :: p.keccak(x) == p.keccak(y) ==> x == y
  }

  lemma EveryValueIsAWord(types: Types, p: Primitives, t: string, d: Data)
    requires p.HashesTo32() && HasType(types, t, d)
    ensures |EncodeData(types, p, d)| == 32
  {
  }

  lemma {:induction false} JoinedLength(types: Types, p: Primitives, ts: seq<string>, items: seq<Data>)
    requires p.HashesTo32() && |ts| == |items|
    requires forall i | 0 <= i < |items| :: HasType(types, ts[i], items[i])
    ensures |Joined(types, p, items)| == 32 * |items|
    decreases |items|
  {
    if items != [] {
      EveryValueIsAWord(types, p, ts[0], items[0]);
      JoinedLength(types, p, ts[1..], items[1..]);
    }
  }

  lemma WordsDecide(m: nat, n: nat)
    requires m < Pow256(32) && n < Pow256(32)
    requires BigEndian(m, 32) == BigEndian(n, 32)
    ensures m == n
  {
    BigEndianRoundTrip(m, 32);
    BigEndianRoundTrip(n, 32);
  }

  lemma AtomCommits(types: Types, p: Primitives, t: string, a: Data, b: Data, inputs: set<Bytes>)
    requires p.HashesTo32() && NoCollision(p, inputs)
    requires !IsArrayType(t) && t !in types
    requires HasType(types, t, a) && HasType(types, t, b)
    requires Hashed(types, p, a) <= inputs && Hashed(types, p, b) <= inputs
    requires EncodeData(types, p, a) == EncodeData(types, p, b)
    ensures a == b
  {
    if a.Text? {
      assert a.utf8 in inputs && b.utf8 in inputs;
    } else if a.Blob? {
      assert a.bytes in inputs && b.bytes in inputs;
    } else if a.Address? {
      assert a.account == EncodeData(types, p, a)[12..] == EncodeData(types, p, b)[12..] == b.account;
    } else {
      Pow256Monotone(4, 32);
      WordsDecide(a.number, b.number);
    }
  }

  /** Typed data with one encoding is one piece of data, unless two of the inputs hashed on the way collide. */
  lemma {:induction false} EncodingCommits(types: Types, p: Primitives, t: string, a: Data, b: Data, inputs: set<Bytes>)
    requires p.HashesTo32() && NoCollision(p, inputs)
    requires HasType(types, t, a) && HasType(types, t, b)
    requires Hashed(types, p, a) <= inputs && Hashed(types, p, b) <= inputs
    requires EncodeData(types, p, a) == EncodeData(types, p, b)
    ensures a == b
    decreases a, 0
  {
    if IsArrayType(t) {
      ArrayCommits(types, p, t[..|t| - 2], a.items, b.items, inputs);
    } else if t in types {
      StructCommits(types, p, t, a.fields, b.fields, inputs);
    } else {
      AtomCommits(types, p, t, a, b, inputs);
    }
  }

  /** An array's hash fixes its length as well as its items. */
  lemma {:induction false} ArrayCommits(types: Types, p: Primitives, t: string, a: seq<Data>, b: seq<Data>,
                                        inputs: set<Bytes>)
    requires p.HashesTo32() && NoCollision(p, inputs)
    requires forall i | 0 <= i < |a| :: HasType(types, t, a[i])
    requires forall i | 0 <= i < |b| :: HasType(types, t, b[i])
    requires Joined(types, p, a) in inputs && Joined(types, p, b) in inputs
    requires HashedAll(types, p, a) <= inputs && HashedAll(types, p, b) <= inputs
    requires p.keccak(Joined(types, p, a)) == p.keccak(Joined(types, p, b))
    ensures a == b
    decreases a, 1
  {
    var ts, us := seq(|a|, _ => t), seq(|b|, _ => t);
    JoinedLength(types, p, ts, a);
    JoinedLength(types, p, us, b);
    JoinedCommits(types, p, ts, a, b, inputs);
  }

  lemma {:induction false} StructCommits(types: Types, p: Primitives, t: string, a: seq<Data>, b: seq<Data>,
                                         inputs: set<Bytes>)
    requires p.HashesTo32() && NoCollision(p, inputs) && t in types
    requires |a| == |b| == |types[t]|
    requires forall i | 0 <= i < |a| ::
        HasType(types, types[t][i].fieldType, a[i]) && HasType(types, types[t][i].fieldType, b[i])
    requires Hashed(types, p, Struct(t, a)) <= inputs && Hashed(types, p, Struct(t, b)) <= inputs
    requires EncodeData(types, p, Struct(t, a)) == EncodeData(types, p, Struct(t, b))
    ensures a == b
    decreases a, 1
  {
    var one, other := Preimage(types, p, t, Joined(types, p, a)), Preimage(types, p, t, Joined(types, p, b));
    assert one in Hashed(types, p, Struct(t, a)) && other in Hashed(types, p, Struct(t, b));
    assert one == other;
    assert one[32..] == Joined(types, p, a) && other[32..] == Joined(types, p, b);
    var ts := seq(|a|, i requires 0 <= i < |a| => types[t][i].fieldType);
    JoinedCommits(types, p, ts, a, b, inputs);
  }

  /** Words side by side are told apart one after the other. */
  lemma {:induction false} JoinedCommits(types: Types, p: Primitives, ts: seq<string>, a: seq<Data>, b: seq<Data>,
                                         inputs: set<Bytes>)
    requires p.HashesTo32() && NoCollision(p, inputs)
    requires |ts| == |a| == |b|
    requires forall i | 0 <= i < |a| :: HasType(types, ts[i], a[i]) && HasType(types, ts[i], b[i])
    requires HashedAll(types, p, a) <= inputs && HashedAll(types, p, b) <= inputs
    requires Joined(types, p, a) == Joined(types, p, b)
    ensures a == b
    decreases a, 0
  {
    if a != [] {
      EveryValueIsAWord(types, p, ts[0], a[0]);
      EveryValueIsAWord(types, p, ts[0], b[0]);
      var ja, jb := Joined(types, p, a), Joined(types, p, b);
      assert EncodeData(types, p, a[0]) == ja[..32] == jb[..32] == EncodeData(types, p, b[0]);
      assert Joined(types, p, a[1..]) == ja[32..] == jb[32..] == Joined(types, p, b[1..]);
      EncodingCommits(types, p, ts[0], a[0], b[0], inputs);
      JoinedCommits(types, p, ts[1..], a[1..], b[1..], inputs);
      assert a == [a[0]] + a[1..] && b == [b[0]] + b[1..];
    }
  }

  // ---------------------------------------------------------------- struct properties by name

  /** A property is found by its name where no earlier one has it. */
  lemma {:induction false} PropertyAt(types: Types, p: Primitives, t: string, name: string, properties: seq<Property>,
                                      i: nat)
    requires i < |properties| && properties[i].name == name
    requires forall j | 0 <= j < i :: properties[j].name != name
    ensures DecodeProperty(types, p, t, name, properties) == Decode(types, p, t, properties[i].value)
  {
    if i > 0 {
      assert properties[0].name != name;
      PropertyAt(types, p, t, name, properties[1..], i - 1);
    }
  }

  /** Fields decode exactly to what each decodes to. */
  lemma {:induction false} FieldsExactly(types: Types, p: Primitives, fields: seq<Field>, properties: seq<Property>,
                                         ds: seq<Data>)
    ensures DecodeFields(types, p, fields, properties) == Ok(ds) <==>
            && |ds| == |fields|
            && forall k | 0 <= k < |fields| ::
                 DecodeProperty(types, p, fields[k].fieldType, fields[k].name, properties) == Ok(ds[k])
    decreases fields
  {
    if fields != [] && ds != [] {
      FieldsExactly(types, p, fields[1..], properties, ds[1..]);
      assert ds == [ds[0]] + ds[1..];
      assert forall k | 1 <= k < |fields| :: fields[k] == fields[1..][k - 1];
      assert forall k | 1 <= k < |ds| :: ds[k] == ds[1..][k - 1];
      assert forall k | 0 <= k < |fields| - 1 :: fields[1..][k] == fields[k + 1];
      assert forall k | 0 <= k < |ds| - 1 :: ds[1..][k] == ds[k + 1];
      var rest := DecodeFields(types, p, fields[1..], properties);
      var first := DecodeProperty(types, p, fields[0].fieldType, fields[0].name, properties);
      assert first.Ok? && rest.Ok? ==> ([first.value] + rest.value)[1..] == rest.value;
    }
  }

  /** Items decode exactly to what each decodes to. */
  lemma {:induction false} ItemsExactly(types: Types, p: Primitives, t: string, items: seq<Value>, ds: seq<Data>)
    ensures DecodeItems(types, p, t, items) == Ok(ds) <==>
            |ds| == |items| && forall k | 0 <= k < |items| :: Decode(types, p, t, items[k]) == Ok(ds[k])
    decreases items
  {
    if items != [] && ds != [] {
      ItemsExactly(types, p, t, items[1..], ds[1..]);
      assert ds == [ds[0]] + ds[1..];
      assert forall k | 1 <= k < |items| :: items[k] == items[1..][k - 1];
      assert forall k | 1 <= k < |ds| :: ds[k] == ds[1..][k - 1];
      assert forall k | 0 <= k < |items| - 1 :: items[1..][k] == items[k + 1];
      assert forall k | 0 <= k < |ds| - 1 :: ds[1..][k] == ds[k + 1];
      var rest := DecodeItems(types, p, t, items[1..]);
      var first := Decode(types, p, t, items[0]);
      assert first.Ok? && rest.Ok? ==> ([first.value] + rest.value)[1..] == rest.value;
    }
  }
}
