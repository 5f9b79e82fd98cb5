/**
  What the data of a normalised order means, told from the order's own texts, and that decoding gives exactly that.
*/
module RelayReading {
  import opened Wrappers
  import opened Eip712
  import opened Eip712Commitment
  import opened RelayTypes
  import opened RelayOrder

  // ---------------------------------------------------------------- what an order means

  /** 2 to the power of 256. */
  const TWO_TO_THE_256 := 0x1_0000000000000000_0000000000000000_0000000000000000_0000000000000000

  ghost predicate MeansText(p: Primitives, d: Data, s: string) {
    d == Text(p.utf8(s))
  }

  predicate MeansBytes(d: Data, s: string) {
    d.Blob? && Spells(s, d.bytes)
  }

  /** A base58 address of 32 bytes on Solana, 20 bytes in hexadecimal elsewhere. */
  predicate AddressIs(p: Primitives, value: string, chainId: string, bytes: Bytes) {
    if chainId == "solana" then p.base58(value) == Some(bytes) && |bytes| == 32
    else Spells(value, bytes) && |bytes| == 20
  }

  predicate MeansAddress(p: Primitives, d: Data, value: string, chainId: string) {
    d.Blob? && AddressIs(p, value, chainId, d.bytes)
  }

  predicate MeansAmount(p: Primitives, d: Data, s: string) {
    d.Number? && p.bigInt(s) == Some(d.number) && d.number < TWO_TO_THE_256
  }

  predicate MeansDeadline(d: Data, n: int) {
    d.Number? && d.number == n && n < 0x1_0000_0000
  }

  predicate IsStruct(d: Data, name: string, size: nat) {
    d.Struct? && d.name == name && |d.fields| == size
  }

  predicate IsArray(d: Data, size: nat) {
    d.Array? && |d.items| == size
  }

  ghost predicate PaymentMeans(p: Primitives, x: Payment, d: Data) {
    && IsStruct(d, "InputPayment", 4)
    && MeansText(p, d.fields[0], x.chainId)
    && MeansAddress(p, d.fields[1], x.currency, x.chainId)
    && MeansAmount(p, d.fields[2], x.amount)
    && MeansAmount(p, d.fields[3], x.weight)
  }

  ghost predicate RefundMeans(p: Primitives, x: Refund, d: Data) {
    && IsStruct(d, "InputRefund", 6)
    && MeansText(p, d.fields[0], x.chainId)
    && MeansAddress(p, d.fields[1], x.recipient, x.chainId)
    && MeansAddress(p, d.fields[2], x.currency, x.chainId)
    && MeansAmount(p, d.fields[3], x.minimumAmount)
    && MeansDeadline(d.fields[4], x.deadline)
    && MeansBytes(d.fields[5], x.extraData)
  }

  ghost predicate RefundsMean(p: Primitives, xs: seq<Refund>, d: Data) {
    IsArray(d, |xs|) && forall i | 0 <= i < |xs| :: RefundMeans(p, xs[i], d.items[i])
  }

  ghost predicate InputMeans(p: Primitives, x: Input, d: Data) {
    && IsStruct(d, "Input", 2)
    && PaymentMeans(p, x.payment, d.fields[0])
    && RefundsMean(p, x.refunds, d.fields[1])
  }

  ghost predicate InputsMean(p: Primitives, xs: seq<Input>, d: Data) {
    IsArray(d, |xs|) && forall i | 0 <= i < |xs| :: InputMeans(p, xs[i], d.items[i])
  }

  ghost predicate OutputPaymentMeans(p: Primitives, x: OutputPayment, chainId: string, d: Data) {
    && IsStruct(d, "OutputPayment", 4)
    && MeansAddress(p, d.fields[0], x.recipient, chainId)
    && MeansAddress(p, d.fields[1], x.currency, chainId)
    && MeansAmount(p, d.fields[2], x.minimumAmount)
    && MeansAmount(p, d.fields[3], x.expectedAmount)
  }

  ghost predicate OutputPaymentsMean(p: Primitives, xs: seq<OutputPayment>, chainId: string, d: Data) {
    IsArray(d, |xs|) && forall i | 0 <= i < |xs| :: OutputPaymentMeans(p, xs[i], chainId, d.items[i])
  }

  ghost predicate CallsMean(xs: seq<string>, d: Data) {
    IsArray(d, |xs|) && forall i | 0 <= i < |xs| :: MeansBytes(d.items[i], xs[i])
  }

  ghost predicate OutputMeans(p: Primitives, x: Output, d: Data) {
    && IsStruct(d, "Output", 5)
    && MeansText(p, d.fields[0], x.chainId)
    && OutputPaymentsMean(p, x.payments, x.chainId, d.fields[1])
    && MeansDeadline(d.fields[2], x.deadline)
    && CallsMean(x.calls, d.fields[3])
    && MeansBytes(d.fields[4], x.extraData)
  }

  ghost predicate FeeMeans(p: Primitives, x: Fee, d: Data) {
    && IsStruct(d, "Fee", 5)
    && MeansText(p, d.fields[0], x.recipientChainId)
    && MeansAddress(p, d.fields[1], x.recipient, x.recipientChainId)
    && MeansText(p, d.fields[2], x.currencyChainId)
    && MeansAddress(p, d.fields[3], x.currency, x.currencyChainId)
    && MeansAmount(p, d.fields[4], x.amount)
  }

  ghost predicate FeesMean(p: Primitives, xs: seq<Fee>, d: Data) {
    IsArray(d, |xs|) && forall i | 0 <= i < |xs| :: FeeMeans(p, xs[i], d.items[i])
  }

  /** The solver is an EVM address. */
  predicate MeansSolver(d: Data, s: string) {
    d.Address? && Spells(s, d.account) && |d.account| == 20
  }

  ghost predicate OrderMeans(p: Primitives, x: Order, d: Data) {
    && IsStruct(d, "Order", 7)
    && MeansText(p, d.fields[0], x.version)
    && MeansText(p, d.fields[1], x.solverChainId)
    && MeansSolver(d.fields[2], x.solver)
    && MeansAmount(p, d.fields[3], x.salt)
    && InputsMean(p, x.inputs, d.fields[4])
    && OutputMeans(p, x.output, d.fields[5])
    && FeesMean(p, x.fees, d.fields[6])
  }

  // ---------------------------------------------------------------- atoms

  /** Decoding what normalisation has given, if it has. */
  function DecodeNormal(p: Primitives, t: string, v: Result<Value, EncodeError>): Result<Data, EncodeError> {
    if v.Err? then Err(v.error) else Decode(TYPES, p, t, v.value)
  }

  lemma AtomsDecode(p: Primitives, t: string, value: Value)
    requires IsAtom(t)
    ensures Decode(TYPES, p, t, value) == DecodeAtom(p, t, value)
  {
    AtomBase(t);
  }

  lemma {:induction false} PowerOf256()
    ensures Pow256(32) == TWO_TO_THE_256 && Pow256(4) == 0x1_0000_0000
  {
    PowerStep(0, 1);
    PowerStep(4, 0x1_0000_0000);
    PowerStep(8, 0x1_0000000000000000);
    PowerStep(12, 0x1_0000000000000000_00000000);
    PowerStep(16, 0x1_0000000000000000_0000000000000000);
    PowerStep(20, 0x1_0000000000000000_0000000000000000_00000000);
    PowerStep(24, 0x1_0000000000000000_0000000000000000_0000000000000000);
    PowerStep(28, 0x1_0000000000000000_0000000000000000_0000000000000000_00000000);
  }

  lemma PowerStep(k: nat, n: nat)
    requires Pow256(k) == n
    ensures Pow256(k + 4) == 0x1_0000_0000 * n
  {
    assert Pow256(k + 1) == 256 * n;
    assert Pow256(k + 2) == 256 * (256 * n);
    assert Pow256(k + 3) == 256 * (256 * (256 * n));
  }

  lemma TextReads(p: Primitives, s: string, d: Data)
    ensures Decode(TYPES, p, "string", Str(s)) == Ok(d) <==> MeansText(p, d, s)
  {
    AtomsDecode(p, "string", Str(s));
  }

  lemma HexReads(p: Primitives, s: string, d: Data)
    ensures Decode(TYPES, p, "bytes", Str(s)) == Ok(d) <==> MeansBytes(d, s)
  {
    AtomsDecode(p, "bytes", Str(s));
    HexBytesExact(s);
  }

  /** Hex text that normalisation has turned into a buffer. */
  lemma BufferReads(p: Primitives, s: string, d: Data)
    ensures DecodeNormal(p, "bytes", NormalCall(s)) == Ok(d) <==> MeansBytes(d, s)
  {
    HexBytesExact(s);
    if HexBytes(s).Ok? {
      AtomsDecode(p, "bytes", Buf(HexBytes(s).value));
    }
  }

  lemma AddressBytesExact(p: Primitives, value: string, chainId: string, bytes: Bytes)
    ensures AddressBytes(p, value, chainId) == Ok(bytes) <==> AddressIs(p, value, chainId, bytes)
    ensures AddressBytes(p, value, chainId) == Err(InvalidHex) <==>
            chainId != "solana" && !exists b: Bytes :: Spells(value, b)
    ensures AddressBytes(p, value, chainId).Err? ==>
            AddressBytes(p, value, chainId).error in {InvalidHex, InvalidAddress}
  {
    HexBytesExact(value);
    if HexBytes(value).Ok? {
      assert Spells(value, HexBytes(value).value);
    }
  }

  /** An address that normalisation has turned into a buffer. */
  lemma AddressReads(p: Primitives, value: string, chainId: string, d: Data)
    ensures MeansAddress(p, d, value, chainId) <==>
            && AddressBytes(p, value, chainId).Ok?
            && Decode(TYPES, p, "bytes", Buf(AddressBytes(p, value, chainId).value)) == Ok(d)
  {
    var raw := AddressBytes(p, value, chainId);
    if raw.Ok? {
      AtomsDecode(p, "bytes", Buf(raw.value));
    }
    if d.Blob? {
      AddressBytesExact(p, value, chainId, d.bytes);
    }
  }

  lemma AmountReads(p: Primitives, s: string, d: Data)
    ensures Decode(TYPES, p, "uint256", Str(s)) == Ok(d) <==> MeansAmount(p, d, s)
  {
    AtomsDecode(p, "uint256", Str(s));
    PowerOf256();
  }

  lemma DeadlineReads(p: Primitives, n: int, d: Data)
    ensures Decode(TYPES, p, "uint32", Num(n)) == Ok(d) <==> MeansDeadline(d, n)
  {
    AtomsDecode(p, "uint32", Num(n));
    PowerOf256();
  }

  lemma SolverReads(p: Primitives, s: string, d: Data)
    ensures Decode(TYPES, p, "address", Str(s)) == Ok(d) <==> MeansSolver(d, s)
  {
    AtomsDecode(p, "address", Str(s));
    HexBytesExact(s);
  }

  // ---------------------------------------------------------------- structs and arrays

  /** Where the field's property stands: the first one with its name. */
  predicate StandsAt(properties: seq<Property>, name: string, place: nat) {
    && place < |properties| && properties[place].name == name
    && forall j | 0 <= j < place :: properties[j].name != name
  }

  predicate Reads(p: Primitives, t: string, value: Value, d: Data) {
    Decode(TYPES, p, t, value) == Ok(d)
  }

  ghost predicate AllRead(p: Primitives, fields: seq<Field>, properties: seq<Property>, places: seq<nat>,
                          ds: seq<Data>)
  {
    && |fields| == |places| == |ds|
    && forall k | 0 <= k < |fields| ::
         places[k] < |properties| && Reads(p, fields[k].fieldType, properties[places[k]].value, ds[k])
  }

  /** The struct at a name of the table decodes exactly to its fields, each from the property with its name. */
  lemma StructReads(p: Primitives, t: string, fields: seq<Field>, properties: seq<Property>, places: seq<nat>, d: Data)
    requires t in TYPES && TYPES[t] == fields && |places| == |fields|
    requires forall k | 0 <= k < |fields| ::
        places[k] < |properties| && StandsAt(properties, fields[k].name, places[k])
    ensures Decode(TYPES, p, t, Obj(properties)) == Ok(d) <==>
            IsStruct(d, t, |fields|) && AllRead(p, fields, properties, places, d.fields)
  {
    Table();
    forall k | 0 <= k < |fields|
      ensures DecodeProperty(TYPES, p, fields[k].fieldType, fields[k].name, properties)
           == Decode(TYPES, p, fields[k].fieldType, properties[places[k]].value)
    {
      assert StandsAt(properties, fields[k].name, places[k]);
      PropertyAt(TYPES, p, fields[k].fieldType, fields[k].name, properties, places[k]);
    }
    if d.Struct? {
      FieldsExactly(TYPES, p, fields, properties, d.fields);
    }
  }

  /** An array of collected results decodes exactly to what each result decodes to. */
  lemma ArrayReads(p: Primitives, element: string, results: seq<Result<Value, EncodeError>>, d: Data)
    ensures (Collect(results).Ok? && Decode(TYPES, p, element + "[]", Arr(Collect(results).value)) == Ok(d)) <==>
            && IsArray(d, |results|)
            && forall i | 0 <= i < |results| :: DecodeNormal(p, element, results[i]) == Ok(d.items[i])
  {
    var t := element + "[]";
    assert IsArrayType(t) && t[..|t| - 2] == element;
    if Collect(results).Ok? {
      var values := Collect(results).value;
      CollectExactly(results, values);
      if d.Array? {
        ItemsExactly(TYPES, p, element, values, d.items);
      }
    } else if && IsArray(d, |results|)
              && forall i | 0 <= i < |results| :: DecodeNormal(p, element, results[i]) == Ok(d.items[i]) {
      var values := seq(|results|, i requires 0 <= i < |results| => results[i].value);
      CollectExactly(results, values);
    }
  }

  predicate PaymentNamed(properties: seq<Property>) {
    && |properties| == 4
    && properties[0].name == "chainId" && properties[1].name == "currency" && properties[2].name == "amount"
    && properties[3].name == "weight"
  }

  lemma PaymentAllRead(p: Primitives, properties: seq<Property>, ds: seq<Data>)
    requires |properties| == 4 && |ds| == 4
    ensures AllRead(p, PAYMENT_FIELDS, properties, [0, 1, 2, 3], ds) <==>
            && Reads(p, "string", properties[0].value, ds[0])
            && Reads(p, "bytes", properties[1].value, ds[1])
            && Reads(p, "uint256", properties[2].value, ds[2])
            && Reads(p, "uint256", properties[3].value, ds[3])
  {
  }

  lemma PaymentFields(p: Primitives, properties: seq<Property>, d: Data)
    requires PaymentNamed(properties)
    ensures Decode(TYPES, p, "InputPayment", Obj(properties)) == Ok(d) <==>
            && IsStruct(d, "InputPayment", 4)
            && Reads(p, "string", properties[0].value, d.fields[0])
            && Reads(p, "bytes", properties[1].value, d.fields[1])
            && Reads(p, "uint256", properties[2].value, d.fields[2])
            && Reads(p, "uint256", properties[3].value, d.fields[3])
  {
    Table();
    PaymentPlaces(properties);
    StructReads(p, "InputPayment", PAYMENT_FIELDS, properties, [0, 1, 2, 3], d);
    if IsStruct(d, "InputPayment", 4) {
      PaymentAllRead(p, properties, d.fields);
    }
  }

  lemma PaymentPlaces(properties: seq<Property>)
    requires PaymentNamed(properties)
    ensures forall k | 0 <= k < 4 :: StandsAt(properties, PAYMENT_FIELDS[k].name, [0, 1, 2, 3][k])
  {
  }

  predicate RefundNamed(properties: seq<Property>) {
    && |properties| == 6
    && properties[0].name == "chainId" && properties[1].name == "recipient" && properties[2].name == "currency"
    && properties[3].name == "minimumAmount" && properties[4].name == "deadline"
    && properties[5].name == "extraData"
  }

  lemma RefundAllRead(p: Primitives, properties: seq<Property>, ds: seq<Data>)
    requires |properties| == 6 && |ds| == 6
    ensures AllRead(p, REFUND_FIELDS, properties, [0, 1, 2, 3, 4, 5], ds) <==>
            && Reads(p, "string", properties[0].value, ds[0])
            && Reads(p, "bytes", properties[1].value, ds[1])
            && Reads(p, "bytes", properties[2].value, ds[2])
            && Reads(p, "uint256", properties[3].value, ds[3])
            && Reads(p, "uint32", properties[4].value, ds[4])
            && Reads(p, "bytes", properties[5].value, ds[5])
  {
  }

  lemma RefundFields(p: Primitives, properties: seq<Property>, d: Data)
    requires RefundNamed(properties)
    ensures Decode(TYPES, p, "InputRefund", Obj(properties)) == Ok(d) <==>
            && IsStruct(d, "InputRefund", 6)
            && Reads(p, "string", properties[0].value, d.fields[0])
            && Reads(p, "bytes", properties[1].value, d.fields[1])
            && Reads(p, "bytes", properties[2].value, d.fields[2])
            && Reads(p, "uint256", properties[3].value, d.fields[3])
            && Reads(p, "uint32", properties[4].value, d.fields[4])
            && Reads(p, "bytes", properties[5].value, d.fields[5])
  {
    Table();
    RefundPlaces(properties);
    StructReads(p, "InputRefund", REFUND_FIELDS, properties, [0, 1, 2, 3, 4, 5], d);
    if IsStruct(d, "InputRefund", 6) {
      RefundAllRead(p, properties, d.fields);
    }
  }

  lemma RefundPlaces(properties: seq<Property>)
    requires RefundNamed(properties)
    ensures forall k | 0 <= k < 6 :: StandsAt(properties, REFUND_FIELDS[k].name, [0, 1, 2, 3, 4, 5][k])
  {
  }

  predicate InputNamed(properties: seq<Property>) {
    && |properties| == 2
    && properties[0].name == "payment" && properties[1].name == "refunds"
  }

  lemma InputAllRead(p: Primitives, properties: seq<Property>, ds: seq<Data>)
    requires |properties| == 2 && |ds| == 2
    ensures AllRead(p, INPUT_FIELDS, properties, [0, 1], ds) <==>
            && Reads(p, "InputPayment", properties[0].value, ds[0])
            && Reads(p, "InputRefund[]", properties[1].value, ds[1])
  {
  }

  lemma InputFields(p: Primitives, properties: seq<Property>, d: Data)
    requires InputNamed(properties)
    ensures Decode(TYPES, p, "Input", Obj(properties)) == Ok(d) <==>
            && IsStruct(d, "Input", 2)
            && Reads(p, "InputPayment", properties[0].value, d.fields[0])
            && Reads(p, "InputRefund[]", properties[1].value, d.fields[1])
  {
    Table();
    InputPlaces(properties);
    StructReads(p, "Input", INPUT_FIELDS, properties, [0, 1], d);
    if IsStruct(d, "Input", 2) {
      InputAllRead(p, properties, d.fields);
    }
  }

  lemma InputPlaces(properties: seq<Property>)
    requires InputNamed(properties)
    ensures forall k | 0 <= k < 2 :: StandsAt(properties, INPUT_FIELDS[k].name, [0, 1][k])
  {
  }

  predicate OutputPaymentNamed(properties: seq<Property>) {
    && |properties| == 4
    && properties[0].name == "recipient" && properties[1].name == "currency"
    && properties[2].name == "minimumAmount" && properties[3].name == "expectedAmount"
  }

  lemma OutputPaymentAllRead(p: Primitives, properties: seq<Property>, ds: seq<Data>)
    requires |properties| == 4 && |ds| == 4
    ensures AllRead(p, OUTPUT_PAYMENT_FIELDS, properties, [0, 1, 2, 3], ds) <==>
            && Reads(p, "bytes", properties[0].value, ds[0])
            && Reads(p, "bytes", properties[1].value, ds[1])
            && Reads(p, "uint256", properties[2].value, ds[2])
            && Reads(p, "uint256", properties[3].value, ds[3])
  {
  }

  lemma OutputPaymentFields(p: Primitives, properties: seq<Property>, d: Data)
    requires OutputPaymentNamed(properties)
    ensures Decode(TYPES, p, "OutputPayment", Obj(properties)) == Ok(d) <==>
            && IsStruct(d, "OutputPayment", 4)
            && Reads(p, "bytes", properties[0].value, d.fields[0])
            && Reads(p, "bytes", properties[1].value, d.fields[1])
            && Reads(p, "uint256", properties[2].value, d.fields[2])
            && Reads(p, "uint256", properties[3].value, d.fields[3])
  {
    Table();
    OutputPaymentPlaces(properties);
    StructReads(p, "OutputPayment", OUTPUT_PAYMENT_FIELDS, properties, [0, 1, 2, 3], d);
    if IsStruct(d, "OutputPayment", 4) {
      OutputPaymentAllRead(p, properties, d.fields);
    }
  }

  lemma OutputPaymentPlaces(properties: seq<Property>)
    requires OutputPaymentNamed(properties)
    ensures forall k | 0 <= k < 4 :: StandsAt(properties, OUTPUT_PAYMENT_FIELDS[k].name, [0, 1, 2, 3][k])
  {
  }

  predicate OutputNamed(properties: seq<Property>) {
    && |properties| == 5
    && properties[0].name == "chainId" && properties[1].name == "payments" && properties[2].name == "calls"
    && properties[3].name == "deadline" && properties[4].name == "extraData"
  }

  lemma OutputAllRead(p: Primitives, properties: seq<Property>, ds: seq<Data>)
    requires |properties| == 5 && |ds| == 5
    ensures AllRead(p, OUTPUT_FIELDS, properties, [0, 1, 3, 2, 4], ds) <==>
            && Reads(p, "string", properties[0].value, ds[0])
            && Reads(p, "OutputPayment[]", properties[1].value, ds[1])
            && Reads(p, "uint32", properties[3].value, ds[2])
            && Reads(p, "bytes[]", properties[2].value, ds[3])
            && Reads(p, "bytes", properties[4].value, ds[4])
  {
  }

  lemma OutputFields(p: Primitives, properties: seq<Property>, d: Data)
    requires OutputNamed(properties)
    ensures Decode(TYPES, p, "Output", Obj(properties)) == Ok(d) <==>
            && IsStruct(d, "Output", 5)
            && Reads(p, "string", properties[0].value, d.fields[0])
            && Reads(p, "OutputPayment[]", properties[1].value, d.fields[1])
            && Reads(p, "uint32", properties[3].value, d.fields[2])
            && Reads(p, "bytes[]", properties[2].value, d.fields[3])
            && Reads(p, "bytes", properties[4].value, d.fields[4])
  {
    Table();
    OutputPlaces(properties);
    StructReads(p, "Output", OUTPUT_FIELDS, properties, [0, 1, 3, 2, 4], d);
    if IsStruct(d, "Output", 5) {
      OutputAllRead(p, properties, d.fields);
    }
  }

  lemma OutputPlaces(properties: seq<Property>)
    requires OutputNamed(properties)
    ensures forall k | 0 <= k < 5 :: StandsAt(properties, OUTPUT_FIELDS[k].name, [0, 1, 3, 2, 4][k])
  {
  }

  predicate FeeNamed(properties: seq<Property>) {
    && |properties| == 5
    && properties[0].name == "recipientChainId" && properties[1].name == "recipient"
    && properties[2].name == "currencyChainId" && properties[3].name == "currency" && properties[4].name == "amount"
  }

  lemma FeeAllRead(p: Primitives, properties: seq<Property>, ds: seq<Data>)
    requires |properties| == 5 && |ds| == 5
    ensures AllRead(p, FEE_FIELDS, properties, [0, 1, 2, 3, 4], ds) <==>
            && Reads(p, "string", properties[0].value, ds[0])
            && Reads(p, "bytes", properties[1].value, ds[1])
            && Reads(p, "string", properties[2].value, ds[2])
            && Reads(p, "bytes", properties[3].value, ds[3])
            && Reads(p, "uint256", properties[4].value, ds[4])
  {
  }

  lemma FeeFields(p: Primitives, properties: seq<Property>, d: Data)
    requires FeeNamed(properties)
    ensures Decode(TYPES, p, "Fee", Obj(properties)) == Ok(d) <==>
            && IsStruct(d, "Fee", 5)
            && Reads(p, "string", properties[0].value, d.fields[0])
            && Reads(p, "bytes", properties[1].value, d.fields[1])
            && Reads(p, "string", properties[2].value, d.fields[2])
            && Reads(p, "bytes", properties[3].value, d.fields[3])
            && Reads(p, "uint256", properties[4].value, d.fields[4])
  {
    Table();
    FeePlaces(properties);
    StructReads(p, "Fee", FEE_FIELDS, properties, [0, 1, 2, 3, 4], d);
    if IsStruct(d, "Fee", 5) {
      FeeAllRead(p, properties, d.fields);
    }
  }

  lemma FeePlaces(properties: seq<Property>)
    requires FeeNamed(properties)
    ensures forall k | 0 <= k < 5 :: StandsAt(properties, FEE_FIELDS[k].name, [0, 1, 2, 3, 4][k])
  {
  }

  predicate OrderNamed(properties: seq<Property>) {
    && |properties| == 7
    && properties[0].name == "version" && properties[1].name == "solverChainId" && properties[2].name == "solver"
    && properties[3].name == "salt" && properties[4].name == "inputs" && properties[5].name == "output"
    && properties[6].name == "fees"
  }

  lemma OrderAllRead(p: Primitives, properties: seq<Property>, ds: seq<Data>)
    requires |properties| == 7 && |ds| == 7
    ensures AllRead(p, ORDER_FIELDS, properties, [0, 1, 2, 3, 4, 5, 6], ds) <==>
            && Reads(p, "string", properties[0].value, ds[0])
            && Reads(p, "string", properties[1].value, ds[1])
            && Reads(p, "address", properties[2].value, ds[2])
            && Reads(p, "uint256", properties[3].value, ds[3])
            && Reads(p, "Input[]", properties[4].value, ds[4])
            && Reads(p, "Output", properties[5].value, ds[5])
            && Reads(p, "Fee[]", properties[6].value, ds[6])
  {
  }

  lemma OrderFields(p: Primitives, properties: seq<Property>, d: Data)
    requires OrderNamed(properties)
    ensures Decode(TYPES, p, "Order", Obj(properties)) == Ok(d) <==>
            && IsStruct(d, "Order", 7)
            && Reads(p, "string", properties[0].value, d.fields[0])
            && Reads(p, "string", properties[1].value, d.fields[1])
            && Reads(p, "address", properties[2].value, d.fields[2])
            && Reads(p, "uint256", properties[3].value, d.fields[3])
            && Reads(p, "Input[]", properties[4].value, d.fields[4])
            && Reads(p, "Output", properties[5].value, d.fields[5])
            && Reads(p, "Fee[]", properties[6].value, d.fields[6])
  {
    Table();
    OrderPlaces(properties);
    StructReads(p, "Order", ORDER_FIELDS, properties, [0, 1, 2, 3, 4, 5, 6], d);
    if IsStruct(d, "Order", 7) {
      OrderAllRead(p, properties, d.fields);
    }
  }

  lemma OrderPlaces(properties: seq<Property>)
    requires OrderNamed(properties)
    ensures forall k | 0 <= k < 7 :: StandsAt(properties, ORDER_FIELDS[k].name, [0, 1, 2, 3, 4, 5, 6][k])
  {
  }

  // ---------------------------------------------------------------- normalised values read as they mean

  lemma PaymentReads(p: Primitives, x: Payment, d: Data)
    ensures DecodeNormal(p, "InputPayment", NormalPayment(p, x)) == Ok(d) <==> PaymentMeans(p, x, d)
  {
    if IsStruct(d, "InputPayment", 4) {
      TextReads(p, x.chainId, d.fields[0]);
      AddressReads(p, x.currency, x.chainId, d.fields[1]);
      AmountReads(p, x.amount, d.fields[2]);
      AmountReads(p, x.weight, d.fields[3]);
    }
    if NormalPayment(p, x).Ok? {
      PaymentFields(p, NormalPayment(p, x).value.properties, d);
    }
  }

  lemma RefundReads(p: Primitives, x: Refund, d: Data)
    ensures DecodeNormal(p, "InputRefund", NormalRefund(p, x)) == Ok(d) <==> RefundMeans(p, x, d)
  {
    if IsStruct(d, "InputRefund", 6) {
      TextReads(p, x.chainId, d.fields[0]);
      AddressReads(p, x.recipient, x.chainId, d.fields[1]);
      AddressReads(p, x.currency, x.chainId, d.fields[2]);
      AmountReads(p, x.minimumAmount, d.fields[3]);
      DeadlineReads(p, x.deadline, d.fields[4]);
      HexReads(p, x.extraData, d.fields[5]);
    }
    if NormalRefund(p, x).Ok? {
      RefundFields(p, NormalRefund(p, x).value.properties, d);
    }
  }

  lemma OutputPaymentReads(p: Primitives, x: OutputPayment, chainId: string, d: Data)
    ensures DecodeNormal(p, "OutputPayment", NormalOutputPayment(p, x, chainId)) == Ok(d) <==>
            OutputPaymentMeans(p, x, chainId, d)
  {
    if IsStruct(d, "OutputPayment", 4) {
      AddressReads(p, x.recipient, chainId, d.fields[0]);
      AddressReads(p, x.currency, chainId, d.fields[1]);
      AmountReads(p, x.minimumAmount, d.fields[2]);
      AmountReads(p, x.expectedAmount, d.fields[3]);
    }
    if NormalOutputPayment(p, x, chainId).Ok? {
      OutputPaymentFields(p, NormalOutputPayment(p, x, chainId).value.properties, d);
    }
  }

  lemma FeeReads(p: Primitives, x: Fee, d: Data)
    ensures DecodeNormal(p, "Fee", NormalFee(p, x)) == Ok(d) <==> FeeMeans(p, x, d)
  {
    if IsStruct(d, "Fee", 5) {
      TextReads(p, x.recipientChainId, d.fields[0]);
      AddressReads(p, x.recipient, x.recipientChainId, d.fields[1]);
      TextReads(p, x.currencyChainId, d.fields[2]);
      AddressReads(p, x.currency, x.currencyChainId, d.fields[3]);
      AmountReads(p, x.amount, d.fields[4]);
    }
    if NormalFee(p, x).Ok? {
      FeeFields(p, NormalFee(p, x).value.properties, d);
    }
  }

  /** A collected list of normalised values, read as an array. */
  ghost predicate ArrayOf(p: Primitives, element: string, results: seq<Result<Value, EncodeError>>, d: Data) {
    Collect(results).Ok? && Decode(TYPES, p, element + "[]", Arr(Collect(results).value)) == Ok(d)
  }

  lemma RefundsRead(p: Primitives, xs: seq<Refund>, d: Data)
    ensures ArrayOf(p, "InputRefund", NormalRefunds(p, xs), d) <==> RefundsMean(p, xs, d)
  {
    ArrayReads(p, "InputRefund", NormalRefunds(p, xs), d);
    if IsArray(d, |xs|) {
      forall i | 0 <= i < |xs|
        ensures DecodeNormal(p, "InputRefund", NormalRefunds(p, xs)[i]) == Ok(d.items[i])
            <==> RefundMeans(p, xs[i], d.items[i])
      {
        RefundReads(p, xs[i], d.items[i]);
      }
    }
  }

  lemma OutputPaymentsRead(p: Primitives, xs: seq<OutputPayment>, chainId: string, d: Data)
    ensures ArrayOf(p, "OutputPayment", NormalOutputPayments(p, xs, chainId), d)
        <==> OutputPaymentsMean(p, xs, chainId, d)
  {
    ArrayReads(p, "OutputPayment", NormalOutputPayments(p, xs, chainId), d);
    if IsArray(d, |xs|) {
      forall i | 0 <= i < |xs|
        ensures DecodeNormal(p, "OutputPayment", NormalOutputPayments(p, xs, chainId)[i]) == Ok(d.items[i]) <==>
                OutputPaymentMeans(p, xs[i], chainId, d.items[i])
      {
        OutputPaymentReads(p, xs[i], chainId, d.items[i]);
      }
    }
  }

  lemma CallsRead(p: Primitives, xs: seq<string>, d: Data)
    ensures ArrayOf(p, "bytes", NormalCalls(xs), d) <==> CallsMean(xs, d)
  {
    ArrayReads(p, "bytes", NormalCalls(xs), d);
    if IsArray(d, |xs|) {
      forall i | 0 <= i < |xs|
        ensures DecodeNormal(p, "bytes", NormalCalls(xs)[i]) == Ok(d.items[i]) <==> MeansBytes(d.items[i], xs[i])
      {
        BufferReads(p, xs[i], d.items[i]);
      }
    }
  }

  lemma FeesRead(p: Primitives, xs: seq<Fee>, d: Data)
    ensures ArrayOf(p, "Fee", NormalFees(p, xs), d) <==> FeesMean(p, xs, d)
  {
    ArrayReads(p, "Fee", NormalFees(p, xs), d);
    if IsArray(d, |xs|) {
      forall i | 0 <= i < |xs|
        ensures DecodeNormal(p, "Fee", NormalFees(p, xs)[i]) == Ok(d.items[i]) <==> FeeMeans(p, xs[i], d.items[i])
      {
        FeeReads(p, xs[i], d.items[i]);
      }
    }
  }

  lemma ArrayNames()
    ensures "InputRefund" + "[]" == "InputRefund[]" && "OutputPayment" + "[]" == "OutputPayment[]"
    ensures "bytes" + "[]" == "bytes[]" && "Fee" + "[]" == "Fee[]" && "Input" + "[]" == "Input[]"
  {
  }

  lemma InputReads(p: Primitives, x: Input, d: Data)
    ensures DecodeNormal(p, "Input", NormalInput(p, x)) == Ok(d) <==> InputMeans(p, x, d)
  {
    ArrayNames();
    if IsStruct(d, "Input", 2) {
      PaymentReads(p, x.payment, d.fields[0]);
      RefundsRead(p, x.refunds, d.fields[1]);
    }
    if NormalInput(p, x).Ok? {
      InputFields(p, NormalInput(p, x).value.properties, d);
    }
  }

  lemma InputsRead(p: Primitives, xs: seq<Input>, d: Data)
    ensures ArrayOf(p, "Input", NormalInputs(p, xs), d) <==> InputsMean(p, xs, d)
  {
    ArrayReads(p, "Input", NormalInputs(p, xs), d);
    if IsArray(d, |xs|) {
      forall i | 0 <= i < |xs|
        ensures DecodeNormal(p, "Input", NormalInputs(p, xs)[i]) == Ok(d.items[i]) <==> InputMeans(p, xs[i], d.items[i])
      {
        InputReads(p, xs[i], d.items[i]);
      }
    }
  }

  lemma OutputReads(p: Primitives, x: Output, d: Data)
    ensures DecodeNormal(p, "Output", NormalOutput(p, x)) == Ok(d) <==> OutputMeans(p, x, d)
  {
    ArrayNames();
    if IsStruct(d, "Output", 5) {
      TextReads(p, x.chainId, d.fields[0]);
      OutputPaymentsRead(p, x.payments, x.chainId, d.fields[1]);
      DeadlineReads(p, x.deadline, d.fields[2]);
      CallsRead(p, x.calls, d.fields[3]);
      BufferReads(p, x.extraData, d.fields[4]);
    }
    if NormalOutput(p, x).Ok? {
      OutputFields(p, NormalOutput(p, x).value.properties, d);
    }
  }

  /**
    An order's identifier is taken over some data exactly when that is what the order means: its texts, the bytes
    its addresses and hexadecimal strings spell, its amounts and deadlines as bounded integers, array by array.
  */
  lemma OrderReads(p: Primitives, x: Order, d: Data)
    ensures DecodeNormal(p, "Order", Normalize(p, x)) == Ok(d) <==> OrderMeans(p, x, d)
  {
    if Normalize(p, x).Ok? {
      NormalOrderReads(p, x, d);
    } else if IsStruct(d, "Order", 7) {
      InputsRead(p, x.inputs, d.fields[4]);
      OutputReads(p, x.output, d.fields[5]);
      FeesRead(p, x.fees, d.fields[6]);
    }
  }

  lemma OrderProperties(p: Primitives, x: Order)
    requires Normalize(p, x).Ok?
    ensures Normalize(p, x).value.Obj? && OrderNamed(Normalize(p, x).value.properties)
    ensures Collect(NormalInputs(p, x.inputs)).Ok? && NormalOutput(p, x.output).Ok?
        && Collect(NormalFees(p, x.fees)).Ok?
    ensures var v := Normalize(p, x).value.properties;
            && v[0].value == Str(x.version) && v[1].value == Str(x.solverChainId) && v[2].value == Str(x.solver)
            && v[3].value == Str(x.salt) && v[4].value == Arr(Collect(NormalInputs(p, x.inputs)).value)
            && v[5].value == NormalOutput(p, x.output).value && v[6].value == Arr(Collect(NormalFees(p, x.fees)).value)
  {
  }

  lemma NormalOrderReads(p: Primitives, x: Order, d: Data)
    requires Normalize(p, x).Ok?
    ensures Decode(TYPES, p, "Order", Normalize(p, x).value) == Ok(d) <==> OrderMeans(p, x, d)
  {
    OrderProperties(p, x);
    OrderFields(p, Normalize(p, x).value.properties, d);
    if IsStruct(d, "Order", 7) {
      TextReads(p, x.version, d.fields[0]);
      TextReads(p, x.solverChainId, d.fields[1]);
      SolverReads(p, x.solver, d.fields[2]);
      AmountReads(p, x.salt, d.fields[3]);
      ArrayNames();
      InputsRead(p, x.inputs, d.fields[4]);
      OutputReads(p, x.output, d.fields[5]);
      FeesRead(p, x.fees, d.fields[6]);
    }
  }
}
