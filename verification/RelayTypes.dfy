/** The Relay order and the type table its identifier is hashed under. */
module RelayTypes {
  import opened Sequences
  import opened TextOrder
  import opened Eip712

  datatype Payment = Payment(chainId: string, currency: string, amount: string, weight: string)
  datatype Refund = Refund(chainId: string, recipient: string, currency: string, minimumAmount: string, deadline: int,
                           extraData: string)
  datatype Input = Input(payment: Payment, refunds: seq<Refund>)
  datatype OutputPayment = OutputPayment(recipient: string, currency: string, minimumAmount: string,
                                         expectedAmount: string)
  datatype Output = Output(chainId: string, payments: seq<OutputPayment>, calls: seq<string>, deadline: int,
                           extraData: string)
  datatype Fee = Fee(recipientChainId: string, recipient: string, currencyChainId: string, currency: string,
                     amount: string)
  datatype Order = Order(version: string, solverChainId: string, solver: string, salt: string,
                         inputs: seq<Input>, output: Output, fees: seq<Fee>)

  // ---------------------------------------------------------------- the type table

  const ORDER_FIELDS := [
    Field("version", "string"), Field("solverChainId", "string"), Field("solver", "address"), Field("salt", "uint256"),
    Field("inputs", "Input[]"), Field("output", "Output"), Field("fees", "Fee[]")]
  const INPUT_FIELDS := [Field("payment", "InputPayment"), Field("refunds", "InputRefund[]")]
  const PAYMENT_FIELDS := [
    Field("chainId", "string"), Field("currency", "bytes"), Field("amount", "uint256"), Field("weight", "uint256")]
  const REFUND_FIELDS := [
    Field("chainId", "string"), Field("recipient", "bytes"), Field("currency", "bytes"),
    Field("minimumAmount", "uint256"),
    Field("deadline", "uint32"), Field("extraData", "bytes")]
  const OUTPUT_FIELDS := [
    Field("chainId", "string"), Field("payments", "OutputPayment[]"), Field("deadline", "uint32"),
    Field("calls", "bytes[]"),
    Field("extraData", "bytes")]
  const OUTPUT_PAYMENT_FIELDS := [
    Field("recipient", "bytes"), Field("currency", "bytes"), Field("minimumAmount", "uint256"),
    Field("expectedAmount", "uint256")]
  const FEE_FIELDS := [
    Field("recipientChainId", "string"), Field("recipient", "bytes"), Field("currencyChainId", "string"),
    Field("currency", "bytes"),
    Field("amount", "uint256")]

  const TYPES: Types := map[
    "Order" := ORDER_FIELDS, "Input" := INPUT_FIELDS, "InputPayment" := PAYMENT_FIELDS, "InputRefund" := REFUND_FIELDS,
    "Output" := OUTPUT_FIELDS, "OutputPayment" := OUTPUT_PAYMENT_FIELDS, "Fee" := FEE_FIELDS]

  // ---------------------------------------------------------------- the type texts

  lemma Table()
    ensures "Order" in TYPES && TYPES["Order"] == ORDER_FIELDS
    ensures "Input" in TYPES && TYPES["Input"] == INPUT_FIELDS
    ensures "InputPayment" in TYPES && TYPES["InputPayment"] == PAYMENT_FIELDS
    ensures "InputRefund" in TYPES && TYPES["InputRefund"] == REFUND_FIELDS
    ensures "Output" in TYPES && TYPES["Output"] == OUTPUT_FIELDS
    ensures "OutputPayment" in TYPES && TYPES["OutputPayment"] == OUTPUT_PAYMENT_FIELDS
    ensures "Fee" in TYPES && TYPES["Fee"] == FEE_FIELDS
    ensures forall t | t in TYPES :: !IsArrayType(t)
  {
  }

  /** What stands between the parentheses in the definitions of the seven structs, field by field. */
  const PAYMENT_TEXT := ["string chainId,", "bytes currency,", "uint256 amount,", "uint256 weight)"]
  const REFUND_TEXT :=
    ["string chainId,", "bytes recipient,", "bytes currency,", "uint256 minimumAmount,",
     "uint32 deadline,", "bytes extraData)"]
  const INPUT_TEXT := ["InputPayment payment,", "InputRefund[] refunds)"]
  const OUTPUT_PAYMENT_TEXT :=
    ["bytes recipient,", "bytes currency,", "uint256 minimumAmount,",
     "uint256 expectedAmount)"]
  const OUTPUT_TEXT :=
    ["string chainId,", "OutputPayment[] payments,", "uint32 deadline,", "bytes[] calls,",
     "bytes extraData)"]
  const FEE_TEXT :=
    ["string recipientChainId,", "bytes recipient,", "string currencyChainId,", "bytes currency,",
     "uint256 amount)"]
  const ORDER_TEXT :=
    ["string version,", "string solverChainId,", "address solver,", "uint256 salt,", "Input[] inputs,",
     "Output output,", "Fee[] fees)"]

  function Glued(parts: seq<string>): string {
    if parts == [] then "" else parts[0] + Glued(parts[1..])
  }

  /** A definition: the name, and what stands between the parentheses. */
  function TextOf(name: string, parts: seq<string>): string {
    name + "(" + Glued(parts)
  }

  /** A part is the text of its field, with what follows it. */
  predicate IsPart(part: string, field: Field, last: bool) {
    part == field.fieldType + " " + field.name + (if last then ")" else ",")
  }

  lemma {:induction false} FieldsJoined(fields: seq<Field>, parts: seq<string>)
    requires fields != [] && |parts| == |fields|
    requires forall k | 0 <= k < |fields| :: IsPart(parts[k], fields[k], k == |fields| - 1)
    ensures FieldText(fields) + ")" == Glued(parts)
  {
    var f := fields[0];
    if |fields| == 1 {
      assert Glued(parts) == parts[0] + Glued(parts[1..]) == parts[0];
    } else {
      var rest := FieldText(fields[1..]);
      forall k | 0 <= k < |fields| - 1 ensures IsPart(parts[1..][k], fields[1..][k], k == |fields| - 2) {
        assert IsPart(parts[k + 1], fields[k + 1], k + 1 == |fields| - 1);
      }
      FieldsJoined(fields[1..], parts[1..]);
      assert IsPart(parts[0], f, false);
      assert f.fieldType + " " + f.name + ("," + rest) + ")" == (f.fieldType + " " + f.name + ",") + (rest + ")");
    }
  }

  lemma DefinitionJoined(name: string, fields: seq<Field>, parts: seq<string>)
    requires name in TYPES && TYPES[name] == fields != [] && |parts| == |fields|
    requires forall k | 0 <= k < |fields| :: IsPart(parts[k], fields[k], k == |fields| - 1)
    ensures Definition(TYPES, name) == TextOf(name, parts)
  {
    FieldsJoined(fields, parts);
    Regroup(name + "(", FieldText(fields), ")");
  }

  lemma Regroup(a: string, b: string, c: string)
    ensures a + b + c == a + (b + c)
  {
  }

  lemma StringChainId()
    ensures IsPart("string chainId,", Field("chainId", "string"), false)
  {
  }

  lemma BytesCurrency()
    ensures IsPart("bytes currency,", Field("currency", "bytes"), false)
  {
  }

  lemma Uint256Amount()
    ensures IsPart("uint256 amount,", Field("amount", "uint256"), false)
  {
  }

  lemma Uint256WeightLast()
    ensures IsPart("uint256 weight)", Field("weight", "uint256"), true)
  {
  }

  lemma BytesRecipient()
    ensures IsPart("bytes recipient,", Field("recipient", "bytes"), false)
  {
  }

  lemma Uint256MinimumAmount()
    ensures IsPart("uint256 minimumAmount,", Field("minimumAmount", "uint256"), false)
  {
  }

  lemma Uint32Deadline()
    ensures IsPart("uint32 deadline,", Field("deadline", "uint32"), false)
  {
  }

  lemma BytesExtraDataLast()
    ensures IsPart("bytes extraData)", Field("extraData", "bytes"), true)
  {
  }

  lemma InputPaymentPayment()
    ensures IsPart("InputPayment payment,", Field("payment", "InputPayment"), false)
  {
  }

  lemma InputRefundsRefundsLast()
    ensures IsPart("InputRefund[] refunds)", Field("refunds", "InputRefund[]"), true)
  {
  }

  lemma Uint256ExpectedAmountLast()
    ensures IsPart("uint256 expectedAmount)", Field("expectedAmount", "uint256"), true)
  {
  }

  lemma OutputPaymentsPayments()
    ensures IsPart("OutputPayment[] payments,", Field("payments", "OutputPayment[]"), false)
  {
  }

  lemma BytessCalls()
    ensures IsPart("bytes[] calls,", Field("calls", "bytes[]"), false)
  {
  }

  lemma StringRecipientChainId()
    ensures IsPart("string recipientChainId,", Field("recipientChainId", "string"), false)
  {
  }

  lemma StringCurrencyChainId()
    ensures IsPart("string currencyChainId,", Field("currencyChainId", "string"), false)
  {
  }

  lemma Uint256AmountLast()
    ensures IsPart("uint256 amount)", Field("amount", "uint256"), true)
  {
  }

  lemma StringVersion()
    ensures IsPart("string version,", Field("version", "string"), false)
  {
  }

  lemma StringSolverChainId()
    ensures IsPart("string solverChainId,", Field("solverChainId", "string"), false)
  {
  }

  lemma AddressSolver()
    ensures IsPart("address solver,", Field("solver", "address"), false)
  {
  }

  lemma Uint256Salt()
    ensures IsPart("uint256 salt,", Field("salt", "uint256"), false)
  {
  }

  lemma InputsInputs()
    ensures IsPart("Input[] inputs,", Field("inputs", "Input[]"), false)
  {
  }

  lemma OutputOutput()
    ensures IsPart("Output output,", Field("output", "Output"), false)
  {
  }

  lemma FeesFeesLast()
    ensures IsPart("Fee[] fees)", Field("fees", "Fee[]"), true)
  {
  }

  lemma PaymentDefinition()
    ensures Definition(TYPES, "InputPayment") == TextOf("InputPayment", PAYMENT_TEXT)
  {
    Table();
    StringChainId();
    BytesCurrency();
    Uint256Amount();
    Uint256WeightLast();
    DefinitionJoined("InputPayment", PAYMENT_FIELDS, PAYMENT_TEXT);
  }

  lemma RefundDefinition()
    ensures Definition(TYPES, "InputRefund") == TextOf("InputRefund", REFUND_TEXT)
  {
    Table();
    StringChainId();
    BytesRecipient();
    BytesCurrency();
    Uint256MinimumAmount();
    Uint32Deadline();
    BytesExtraDataLast();
    DefinitionJoined("InputRefund", REFUND_FIELDS, REFUND_TEXT);
  }

  lemma InputDefinition()
    ensures Definition(TYPES, "Input") == TextOf("Input", INPUT_TEXT)
  {
    Table();
    InputPaymentPayment();
    InputRefundsRefundsLast();
    DefinitionJoined("Input", INPUT_FIELDS, INPUT_TEXT);
  }

  lemma OutputPaymentDefinition()
    ensures Definition(TYPES, "OutputPayment") == TextOf("OutputPayment", OUTPUT_PAYMENT_TEXT)
  {
    Table();
    BytesRecipient();
    BytesCurrency();
    Uint256MinimumAmount();
    Uint256ExpectedAmountLast();
    DefinitionJoined("OutputPayment", OUTPUT_PAYMENT_FIELDS, OUTPUT_PAYMENT_TEXT);
  }

  lemma OutputDefinition()
    ensures Definition(TYPES, "Output") == TextOf("Output", OUTPUT_TEXT)
  {
    Table();
    StringChainId();
    OutputPaymentsPayments();
    Uint32Deadline();
    BytessCalls();
    BytesExtraDataLast();
    DefinitionJoined("Output", OUTPUT_FIELDS, OUTPUT_TEXT);
  }

  lemma FeeDefinition()
    ensures Definition(TYPES, "Fee") == TextOf("Fee", FEE_TEXT)
  {
    Table();
    StringRecipientChainId();
    BytesRecipient();
    StringCurrencyChainId();
    BytesCurrency();
    Uint256AmountLast();
    DefinitionJoined("Fee", FEE_FIELDS, FEE_TEXT);
  }

  lemma OrderDefinition()
    ensures Definition(TYPES, "Order") == TextOf("Order", ORDER_TEXT)
  {
    Table();
    StringVersion();
    StringSolverChainId();
    AddressSolver();
    Uint256Salt();
    InputsInputs();
    OutputOutput();
    FeesFeesLast();
    DefinitionJoined("Order", ORDER_FIELDS, ORDER_TEXT);
  }

  // ---------------------------------------------------------------- which definitions follow

  lemma {:induction false} AfterPrefix(prefix: string, a: string, b: string)
    ensures Before(prefix + a, prefix + b) <==> Before(a, b)
  {
    if prefix == [] {
      assert prefix + a == a && prefix + b == b;
    } else {
      assert (prefix + a)[1..] == prefix[1..] + a && (prefix + b)[1..] == prefix[1..] + b;
      AfterPrefix(prefix[1..], a, b);
    }
  }

  /** A list in strictly ascending order is the sorted list of its elements. */
  lemma {:induction false} SortedIs(s: set<string>, r: seq<string>)
    requires Elements(r) == s
    requires forall i, j | 0 <= i < j < |r| :: Before(r[i], r[j])
    ensures SortedNames(s) == r
  {
    var names := SortedNames(s);
    assert Elements(names) == s;
    SameAscending(names, r);
  }

  lemma {:induction false} SameAscending(a: seq<string>, b: seq<string>)
    requires Elements(a) == Elements(b)
    requires forall i, j | 0 <= i < j < |a| :: Before(a[i], a[j])
    requires forall i, j | 0 <= i < j < |b| :: Before(b[i], b[j])
    ensures a == b
  {
    if a == [] {
      assert forall i | 0 <= i < |b| :: b[i] in Elements(b);
    } else {
      assert a[0] in Elements(a) && a[0] in b;
      assert b != [] && b[0] in Elements(b) && b[0] in a;
      SameFirst(a, b);
      RestElements(a);
      RestElements(b);
      SameAscending(a[1..], b[1..]);
      assert a == [a[0]] + a[1..] && b == [b[0]] + b[1..];
    }
  }

  lemma SameFirst(a: seq<string>, b: seq<string>)
    requires a != [] && b != [] && a[0] in b && b[0] in a
    requires forall i, j | 0 <= i < j < |a| :: Before(a[i], a[j])
    requires forall i, j | 0 <= i < j < |b| :: Before(b[i], b[j])
    ensures a[0] == b[0]
  {
    BeforeTrichotomy(a[0], b[0]);
    var j :| 0 <= j < |b| && b[j] == a[0];
    var i :| 0 <= i < |a| && a[i] == b[0];
  }

  lemma RestElements(a: seq<string>)
    requires a != [] && forall i, j | 0 <= i < j < |a| :: Before(a[i], a[j])
    ensures Elements(a[1..]) == Elements(a) - {a[0]}
  {
    BeforeTrichotomy(a[0], a[0]);
    assert a == [a[0]] + a[1..];
    assert forall i | 0 <= i < |a[1..]| :: a[1..][i] == a[i + 1];
  }

  /** Fields that lead nowhere new. */
  lemma {:induction false} NothingNew(root: string, fields: seq<Field>, seen: set<string>)
    requires seen <= TYPES.Keys
    requires forall f | f in fields :: Base(f.fieldType) !in TYPES || Base(f.fieldType) in seen + {root}
    ensures Visit(TYPES, root, fields, seen) == seen
  {
    if fields != [] {
      assert fields[0] in fields;
      NothingNew(root, fields[1..], seen);
    }
  }

  /** The first field leads to a struct that has not been seen. */
  lemma VisitNew(root: string, fields: seq<Field>, seen: set<string>, base: string)
    requires seen <= TYPES.Keys && fields != [] && Base(fields[0].fieldType) == base
    requires base in TYPES && base != root && base !in seen
    ensures Visit(TYPES, root, fields, seen)
         == Visit(TYPES, root, fields[1..], Visit(TYPES, root, TYPES[base], seen + {base}))
  {
  }

  lemma VisitOld(root: string, fields: seq<Field>, seen: set<string>)
    requires seen <= TYPES.Keys && fields != []
    requires Base(fields[0].fieldType) !in TYPES || Base(fields[0].fieldType) in seen + {root}
    ensures Visit(TYPES, root, fields, seen) == Visit(TYPES, root, fields[1..], seen)
  {
  }

  lemma ArrayBase(element: string)
    ensures Base(element + "[]") == element
  {
    assert (element + "[]")[..|element|] == element;
  }

  lemma ArrayBases()
    ensures Base("Input[]") == "Input" && Base("InputRefund[]") == "InputRefund" && Base("Fee[]") == "Fee"
    ensures Base("OutputPayment[]") == "OutputPayment" && Base("bytes[]") == "bytes"
  {
    ArrayBase("Input");
    ArrayBase("InputRefund");
    ArrayBase("Fee");
    ArrayBase("OutputPayment");
    ArrayBase("bytes");
    assert "Input" + "[]" == "Input[]" && "Fee" + "[]" == "Fee[]" && "bytes" + "[]" == "bytes[]";
    assert "InputRefund" + "[]" == "InputRefund[]";
    assert "OutputPayment" + "[]" == "OutputPayment[]";
  }

  predicate IsAtom(t: string) {
    t in {"string", "bytes", "address", "uint256", "uint32"}
  }

  lemma AtomBase(t: string)
    requires IsAtom(t)
    ensures Base(t) == t && t !in TYPES
  {
    assert forall s | s in TYPES :: s[0] in "OIF";
  }

  lemma StructBase(t: string)
    requires t in TYPES
    ensures Base(t) == t
  {
    Table();
  }

  lemma Leaf(root: string, t: string, fields: seq<Field>, seen: set<string>)
    requires t in TYPES && TYPES[t] == fields && seen <= TYPES.Keys
    requires forall f | f in fields :: IsAtom(f.fieldType)
    ensures Visit(TYPES, root, TYPES[t], seen) == seen
  {
    forall f | f in fields ensures Base(f.fieldType) !in TYPES {
      AtomBase(f.fieldType);
    }
    NothingNew(root, fields, seen);
  }

  lemma PaymentIsLeaf()
    ensures "InputPayment" in TYPES && TYPES["InputPayment"] == PAYMENT_FIELDS
        && forall f | f in PAYMENT_FIELDS :: IsAtom(f.fieldType)
  {
    Table();
  }

  lemma RefundIsLeaf()
    ensures "InputRefund" in TYPES && TYPES["InputRefund"] == REFUND_FIELDS
        && forall f | f in REFUND_FIELDS :: IsAtom(f.fieldType)
  {
    Table();
  }

  lemma OutputPaymentIsLeaf()
    ensures "OutputPayment" in TYPES && TYPES["OutputPayment"] == OUTPUT_PAYMENT_FIELDS
        && forall f | f in OUTPUT_PAYMENT_FIELDS :: IsAtom(f.fieldType)
  {
    Table();
  }

  lemma FeeIsLeaf()
    ensures "Fee" in TYPES && TYPES["Fee"] == FEE_FIELDS && forall f | f in FEE_FIELDS :: IsAtom(f.fieldType)
  {
    Table();
  }

  lemma InputNamesDiffer()
    ensures "InputPayment" != "Input" && "InputRefund" != "Input" && "InputPayment" != "InputRefund"
    ensures "InputPayment" != "Order" && "InputRefund" != "Order"
  {
    assert |"InputPayment"| == 12 && |"InputRefund"| == 11 && |"Input"| == 5 && |"Order"| == 5;
  }

  lemma VisitsPayment(root: string, fields: seq<Field>, seen: set<string>)
    requires fields != [] && fields[0] == Field("payment", "InputPayment")
    requires root in {"Input", "Order"} && seen <= {"Input"}
    ensures seen + {"InputPayment"} <= TYPES.Keys
    ensures Visit(TYPES, root, fields, seen) == Visit(TYPES, root, fields[1..], seen + {"InputPayment"})
  {
    Table();
    InputNamesDiffer();
    StructBase("InputPayment");
    VisitNew(root, fields, seen, "InputPayment");
    PaymentIsLeaf();
    Leaf(root, "InputPayment", PAYMENT_FIELDS, seen + {"InputPayment"});
  }

  lemma VisitsRefund(root: string, fields: seq<Field>, seen: set<string>)
    requires fields == [Field("refunds", "InputRefund[]")]
    requires root in {"Input", "Order"} && seen <= {"Input", "InputPayment"}
    ensures Visit(TYPES, root, fields, seen) == seen + {"InputRefund"}
  {
    Table();
    InputNamesDiffer();
    ArrayBases();
    VisitNew(root, fields, seen, "InputRefund");
    RefundIsLeaf();
    Leaf(root, "InputRefund", REFUND_FIELDS, seen + {"InputRefund"});
    assert fields[1..] == [];
  }

  lemma VisitsInput(root: string, seen: set<string>)
    requires root in {"Input", "Order"} && seen <= {"Input"}
    ensures Visit(TYPES, root, INPUT_FIELDS, seen) == seen + {"InputPayment", "InputRefund"}
  {
    VisitsPayment(root, INPUT_FIELDS, seen);
    VisitsRefund(root, INPUT_FIELDS[1..], seen + {"InputPayment"});
    assert seen + {"InputPayment"} + {"InputRefund"} == seen + {"InputPayment", "InputRefund"};
  }

  lemma VisitsOutput(root: string, seen: set<string>)
    requires root in {"Output", "Order"} && seen <= TYPES.Keys && "OutputPayment" !in seen
    ensures Visit(TYPES, root, OUTPUT_FIELDS, seen) == seen + {"OutputPayment"}
  {
    Table();
    ArrayBases();
    AtomBase("string");
    var fields := OUTPUT_FIELDS;
    VisitOld(root, fields, seen);
    VisitNew(root, fields[1..], seen, "OutputPayment");
    OutputPaymentIsLeaf();
    Leaf(root, "OutputPayment", OUTPUT_PAYMENT_FIELDS, seen + {"OutputPayment"});
    OutputRest(root, seen + {"OutputPayment"});
  }

  lemma OutputRest(root: string, seen: set<string>)
    requires seen <= TYPES.Keys
    ensures Visit(TYPES, root, OUTPUT_FIELDS[1..][1..], seen) == seen
  {
    ArrayBases();
    AtomBase("uint32");
    AtomBase("bytes");
    var rest := OUTPUT_FIELDS[1..][1..];
    assert rest == [OUTPUT_FIELDS[2], OUTPUT_FIELDS[3], OUTPUT_FIELDS[4]];
    NothingNew(root, rest, seen);
  }

  /** The first four fields of an order are atoms. */
  lemma VisitsHead()
    ensures Visit(TYPES, "Order", ORDER_FIELDS, {}) == Visit(TYPES, "Order", ORDER_FIELDS[4..], {})
  {
    AtomBase("string");
    AtomBase("address");
    AtomBase("uint256");
    var f := ORDER_FIELDS;
    VisitOld("Order", f, {});
    VisitOld("Order", f[1..], {});
    VisitOld("Order", f[2..], {});
    VisitOld("Order", f[3..], {});
    assert f[1..][1..] == f[2..] && f[2..][1..] == f[3..] && f[3..][1..] == f[4..];
  }

  lemma VisitsInputs(rest: seq<Field>)
    ensures Visit(TYPES, "Order", [Field("inputs", "Input[]")] + rest, {})
         == Visit(TYPES, "Order", rest, {"Input", "InputPayment", "InputRefund"})
  {
    Table();
    ArrayBases();
    var f := [Field("inputs", "Input[]")] + rest;
    VisitNew("Order", f, {}, "Input");
    VisitsInput("Order", {} + {"Input"});
    assert {} + {"Input"} + {"InputPayment", "InputRefund"} == {"Input", "InputPayment", "InputRefund"};
    assert f[1..] == rest;
  }

  lemma VisitsOutputs(rest: seq<Field>)
    ensures Visit(TYPES, "Order", [Field("output", "Output")] + rest, {"Input", "InputPayment", "InputRefund"})
         == Visit(TYPES, "Order", rest, {"Input", "InputPayment", "InputRefund", "Output", "OutputPayment"})
  {
    Table();
    StructBase("Output");
    var f, seen := [Field("output", "Output")] + rest, {"Input", "InputPayment", "InputRefund"};
    VisitNew("Order", f, seen, "Output");
    VisitsOutput("Order", seen + {"Output"});
    assert seen + {"Output"} + {"OutputPayment"} == {"Input", "InputPayment", "InputRefund", "Output", "OutputPayment"};
    assert f[1..] == rest;
  }

  lemma VisitsFees(seen: set<string>)
    requires seen == {"Input", "InputPayment", "InputRefund", "Output", "OutputPayment"}
    ensures Visit(TYPES, "Order", [Field("fees", "Fee[]")], seen) == seen + {"Fee"}
  {
    Table();
    ArrayBases();
    var f := [Field("fees", "Fee[]")];
    assert "Fee" !in seen by {
      assert forall t | t in seen :: t[0] != 'F';
    }
    VisitNew("Order", f, seen, "Fee");
    FeeIsLeaf();
    Leaf("Order", "Fee", FEE_FIELDS, seen + {"Fee"});
    assert f[1..] == [];
  }

  lemma VisitsOrder()
    ensures Referenced(TYPES, "Order") == {"Fee", "Input", "InputPayment", "InputRefund", "Output", "OutputPayment"}
  {
    Table();
    VisitsHead();
    var inputs, output, fees := ORDER_FIELDS[4], ORDER_FIELDS[5], ORDER_FIELDS[6];
    assert ORDER_FIELDS[4..] == [inputs] + ([output] + [fees]);
    VisitsInputs([output] + [fees]);
    VisitsOutputs([fees]);
    VisitsFees({"Input", "InputPayment", "InputRefund", "Output", "OutputPayment"});
  }

  /** The six names in their order. */
  lemma NamesAscend()
    ensures Before("Fee", "Input") && Before("Input", "InputPayment") && Before("InputPayment", "InputRefund")
    ensures Before("InputRefund", "Output") && Before("Output", "OutputPayment")
  {
    AfterPrefix("Input", "", "Payment");
    AfterPrefix("Input", "Payment", "Refund");
    AfterPrefix("Output", "", "Payment");
    assert "Input" + "" == "Input" && "Input" + "Payment" == "InputPayment" && "Input" + "Refund" == "InputRefund";
    assert "Output" + "" == "Output" && "Output" + "Payment" == "OutputPayment";
  }

  lemma DefinitionsOfTwo(a: string, b: string)
    requires a in TYPES && b in TYPES
    ensures Definitions(TYPES, [a, b]) == Definition(TYPES, a) + Definition(TYPES, b)
  {
    assert [a, b][1..] == [b] && [b][1..] == [];
    assert Definitions(TYPES, [b]) == Definition(TYPES, b) + Definitions(TYPES, [b][1..]);
    assert Definition(TYPES, b) + [] == Definition(TYPES, b);
  }

  /** A struct of atoms is its own definition. */
  lemma LeafType(name: string, fields: seq<Field>)
    requires name in TYPES && TYPES[name] == fields && forall f | f in fields :: IsAtom(f.fieldType)
    ensures EncodeType(TYPES, name) == Definition(TYPES, name)
  {
    Leaf(name, name, fields, {});
    assert Definition(TYPES, name) + [] == Definition(TYPES, name);
  }

  lemma PaymentType()
    ensures "InputPayment" in TYPES && EncodeType(TYPES, "InputPayment") == TextOf("InputPayment", PAYMENT_TEXT)
  {
    PaymentIsLeaf();
    LeafType("InputPayment", PAYMENT_FIELDS);
    PaymentDefinition();
  }

  lemma RefundType()
    ensures "InputRefund" in TYPES && EncodeType(TYPES, "InputRefund") == TextOf("InputRefund", REFUND_TEXT)
  {
    RefundIsLeaf();
    LeafType("InputRefund", REFUND_FIELDS);
    RefundDefinition();
  }

  lemma OutputPaymentType()
    ensures "OutputPayment" in TYPES
        && EncodeType(TYPES, "OutputPayment") == TextOf("OutputPayment", OUTPUT_PAYMENT_TEXT)
  {
    OutputPaymentIsLeaf();
    LeafType("OutputPayment", OUTPUT_PAYMENT_FIELDS);
    OutputPaymentDefinition();
  }

  lemma FeeType()
    ensures "Fee" in TYPES && EncodeType(TYPES, "Fee") == TextOf("Fee", FEE_TEXT)
  {
    FeeIsLeaf();
    LeafType("Fee", FEE_FIELDS);
    FeeDefinition();
  }

  /** A type text from the sorted list of the other structs it needs. */
  lemma TypeFrom(name: string, names: seq<string>)
    requires name in TYPES && Elements(names) == Referenced(TYPES, name)
    requires forall i, j | 0 <= i < j < |names| :: Before(names[i], names[j])
    ensures forall n | n in names :: n in TYPES
    ensures EncodeType(TYPES, name) == Definition(TYPES, name) + Definitions(TYPES, names)
  {
    SortedIs(Referenced(TYPES, name), names);
    assert forall n | n in names :: n in Elements(names);
  }

  function InputTypeText(): string {
    TextOf("Input", INPUT_TEXT) + (TextOf("InputPayment", PAYMENT_TEXT) + TextOf("InputRefund", REFUND_TEXT))
  }

  lemma InputType()
    ensures "Input" in TYPES && EncodeType(TYPES, "Input") == InputTypeText()
  {
    InputReferences();
    TypeFrom("Input", ["InputPayment", "InputRefund"]);
    DefinitionsOfTwo("InputPayment", "InputRefund");
    InputDefinition();
    PaymentDefinition();
    RefundDefinition();
  }

  lemma InputReferences()
    ensures "Input" in TYPES && "InputPayment" in TYPES && "InputRefund" in TYPES
    ensures Elements(["InputPayment", "InputRefund"]) == Referenced(TYPES, "Input")
    ensures Before(["InputPayment", "InputRefund"][0], ["InputPayment", "InputRefund"][1])
  {
    Table();
    VisitsInput("Input", {});
    NamesAscend();
    assert {} + {"InputPayment", "InputRefund"} == Elements(["InputPayment", "InputRefund"]);
  }

  function OutputTypeText(): string {
    TextOf("Output", OUTPUT_TEXT) + TextOf("OutputPayment", OUTPUT_PAYMENT_TEXT)
  }

  lemma OutputType()
    ensures "Output" in TYPES && EncodeType(TYPES, "Output") == OutputTypeText()
  {
    Table();
    OutputDefinition();
    OutputPaymentDefinition();
    VisitsOutput("Output", {});
    SortedIs(Referenced(TYPES, "Output"), ["OutputPayment"]);
    DefinitionsOfOne("OutputPayment");
  }

  lemma DefinitionsOfOne(a: string)
    requires a in TYPES
    ensures Definitions(TYPES, [a]) == Definition(TYPES, a)
  {
    assert [a][1..] == [];
    assert Definition(TYPES, a) + [] == Definition(TYPES, a);
  }

  const REFERENCED_BY_ORDER := ["Fee", "Input", "InputPayment", "InputRefund", "Output", "OutputPayment"]

  lemma SixAscend()
    ensures forall i, j | 0 <= i < j < 6 :: Before(REFERENCED_BY_ORDER[i], REFERENCED_BY_ORDER[j])
  {
    var names := REFERENCED_BY_ORDER;
    NamesAscend();
    forall i | 0 <= i < 5 ensures Before(names[i], names[i + 1]) {
      assert i == 0 || i == 1 || i == 2 || i == 3 || i == 4;
    }
    AscendingPairs(names);
  }

  lemma SixElements()
    ensures Elements(REFERENCED_BY_ORDER) == Referenced(TYPES, "Order")
  {
    VisitsOrder();
    var names := REFERENCED_BY_ORDER;
    forall x ensures x in names <==> x in Referenced(TYPES, "Order") {
      assert x in names <==> || x == names[0] || x == names[1] || x == names[2]
                             || x == names[3] || x == names[4] || x == names[5];
    }
  }

  /** Neighbours in ascending order are enough. */
  lemma {:induction false} AscendingPairs(names: seq<string>)
    requires forall i | 0 <= i < |names| - 1 :: Before(names[i], names[i + 1])
    ensures forall i, j | 0 <= i < j < |names| :: Before(names[i], names[j])
  {
    forall i, j | 0 <= i < j < |names| ensures Before(names[i], names[j]) {
      BeforeLater(names, i, j);
    }
  }

  lemma {:induction false} BeforeLater(names: seq<string>, i: nat, j: nat)
    requires forall k | 0 <= k < |names| - 1 :: Before(names[k], names[k + 1])
    requires i < j < |names|
    ensures Before(names[i], names[j])
    decreases j
  {
    if i + 1 < j {
      BeforeLater(names, i, j - 1);
      StrictlyBefore(names[i], names[j - 1], names[j]);
    }
  }

  lemma StrictlyBefore(a: string, b: string, c: string)
    requires Before(a, b) && Before(b, c)
    ensures Before(a, c)
  {
    BeforeTrichotomy(a, b);
    BeforeTrichotomy(b, c);
    BeforeTrichotomy(a, c);
    BeforeTransitive(a, b, c);
  }

  lemma DefinitionsFirst(name: string, rest: seq<string>)
    requires name in TYPES && forall n | n in rest :: n in TYPES
    ensures Definitions(TYPES, [name] + rest) == Definition(TYPES, name) + Definitions(TYPES, rest)
  {
    assert ([name] + rest)[1..] == rest;
  }

  lemma DefinitionsOfSix(a: string, b: string, c: string, d: string, e: string, f: string)
    requires a in TYPES && b in TYPES && c in TYPES && d in TYPES && e in TYPES && f in TYPES
    ensures Definitions(TYPES, [a, b, c, d, e, f])
         == Definition(TYPES, a)
            + (Definition(TYPES, b)
               + (Definition(TYPES, c) + (Definition(TYPES, d) + (Definition(TYPES, e) + Definition(TYPES, f)))))
  {
    DefinitionsFirst(a, [b, c, d, e, f]);
    DefinitionsFirst(b, [c, d, e, f]);
    DefinitionsFirst(c, [d, e, f]);
    DefinitionsFirst(d, [e, f]);
    DefinitionsOfTwo(e, f);
    assert [a, b, c, d, e, f] == [a] + [b, c, d, e, f] && [b, c, d, e, f] == [b] + [c, d, e, f];
    assert [c, d, e, f] == [c] + [d, e, f] && [d, e, f] == [d] + [e, f];
  }

  /** An order's own definition and those of the six others, in alphabetical order. */
  function OrderTypeText(): string {
    TextOf("Order", ORDER_TEXT)
    + (TextOf("Fee", FEE_TEXT)
       + (TextOf("Input", INPUT_TEXT)
          + (TextOf("InputPayment", PAYMENT_TEXT)
             + (TextOf("InputRefund", REFUND_TEXT)
                + (TextOf("Output", OUTPUT_TEXT) + TextOf("OutputPayment", OUTPUT_PAYMENT_TEXT))))))
  }

  lemma OrderType()
    ensures "Order" in TYPES && EncodeType(TYPES, "Order") == OrderTypeText()
  {
    Table();
    SixElements();
    SixAscend();
    TypeFrom("Order", REFERENCED_BY_ORDER);
    DefinitionsOfSix("Fee", "Input", "InputPayment", "InputRefund", "Output", "OutputPayment");
    OrderDefinition();
    FeeDefinition();
    InputDefinition();
    PaymentDefinition();
    RefundDefinition();
    OutputDefinition();
    OutputPaymentDefinition();
  }
}
