/** The Relay order's normalisation and its identifier (chains/solana/relay/order.ts). */
module RelayOrder {
  import opened Wrappers
  import opened Eip712
  import opened Eip712Commitment
  import opened RelayTypes

  /** `addressBytes`: base58 of 32 bytes on Solana, hex of 20 bytes elsewhere. */
  function AddressBytes(p: Primitives, value: string, chainId: string): Result<Bytes, EncodeError> {
    if chainId == "solana" then
      match p.base58(value)
      case Some(decoded) => if |decoded| == 32 then Ok(decoded) else Err(InvalidAddress)
      case None => Err(InvalidAddress)
    else
      var decoded := HexBytes(value);
      if decoded.Ok? && |decoded.value| != 20 then Err(InvalidAddress) else decoded
  }

  /** All results in order, or the first error. */
  function Collect<T>(results: seq<Result<T, EncodeError>>): Result<seq<T>, EncodeError> {
    if results == [] then Ok([])
    else if results[0].Err? then Err(results[0].error)
    else
      var rest := Collect(results[1..]);
      if rest.Err? then rest else Ok([results[0].value] + rest.value)
  }

  /** Collecting gives exactly the values, when every result is one. */
  lemma {:induction false} CollectExactly<T>(results: seq<Result<T, EncodeError>>, values: seq<T>)
    ensures Collect(results) == Ok(values) <==>
            |values| == |results| && forall k | 0 <= k < |results| :: results[k] == Ok(values[k])
  {
    if results != [] && values != [] {
      CollectExactly(results[1..], values[1..]);
      assert values == [values[0]] + values[1..];
      assert forall k | 1 <= k < |results| :: results[k] == results[1..][k - 1];
      assert forall k | 1 <= k < |values| :: values[k] == values[1..][k - 1];
      assert forall k | 0 <= k < |results| - 1 :: results[1..][k] == results[k + 1];
      assert forall k | 0 <= k < |values| - 1 :: values[1..][k] == values[k + 1];
      var rest := Collect(results[1..]);
      assert results[0].Ok? && rest.Ok? ==> ([results[0].value] + rest.value)[1..] == rest.value;
    }
  }

  function NormalPayment(p: Primitives, x: Payment): Result<Value, EncodeError> {
    var currency := AddressBytes(p, x.currency, x.chainId);
    if currency.Err? then Err(currency.error)
    else Ok(Obj([Property("chainId", Str(x.chainId)), Property("currency", Buf(currency.value)),
                 Property("amount", Str(x.amount)), Property("weight", Str(x.weight))]))
  }

  function NormalRefund(p: Primitives, x: Refund): Result<Value, EncodeError> {
    var recipient := AddressBytes(p, x.recipient, x.chainId);
    var currency := AddressBytes(p, x.currency, x.chainId);
    if recipient.Err? then Err(recipient.error)
    else if currency.Err? then Err(currency.error)
    else Ok(Obj([Property("chainId", Str(x.chainId)), Property("recipient", Buf(recipient.value)),
                 Property("currency", Buf(currency.value)), Property("minimumAmount", Str(x.minimumAmount)),
                 Property("deadline", Num(x.deadline)), Property("extraData", Str(x.extraData))]))
  }

  function NormalRefunds(p: Primitives, refunds: seq<Refund>): (results: seq<Result<Value, EncodeError>>)
    ensures |results| == |refunds|
    ensures forall i | 0 <= i < |refunds| :: results[i] == NormalRefund(p, refunds[i])
  {
    seq(|refunds|, i requires 0 <= i < |refunds| => NormalRefund(p, refunds[i]))
  }

  function NormalInput(p: Primitives, x: Input): Result<Value, EncodeError> {
    var payment := NormalPayment(p, x.payment);
    if payment.Err? then payment
    else
      var refunds := Collect(NormalRefunds(p, x.refunds));
      if refunds.Err? then Err(refunds.error)
      else Ok(Obj([Property("payment", payment.value), Property("refunds", Arr(refunds.value))]))
  }

  function NormalOutputPayment(p: Primitives, x: OutputPayment, chainId: string): Result<Value, EncodeError> {
    var recipient := AddressBytes(p, x.recipient, chainId);
    var currency := AddressBytes(p, x.currency, chainId);
    if recipient.Err? then Err(recipient.error)
    else if currency.Err? then Err(currency.error)
    else Ok(Obj([Property("recipient", Buf(recipient.value)), Property("currency", Buf(currency.value)),
                 Property("minimumAmount", Str(x.minimumAmount)), Property("expectedAmount", Str(x.expectedAmount))]))
  }

  function NormalCall(call: string): Result<Value, EncodeError> {
    var raw := HexBytes(call);
    if raw.Err? then Err(raw.error) else Ok(Buf(raw.value))
  }

  function NormalOutputPayments(p: Primitives, payments: seq<OutputPayment>,
                                chainId: string): (results: seq<Result<Value, EncodeError>>)
    ensures |results| == |payments|
    ensures forall i | 0 <= i < |payments| :: results[i] == NormalOutputPayment(p, payments[i], chainId)
  {
    seq(|payments|, i requires 0 <= i < |payments| => NormalOutputPayment(p, payments[i], chainId))
  }

  function NormalInputs(p: Primitives, inputs: seq<Input>): (results: seq<Result<Value, EncodeError>>)
    ensures |results| == |inputs|
    ensures forall i | 0 <= i < |inputs| :: results[i] == NormalInput(p, inputs[i])
  {
    seq(|inputs|, i requires 0 <= i < |inputs| => NormalInput(p, inputs[i]))
  }

  function NormalFees(p: Primitives, fees: seq<Fee>): (results: seq<Result<Value, EncodeError>>)
    ensures |results| == |fees|
    ensures forall i | 0 <= i < |fees| :: results[i] == NormalFee(p, fees[i])
  {
    seq(|fees|, i requires 0 <= i < |fees| => NormalFee(p, fees[i]))
  }

  function NormalCalls(calls: seq<string>): (results: seq<Result<Value, EncodeError>>)
    ensures |results| == |calls|
    ensures forall i | 0 <= i < |calls| :: results[i] == NormalCall(calls[i])
  {
    seq(|calls|, i requires 0 <= i < |calls| => NormalCall(calls[i]))
  }

  function NormalOutput(p: Primitives, x: Output): Result<Value, EncodeError> {
    var payments := Collect(NormalOutputPayments(p, x.payments, x.chainId));
    if payments.Err? then Err(payments.error)
    else
      var calls := Collect(NormalCalls(x.calls));
      if calls.Err? then Err(calls.error)
      else
        var extraData := HexBytes(x.extraData);
        if extraData.Err? then Err(extraData.error)
        else Ok(Obj([Property("chainId", Str(x.chainId)), Property("payments", Arr(payments.value)),
                     Property("calls", Arr(calls.value)),
                     Property("deadline", Num(x.deadline)), Property("extraData", Buf(extraData.value))]))
  }

  function NormalFee(p: Primitives, x: Fee): Result<Value, EncodeError> {
    var recipient := AddressBytes(p, x.recipient, x.recipientChainId);
    var currency := AddressBytes(p, x.currency, x.currencyChainId);
    if recipient.Err? then Err(recipient.error)
    else if currency.Err? then Err(currency.error)
    else Ok(Obj([Property("recipientChainId", Str(x.recipientChainId)), Property("recipient", Buf(recipient.value)),
                 Property("currencyChainId", Str(x.currencyChainId)), Property("currency", Buf(currency.value)),
                 Property("amount", Str(x.amount))]))
  }

  function Normalize(p: Primitives, x: Order): Result<Value, EncodeError> {
    var inputs := Collect(NormalInputs(p, x.inputs));
    if inputs.Err? then Err(inputs.error)
    else
      var output := NormalOutput(p, x.output);
      if output.Err? then output
      else
        var fees := Collect(NormalFees(p, x.fees));
        if fees.Err? then Err(fees.error)
        else Ok(Obj([Property("version", Str(x.version)), Property("solverChainId", Str(x.solverChainId)),
                     Property("solver", Str(x.solver)), Property("salt", Str(x.salt)),
                     Property("inputs", Arr(inputs.value)),
                     Property("output", output.value), Property("fees", Arr(fees.value))]))
  }

  // ---------------------------------------------------------------- what normalisation can refuse

  /** Nothing was refused, or it was a text for not being hexadecimal or an address. */
  predicate RefusesTexts<T>(r: Result<T, EncodeError>) {
    r.Err? ==> r.error == InvalidHex || r.error == InvalidAddress
  }

  lemma {:induction false} CollectRefuses<T>(results: seq<Result<T, EncodeError>>)
    requires forall k | 0 <= k < |results| :: RefusesTexts(results[k])
    ensures RefusesTexts(Collect(results))
  {
    if results != [] {
      CollectRefuses(results[1..]);
      assert RefusesTexts(results[0]);
    }
  }

  lemma InputRefuses(p: Primitives, x: Input)
    ensures RefusesTexts(NormalInput(p, x))
  {
    CollectRefuses(NormalRefunds(p, x.refunds));
  }

  lemma OutputRefuses(p: Primitives, x: Output)
    ensures RefusesTexts(NormalOutput(p, x))
  {
    CollectRefuses(NormalOutputPayments(p, x.payments, x.chainId));
    CollectRefuses(NormalCalls(x.calls));
  }

  /** Normalisation only ever refuses a text: one that is not hexadecimal or not an address of its chain. */
  lemma NormalizeRefuses(p: Primitives, x: Order)
    ensures RefusesTexts(Normalize(p, x))
  {
    forall i | 0 <= i < |x.inputs|
      ensures RefusesTexts(NormalInputs(p, x.inputs)[i])
    {
      InputRefuses(p, x.inputs[i]);
    }
    CollectRefuses(NormalInputs(p, x.inputs));
    OutputRefuses(p, x.output);
    CollectRefuses(NormalFees(p, x.fees));
  }

  /** `relayOrderId`, before the 32 bytes are written as hex. */
  function RelayOrderId(p: Primitives, x: Order): Result<Bytes, EncodeError> {
    var value := Normalize(p, x);
    if value.Err? then Err(value.error) else EncodeValue(TYPES, p, "Order", value.value)
  }
}
