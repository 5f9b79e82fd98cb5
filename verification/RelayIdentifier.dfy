/** What the identifier of a Relay order is, and what it commits to. */
module RelayIdentifier {
  import opened Wrappers
  import opened Eip712
  import opened Eip712Commitment
  import opened RelayTypes
  import opened RelayOrder
  import opened RelayReading

  // ---------------------------------------------------------------- the identifier, told again

  /** A number in 32 bytes, the most significant byte first. */
  function WordOf(n: nat): Bytes {
    seq(32, i requires 0 <= i < 32 => n / Pow256(31 - i) % 256)
  }

  function Concatenated(words: seq<Bytes>): Bytes {
    if words == [] then [] else words[0] + Concatenated(words[1..])
  }

  function HashOf(p: Primitives, words: seq<Bytes>): Bytes {
    p.keccak(Concatenated(words))
  }

  function TypeWord(p: Primitives, text: string): Bytes {
    p.keccak(p.utf8(text))
  }

  function TextWord(p: Primitives, d: Data): Bytes {
    if d.Text? then p.keccak(d.utf8) else []
  }

  function BytesWord(p: Primitives, d: Data): Bytes {
    if d.Blob? then p.keccak(d.bytes) else []
  }

  function NumberWord(d: Data): Bytes {
    if d.Number? then WordOf(d.number) else []
  }

  /** Twelve zeros and the twenty bytes of an account. */
  function AccountWord(d: Data): Bytes {
    if d.Address? then [0, 0, 0, 0, 0, 0, 0, 0, 0, 0, 0, 0] + d.account else []
  }

  function PaymentWord(p: Primitives, d: Data): Bytes {
    if !IsStruct(d, "InputPayment", 4) then []
    else HashOf(p, [TypeWord(p, TextOf("InputPayment", PAYMENT_TEXT)), TextWord(p, d.fields[0]),
                    BytesWord(p, d.fields[1]), NumberWord(d.fields[2]), NumberWord(d.fields[3])])
  }

  function RefundWord(p: Primitives, d: Data): Bytes {
    if !IsStruct(d, "InputRefund", 6) then []
    else HashOf(p, [TypeWord(p, TextOf("InputRefund", REFUND_TEXT)), TextWord(p, d.fields[0]),
                    BytesWord(p, d.fields[1]), BytesWord(p, d.fields[2]), NumberWord(d.fields[3]),
                    NumberWord(d.fields[4]), BytesWord(p, d.fields[5])])
  }

  function OutputPaymentWord(p: Primitives, d: Data): Bytes {
    if !IsStruct(d, "OutputPayment", 4) then []
    else HashOf(p, [TypeWord(p, TextOf("OutputPayment", OUTPUT_PAYMENT_TEXT)), BytesWord(p, d.fields[0]),
                    BytesWord(p, d.fields[1]), NumberWord(d.fields[2]), NumberWord(d.fields[3])])
  }

  function FeeWord(p: Primitives, d: Data): Bytes {
    if !IsStruct(d, "Fee", 5) then []
    else HashOf(p, [TypeWord(p, TextOf("Fee", FEE_TEXT)), TextWord(p, d.fields[0]), BytesWord(p, d.fields[1]),
                    TextWord(p, d.fields[2]), BytesWord(p, d.fields[3]), NumberWord(d.fields[4])])
  }

  function ItemsOf(d: Data): seq<Data> {
    if d.Array? then d.items else []
  }

  function RefundWords(p: Primitives, items: seq<Data>): (words: seq<Bytes>)
    ensures |words| == |items| && forall i | 0 <= i < |items| :: words[i] == RefundWord(p, items[i])
  {
    seq(|items|, i requires 0 <= i < |items| => RefundWord(p, items[i]))
  }

  function OutputPaymentWords(p: Primitives, items: seq<Data>): (words: seq<Bytes>)
    ensures |words| == |items| && forall i | 0 <= i < |items| :: words[i] == OutputPaymentWord(p, items[i])
  {
    seq(|items|, i requires 0 <= i < |items| => OutputPaymentWord(p, items[i]))
  }

  function CallWords(p: Primitives, items: seq<Data>): (words: seq<Bytes>)
    ensures |words| == |items| && forall i | 0 <= i < |items| :: words[i] == BytesWord(p, items[i])
  {
    seq(|items|, i requires 0 <= i < |items| => BytesWord(p, items[i]))
  }

  function FeeWords(p: Primitives, items: seq<Data>): (words: seq<Bytes>)
    ensures |words| == |items| && forall i | 0 <= i < |items| :: words[i] == FeeWord(p, items[i])
  {
    seq(|items|, i requires 0 <= i < |items| => FeeWord(p, items[i]))
  }

  function InputWord(p: Primitives, d: Data): Bytes {
    if !IsStruct(d, "Input", 2) then []
    else HashOf(p, [TypeWord(p, InputTypeText()), PaymentWord(p, d.fields[0]),
                    HashOf(p, RefundWords(p, ItemsOf(d.fields[1])))])
  }

  function InputWords(p: Primitives, items: seq<Data>): (words: seq<Bytes>)
    ensures |words| == |items| && forall i | 0 <= i < |items| :: words[i] == InputWord(p, items[i])
  {
    seq(|items|, i requires 0 <= i < |items| => InputWord(p, items[i]))
  }

  function OutputWord(p: Primitives, d: Data): Bytes {
    if !IsStruct(d, "Output", 5) then []
    else HashOf(p, [TypeWord(p, OutputTypeText()), TextWord(p, d.fields[0]),
                    HashOf(p, OutputPaymentWords(p, ItemsOf(d.fields[1]))), NumberWord(d.fields[2]),
                    HashOf(p, CallWords(p, ItemsOf(d.fields[3]))), BytesWord(p, d.fields[4])])
  }

  function OrderWord(p: Primitives, d: Data): Bytes {
    if !IsStruct(d, "Order", 7) then []
    else HashOf(p, [TypeWord(p, OrderTypeText()), TextWord(p, d.fields[0]), TextWord(p, d.fields[1]),
                    AccountWord(d.fields[2]), NumberWord(d.fields[3]),
                    HashOf(p, InputWords(p, ItemsOf(d.fields[4]))), OutputWord(p, d.fields[5]),
                    HashOf(p, FeeWords(p, ItemsOf(d.fields[6])))])
  }

  // ---------------------------------------------------------------- the encoder computes it

  lemma {:induction false} BigEndianAt(n: nat, width: nat, i: nat)
    requires i < width
    ensures BigEndian(n, width)[i] == n / Pow256(width - 1 - i) % 256
  {
    if i < width - 1 {
      BigEndianAt(n / 256, width - 1, i);
      Quotients(n, Pow256(width - 2 - i));
      assert Pow256(width - 1 - i) == 256 * Pow256(width - 2 - i);
    } else {
      assert n / Pow256(0) == n;
    }
  }

  lemma Quotients(n: nat, k: nat)
    requires k > 0
    ensures n / 256 / k == n / (256 * k)
  {
    var q := n / (256 * k);
    var r := n % (256 * k);
    assert n == q * (256 * k) + r;
    assert n == 256 * (q * k) + r;
    assert n / 256 == q * k + r / 256;
    assert r / 256 < k;
    QuotientIs(n / 256, k, q, r / 256);
  }

  lemma QuotientIs(n: nat, k: nat, q: nat, r: nat)
    requires k > 0 && n == q * k + r && r < k
    ensures n / k == q
  {
    QuotientUnique(n, k, q, r, n / k, n % k);
  }

  lemma QuotientUnique(n: nat, k: nat, q: nat, r: nat, q': nat, r': nat)
    requires k > 0 && n == q * k + r == q' * k + r' && r < k && r' < k
    ensures q == q'
  {
    if q < q' {
      MoreFits(k, q, q');
    } else if q' < q {
      MoreFits(k, q', q);
    }
  }

  lemma MoreFits(k: nat, less: nat, more: nat)
    requires less < more
    ensures more * k >= less * k + k
  {
    var gap: nat := more - less - 1;
    Distribute(less + 1, gap, k);
    Distribute(less, 1, k);
  }

  lemma Distribute(a: nat, b: nat, k: nat)
    ensures (a + b) * k == a * k + b * k && b * k >= 0
  {
  }

  lemma TextsEncode(p: Primitives, d: Data)
    requires d.Text?
    ensures EncodeData(TYPES, p, d) == TextWord(p, d)
  {
  }

  lemma BlobsEncode(p: Primitives, d: Data)
    requires d.Blob?
    ensures EncodeData(TYPES, p, d) == BytesWord(p, d)
  {
  }

  lemma NumbersEncode(p: Primitives, d: Data)
    requires d.Number?
    ensures EncodeData(TYPES, p, d) == NumberWord(d)
  {
    forall i | 0 <= i < 32 ensures BigEndian(d.number, 32)[i] == WordOf(d.number)[i] {
      BigEndianAt(d.number, 32, i);
    }
  }

  lemma AccountsEncode(p: Primitives, d: Data)
    requires d.Address?
    ensures EncodeData(TYPES, p, d) == AccountWord(d)
  {
    assert seq(12, _ => 0) == [0, 0, 0, 0, 0, 0, 0, 0, 0, 0, 0, 0];
  }

  /** The words are those of the items. */
  ghost predicate Encoded(p: Primitives, items: seq<Data>, words: seq<Bytes>) {
    |words| == |items| && forall k | 0 <= k < |items| :: EncodeData(TYPES, p, items[k]) == words[k]
  }

  lemma {:induction false} JoinedConcatenates(p: Primitives, items: seq<Data>, words: seq<Bytes>)
    requires Encoded(p, items, words)
    ensures Joined(TYPES, p, items) == Concatenated(words)
  {
    if items != [] {
      forall k | 0 <= k < |items| - 1 ensures EncodeData(TYPES, p, items[1..][k]) == words[1..][k] {
        assert EncodeData(TYPES, p, items[k + 1]) == words[k + 1];
      }
      JoinedConcatenates(p, items[1..], words[1..]);
    }
  }

  /** A struct hashes its type and the words of its fields. */
  lemma StructEncodes(p: Primitives, d: Data, text: string, words: seq<Bytes>)
    requires d.Struct? && d.name in TYPES && EncodeType(TYPES, d.name) == text
    requires Encoded(p, d.fields, words)
    ensures EncodeData(TYPES, p, d) == HashOf(p, [TypeWord(p, text)] + words)
  {
    JoinedConcatenates(p, d.fields, words);
    StructOfType(TYPES, p, d, text, Concatenated(words));
    assert ([TypeWord(p, text)] + words)[1..] == words;
  }

  lemma StructOfType(types: Types, p: Primitives, d: Data, text: string, fields: Bytes)
    requires d.Struct? && d.name in types && EncodeType(types, d.name) == text
    requires Joined(types, p, d.fields) == fields
    ensures EncodeData(types, p, d) == p.keccak(TypeWord(p, text) + fields)
  {
  }

  lemma PaymentHash(p: Primitives, d: Data, text: string, w0: Bytes, w1: Bytes, w2: Bytes, w3: Bytes)
    requires IsStruct(d, "InputPayment", 4) && "InputPayment" in TYPES && EncodeType(TYPES, "InputPayment") == text
    requires EncodeData(TYPES, p, d.fields[0]) == w0
    requires EncodeData(TYPES, p, d.fields[1]) == w1
    requires EncodeData(TYPES, p, d.fields[2]) == w2
    requires EncodeData(TYPES, p, d.fields[3]) == w3
    ensures EncodeData(TYPES, p, d) == HashOf(p, [TypeWord(p, text), w0, w1, w2, w3])
  {
    StructEncodes(p, d, text, [w0, w1, w2, w3]);
    assert [TypeWord(p, text)] + [w0, w1, w2, w3] == [TypeWord(p, text), w0, w1, w2, w3];
  }

  lemma PaymentEncodes(p: Primitives, x: Payment, d: Data)
    requires PaymentMeans(p, x, d)
    ensures EncodeData(TYPES, p, d) == PaymentWord(p, d)
  {
    PaymentType();
    TextsEncode(p, d.fields[0]);
    BlobsEncode(p, d.fields[1]);
    NumbersEncode(p, d.fields[2]);
    NumbersEncode(p, d.fields[3]);
    PaymentHash(p, d, TextOf("InputPayment", PAYMENT_TEXT), TextWord(p, d.fields[0]), BytesWord(p, d.fields[1]),
                NumberWord(d.fields[2]), NumberWord(d.fields[3]));
  }

  lemma RefundHash(p: Primitives, d: Data, text: string, w0: Bytes, w1: Bytes, w2: Bytes, w3: Bytes, w4: Bytes,
                   w5: Bytes)
    requires IsStruct(d, "InputRefund", 6) && "InputRefund" in TYPES && EncodeType(TYPES, "InputRefund") == text
    requires EncodeData(TYPES, p, d.fields[0]) == w0
    requires EncodeData(TYPES, p, d.fields[1]) == w1
    requires EncodeData(TYPES, p, d.fields[2]) == w2
    requires EncodeData(TYPES, p, d.fields[3]) == w3
    requires EncodeData(TYPES, p, d.fields[4]) == w4
    requires EncodeData(TYPES, p, d.fields[5]) == w5
    ensures EncodeData(TYPES, p, d) == HashOf(p, [TypeWord(p, text), w0, w1, w2, w3, w4, w5])
  {
    StructEncodes(p, d, text, [w0, w1, w2, w3, w4, w5]);
    assert [TypeWord(p, text)] + [w0, w1, w2, w3, w4, w5] == [TypeWord(p, text), w0, w1, w2, w3, w4, w5];
  }

  lemma RefundEncodes(p: Primitives, x: Refund, d: Data)
    requires RefundMeans(p, x, d)
    ensures EncodeData(TYPES, p, d) == RefundWord(p, d)
  {
    RefundType();
    TextsEncode(p, d.fields[0]);
    BlobsEncode(p, d.fields[1]);
    BlobsEncode(p, d.fields[2]);
    NumbersEncode(p, d.fields[3]);
    NumbersEncode(p, d.fields[4]);
    BlobsEncode(p, d.fields[5]);
    RefundHash(p, d, TextOf("InputRefund", REFUND_TEXT), TextWord(p, d.fields[0]), BytesWord(p, d.fields[1]),
               BytesWord(p, d.fields[2]), NumberWord(d.fields[3]), NumberWord(d.fields[4]),
               BytesWord(p, d.fields[5]));
  }

  lemma OutputPaymentHash(p: Primitives, d: Data, text: string, w0: Bytes, w1: Bytes, w2: Bytes, w3: Bytes)
    requires IsStruct(d, "OutputPayment", 4) && "OutputPayment" in TYPES && EncodeType(TYPES, "OutputPayment") == text
    requires EncodeData(TYPES, p, d.fields[0]) == w0
    requires EncodeData(TYPES, p, d.fields[1]) == w1
    requires EncodeData(TYPES, p, d.fields[2]) == w2
    requires EncodeData(TYPES, p, d.fields[3]) == w3
    ensures EncodeData(TYPES, p, d) == HashOf(p, [TypeWord(p, text), w0, w1, w2, w3])
  {
    StructEncodes(p, d, text, [w0, w1, w2, w3]);
    assert [TypeWord(p, text)] + [w0, w1, w2, w3] == [TypeWord(p, text), w0, w1, w2, w3];
  }

  lemma OutputPaymentEncodes(p: Primitives, x: OutputPayment, chainId: string, d: Data)
    requires OutputPaymentMeans(p, x, chainId, d)
    ensures EncodeData(TYPES, p, d) == OutputPaymentWord(p, d)
  {
    OutputPaymentType();
    BlobsEncode(p, d.fields[0]);
    BlobsEncode(p, d.fields[1]);
    NumbersEncode(p, d.fields[2]);
    NumbersEncode(p, d.fields[3]);
    OutputPaymentHash(p, d, TextOf("OutputPayment", OUTPUT_PAYMENT_TEXT), BytesWord(p, d.fields[0]),
                      BytesWord(p, d.fields[1]), NumberWord(d.fields[2]), NumberWord(d.fields[3]));
  }

  lemma FeeHash(p: Primitives, d: Data, text: string, w0: Bytes, w1: Bytes, w2: Bytes, w3: Bytes, w4: Bytes)
    requires IsStruct(d, "Fee", 5) && "Fee" in TYPES && EncodeType(TYPES, "Fee") == text
    requires EncodeData(TYPES, p, d.fields[0]) == w0
    requires EncodeData(TYPES, p, d.fields[1]) == w1
    requires EncodeData(TYPES, p, d.fields[2]) == w2
    requires EncodeData(TYPES, p, d.fields[3]) == w3
    requires EncodeData(TYPES, p, d.fields[4]) == w4
    ensures EncodeData(TYPES, p, d) == HashOf(p, [TypeWord(p, text), w0, w1, w2, w3, w4])
  {
    StructEncodes(p, d, text, [w0, w1, w2, w3, w4]);
    assert [TypeWord(p, text)] + [w0, w1, w2, w3, w4] == [TypeWord(p, text), w0, w1, w2, w3, w4];
  }

  lemma FeeEncodes(p: Primitives, x: Fee, d: Data)
    requires FeeMeans(p, x, d)
    ensures EncodeData(TYPES, p, d) == FeeWord(p, d)
  {
    FeeType();
    TextsEncode(p, d.fields[0]);
    BlobsEncode(p, d.fields[1]);
    TextsEncode(p, d.fields[2]);
    BlobsEncode(p, d.fields[3]);
    NumbersEncode(p, d.fields[4]);
    FeeHash(p, d, TextOf("Fee", FEE_TEXT), TextWord(p, d.fields[0]), BytesWord(p, d.fields[1]),
            TextWord(p, d.fields[2]), BytesWord(p, d.fields[3]), NumberWord(d.fields[4]));
  }

  lemma RefundsEncode(p: Primitives, xs: seq<Refund>, d: Data)
    requires RefundsMean(p, xs, d)
    ensures EncodeData(TYPES, p, d) == HashOf(p, RefundWords(p, ItemsOf(d)))
  {
    forall i | 0 <= i < |d.items| ensures EncodeData(TYPES, p, d.items[i]) == RefundWord(p, d.items[i]) {
      RefundEncodes(p, xs[i], d.items[i]);
    }
    JoinedConcatenates(p, d.items, RefundWords(p, d.items));
  }

  lemma OutputPaymentsEncode(p: Primitives, xs: seq<OutputPayment>, chainId: string, d: Data)
    requires OutputPaymentsMean(p, xs, chainId, d)
    ensures EncodeData(TYPES, p, d) == HashOf(p, OutputPaymentWords(p, ItemsOf(d)))
  {
    forall i | 0 <= i < |d.items| ensures EncodeData(TYPES, p, d.items[i]) == OutputPaymentWord(p, d.items[i]) {
      OutputPaymentEncodes(p, xs[i], chainId, d.items[i]);
    }
    JoinedConcatenates(p, d.items, OutputPaymentWords(p, d.items));
  }

  lemma CallsEncode(p: Primitives, xs: seq<string>, d: Data)
    requires CallsMean(xs, d)
    ensures EncodeData(TYPES, p, d) == HashOf(p, CallWords(p, ItemsOf(d)))
  {
    forall i | 0 <= i < |d.items| ensures EncodeData(TYPES, p, d.items[i]) == BytesWord(p, d.items[i]) {
      assert MeansBytes(d.items[i], xs[i]);
    }
    JoinedConcatenates(p, d.items, CallWords(p, d.items));
  }

  lemma FeesEncode(p: Primitives, xs: seq<Fee>, d: Data)
    requires FeesMean(p, xs, d)
    ensures EncodeData(TYPES, p, d) == HashOf(p, FeeWords(p, ItemsOf(d)))
  {
    forall i | 0 <= i < |d.items| ensures EncodeData(TYPES, p, d.items[i]) == FeeWord(p, d.items[i]) {
      FeeEncodes(p, xs[i], d.items[i]);
    }
    JoinedConcatenates(p, d.items, FeeWords(p, d.items));
  }

  lemma InputHash(p: Primitives, d: Data, text: string, w0: Bytes, w1: Bytes)
    requires IsStruct(d, "Input", 2) && "Input" in TYPES && EncodeType(TYPES, "Input") == text
    requires EncodeData(TYPES, p, d.fields[0]) == w0
    requires EncodeData(TYPES, p, d.fields[1]) == w1
    ensures EncodeData(TYPES, p, d) == HashOf(p, [TypeWord(p, text), w0, w1])
  {
    StructEncodes(p, d, text, [w0, w1]);
    assert [TypeWord(p, text)] + [w0, w1] == [TypeWord(p, text), w0, w1];
  }

  lemma InputEncodes(p: Primitives, x: Input, d: Data)
    requires InputMeans(p, x, d)
    ensures EncodeData(TYPES, p, d) == InputWord(p, d)
  {
    InputType();
    PaymentEncodes(p, x.payment, d.fields[0]);
    RefundsEncode(p, x.refunds, d.fields[1]);
    InputHash(p, d, InputTypeText(), PaymentWord(p, d.fields[0]), HashOf(p, RefundWords(p, ItemsOf(d.fields[1]))));
  }

  lemma InputsEncode(p: Primitives, xs: seq<Input>, d: Data)
    requires InputsMean(p, xs, d)
    ensures EncodeData(TYPES, p, d) == HashOf(p, InputWords(p, ItemsOf(d)))
  {
    forall i | 0 <= i < |d.items| ensures EncodeData(TYPES, p, d.items[i]) == InputWord(p, d.items[i]) {
      InputEncodes(p, xs[i], d.items[i]);
    }
    JoinedConcatenates(p, d.items, InputWords(p, d.items));
  }

  lemma OutputHash(p: Primitives, d: Data, text: string, w0: Bytes, w1: Bytes, w2: Bytes, w3: Bytes, w4: Bytes)
    requires IsStruct(d, "Output", 5) && "Output" in TYPES && EncodeType(TYPES, "Output") == text
    requires EncodeData(TYPES, p, d.fields[0]) == w0
    requires EncodeData(TYPES, p, d.fields[1]) == w1
    requires EncodeData(TYPES, p, d.fields[2]) == w2
    requires EncodeData(TYPES, p, d.fields[3]) == w3
    requires EncodeData(TYPES, p, d.fields[4]) == w4
    ensures EncodeData(TYPES, p, d) == HashOf(p, [TypeWord(p, text), w0, w1, w2, w3, w4])
  {
    StructEncodes(p, d, text, [w0, w1, w2, w3, w4]);
    assert [TypeWord(p, text)] + [w0, w1, w2, w3, w4] == [TypeWord(p, text), w0, w1, w2, w3, w4];
  }

  lemma OutputEncodes(p: Primitives, x: Output, d: Data)
    requires OutputMeans(p, x, d)
    ensures EncodeData(TYPES, p, d) == OutputWord(p, d)
  {
    OutputType();
    TextsEncode(p, d.fields[0]);
    NumbersEncode(p, d.fields[2]);
    BlobsEncode(p, d.fields[4]);
    OutputPaymentsEncode(p, x.payments, x.chainId, d.fields[1]);
    CallsEncode(p, x.calls, d.fields[3]);
    OutputHash(p, d, OutputTypeText(), TextWord(p, d.fields[0]),
               HashOf(p, OutputPaymentWords(p, ItemsOf(d.fields[1]))), NumberWord(d.fields[2]),
               HashOf(p, CallWords(p, ItemsOf(d.fields[3]))), BytesWord(p, d.fields[4]));
  }

  lemma SevenEncoded(p: Primitives, d: Data, w0: Bytes, w1: Bytes, w2: Bytes, w3: Bytes, w4: Bytes, w5: Bytes,
                     w6: Bytes)
    requires IsStruct(d, "Order", 7)
    requires Encoded(p, d.fields[..4], [w0, w1, w2, w3]) && Encoded(p, d.fields[4..], [w4, w5, w6])
    ensures Encoded(p, d.fields, [w0, w1, w2, w3, w4, w5, w6])
  {
    assert d.fields == d.fields[..4] + d.fields[4..];
    assert [w0, w1, w2, w3, w4, w5, w6] == [w0, w1, w2, w3] + [w4, w5, w6];
  }

  lemma OrderHash(p: Primitives, d: Data, text: string, w0: Bytes, w1: Bytes, w2: Bytes, w3: Bytes, w4: Bytes,
                  w5: Bytes, w6: Bytes)
    requires IsStruct(d, "Order", 7) && "Order" in TYPES && EncodeType(TYPES, "Order") == text
    requires EncodeData(TYPES, p, d.fields[0]) == w0
    requires EncodeData(TYPES, p, d.fields[1]) == w1
    requires EncodeData(TYPES, p, d.fields[2]) == w2
    requires EncodeData(TYPES, p, d.fields[3]) == w3
    requires EncodeData(TYPES, p, d.fields[4]) == w4
    requires EncodeData(TYPES, p, d.fields[5]) == w5
    requires EncodeData(TYPES, p, d.fields[6]) == w6
    ensures EncodeData(TYPES, p, d) == HashOf(p, [TypeWord(p, text), w0, w1, w2, w3, w4, w5, w6])
  {
    FourEncoded(p, d.fields[..4], w0, w1, w2, w3);
    ThreeEncoded(p, d.fields[4..], w4, w5, w6);
    SevenEncoded(p, d, w0, w1, w2, w3, w4, w5, w6);
    StructEncodes(p, d, text, [w0, w1, w2, w3, w4, w5, w6]);
    assert [TypeWord(p, text)] + [w0, w1, w2, w3, w4, w5, w6] == [TypeWord(p, text), w0, w1, w2, w3, w4, w5, w6];
  }

  lemma FourEncoded(p: Primitives, items: seq<Data>, w0: Bytes, w1: Bytes, w2: Bytes, w3: Bytes)
    requires |items| == 4
    requires EncodeData(TYPES, p, items[0]) == w0 && EncodeData(TYPES, p, items[1]) == w1
    requires EncodeData(TYPES, p, items[2]) == w2 && EncodeData(TYPES, p, items[3]) == w3
    ensures Encoded(p, items, [w0, w1, w2, w3])
  {
  }

  lemma ThreeEncoded(p: Primitives, items: seq<Data>, w0: Bytes, w1: Bytes, w2: Bytes)
    requires |items| == 3
    requires EncodeData(TYPES, p, items[0]) == w0 && EncodeData(TYPES, p, items[1]) == w1
    requires EncodeData(TYPES, p, items[2]) == w2
    ensures Encoded(p, items, [w0, w1, w2])
  {
  }

  lemma OrderEncodes(p: Primitives, x: Order, d: Data)
    requires OrderMeans(p, x, d)
    ensures EncodeData(TYPES, p, d) == OrderWord(p, d)
  {
    OrderType();
    TextsEncode(p, d.fields[0]);
    TextsEncode(p, d.fields[1]);
    AccountsEncode(p, d.fields[2]);
    NumbersEncode(p, d.fields[3]);
    InputsEncode(p, x.inputs, d.fields[4]);
    OutputEncodes(p, x.output, d.fields[5]);
    FeesEncode(p, x.fees, d.fields[6]);
    OrderHash(p, d, OrderTypeText(), TextWord(p, d.fields[0]), TextWord(p, d.fields[1]), AccountWord(d.fields[2]),
              NumberWord(d.fields[3]), HashOf(p, InputWords(p, ItemsOf(d.fields[4]))), OutputWord(p, d.fields[5]),
              HashOf(p, FeeWords(p, ItemsOf(d.fields[6]))));
  }

  /**
    The identifier, exactly: it is computed when the order means something, and then it is the EIP-712 hash of
    that, spelled out struct by struct with its type texts.
  */
  lemma IdentifierExact(p: Primitives, x: Order, id: Bytes)
    ensures RelayOrderId(p, x) == Ok(id) <==> exists d :: OrderMeans(p, x, d) && id == OrderWord(p, d)
  {
    var v := Normalize(p, x);
    if v.Ok? {
      EncoderReadsData(TYPES, p, "Order", v.value);
      var decoded := Decode(TYPES, p, "Order", v.value);
      if decoded.Ok? {
        OrderReads(p, x, decoded.value);
        OrderEncodes(p, x, decoded.value);
      }
    }
    forall d | OrderMeans(p, x, d) ensures RelayOrderId(p, x) == Ok(OrderWord(p, d)) {
      OrderReads(p, x, d);
      OrderEncodes(p, x, d);
    }
  }

  // ---------------------------------------------------------------- the same order

  /*
    Two orders are the same when every field means the same: texts byte for byte, amounts as integers, and
    addresses and hexadecimal strings as the bytes they spell.
  */

  ghost predicate SameText(p: Primitives, a: string, b: string) {
    p.utf8(a) == p.utf8(b)
  }

  ghost predicate SameAmount(p: Primitives, a: string, b: string) {
    p.bigInt(a) == p.bigInt(b)
  }

  /** Both texts spell one string of bytes. */
  ghost predicate SameHex(a: string, b: string) {
    exists bytes: Bytes :: Spells(a, bytes) && Spells(b, bytes)
  }

  /** Both addresses, each on its chain, are one string of bytes. */
  ghost predicate SameAddress(p: Primitives, a: string, chainA: string, b: string, chainB: string) {
    exists bytes: Bytes :: AddressIs(p, a, chainA, bytes) && AddressIs(p, b, chainB, bytes)
  }

  ghost predicate SamePayment(p: Primitives, a: Payment, b: Payment) {
    && SameText(p, a.chainId, b.chainId)
    && SameAddress(p, a.currency, a.chainId, b.currency, b.chainId)
    && SameAmount(p, a.amount, b.amount)
    && SameAmount(p, a.weight, b.weight)
  }

  ghost predicate SameRefund(p: Primitives, a: Refund, b: Refund) {
    && SameText(p, a.chainId, b.chainId)
    && SameAddress(p, a.recipient, a.chainId, b.recipient, b.chainId)
    && SameAddress(p, a.currency, a.chainId, b.currency, b.chainId)
    && SameAmount(p, a.minimumAmount, b.minimumAmount)
    && a.deadline == b.deadline
    && SameHex(a.extraData, b.extraData)
  }

  ghost predicate SameRefunds(p: Primitives, a: seq<Refund>, b: seq<Refund>) {
    |a| == |b| && forall i | 0 <= i < |a| :: SameRefund(p, a[i], b[i])
  }

  ghost predicate SameInput(p: Primitives, a: Input, b: Input) {
    SamePayment(p, a.payment, b.payment) && SameRefunds(p, a.refunds, b.refunds)
  }

  ghost predicate SameInputs(p: Primitives, a: seq<Input>, b: seq<Input>) {
    |a| == |b| && forall i | 0 <= i < |a| :: SameInput(p, a[i], b[i])
  }

  ghost predicate SameOutputPayment(p: Primitives, a: OutputPayment, chainA: string, b: OutputPayment, chainB: string) {
    && SameAddress(p, a.recipient, chainA, b.recipient, chainB)
    && SameAddress(p, a.currency, chainA, b.currency, chainB)
    && SameAmount(p, a.minimumAmount, b.minimumAmount)
    && SameAmount(p, a.expectedAmount, b.expectedAmount)
  }

  ghost predicate SameOutputPayments(p: Primitives, a: seq<OutputPayment>, chainA: string, b: seq<OutputPayment>,
                                     chainB: string)
  {
    |a| == |b| && forall i | 0 <= i < |a| :: SameOutputPayment(p, a[i], chainA, b[i], chainB)
  }

  ghost predicate SameCalls(a: seq<string>, b: seq<string>) {
    |a| == |b| && forall i | 0 <= i < |a| :: SameHex(a[i], b[i])
  }

  ghost predicate SameOutput(p: Primitives, a: Output, b: Output) {
    && SameText(p, a.chainId, b.chainId)
    && SameOutputPayments(p, a.payments, a.chainId, b.payments, b.chainId)
    && SameCalls(a.calls, b.calls)
    && a.deadline == b.deadline
    && SameHex(a.extraData, b.extraData)
  }

  ghost predicate SameFee(p: Primitives, a: Fee, b: Fee) {
    && SameText(p, a.recipientChainId, b.recipientChainId)
    && SameAddress(p, a.recipient, a.recipientChainId, b.recipient, b.recipientChainId)
    && SameText(p, a.currencyChainId, b.currencyChainId)
    && SameAddress(p, a.currency, a.currencyChainId, b.currency, b.currencyChainId)
    && SameAmount(p, a.amount, b.amount)
  }

  ghost predicate SameFees(p: Primitives, a: seq<Fee>, b: seq<Fee>) {
    |a| == |b| && forall i | 0 <= i < |a| :: SameFee(p, a[i], b[i])
  }

  ghost predicate SameOrder(p: Primitives, a: Order, b: Order) {
    && SameText(p, a.version, b.version)
    && SameText(p, a.solverChainId, b.solverChainId)
    && SameHex(a.solver, b.solver)
    && SameAmount(p, a.salt, b.salt)
    && SameInputs(p, a.inputs, b.inputs)
    && SameOutput(p, a.output, b.output)
    && SameFees(p, a.fees, b.fees)
  }

  // ---------------------------------------------------------------- the same meaning is the same order

  lemma HexMeans(a: string, b: string, x: Bytes, y: Bytes)
    requires Spells(a, x) && Spells(b, y)
    ensures SameHex(a, b) <==> x == y
  {
    HexBytesExact(a);
    HexBytesExact(b);
  }

  lemma AddressesMean(p: Primitives, a: string, chainA: string, b: string, chainB: string, da: Data, db: Data)
    requires MeansAddress(p, da, a, chainA) && MeansAddress(p, db, b, chainB)
    ensures SameAddress(p, a, chainA, b, chainB) <==> da == db
  {
    forall bytes: Bytes | AddressIs(p, a, chainA, bytes) ensures bytes == da.bytes {
      HexBytesExact(a);
    }
    forall bytes: Bytes | AddressIs(p, b, chainB, bytes) ensures bytes == db.bytes {
      HexBytesExact(b);
    }
  }

  lemma BytesMean(a: string, b: string, da: Data, db: Data)
    requires MeansBytes(da, a) && MeansBytes(db, b)
    ensures SameHex(a, b) <==> da == db
  {
    HexMeans(a, b, da.bytes, db.bytes);
  }

  /** Structs are equal field by field, arrays item by item. */
  lemma StructsEqual(da: Data, db: Data, name: string, size: nat)
    requires IsStruct(da, name, size) && IsStruct(db, name, size)
    ensures da == db <==> forall k | 0 <= k < size :: da.fields[k] == db.fields[k]
  {
    if forall k | 0 <= k < size :: da.fields[k] == db.fields[k] {
      assert da.fields == db.fields;
    }
  }

  lemma ArraysEqual(da: Data, db: Data)
    requires da.Array? && db.Array?
    ensures da == db <==> |da.items| == |db.items| && forall k | 0 <= k < |da.items| :: da.items[k] == db.items[k]
  {
    if |da.items| == |db.items| && forall k | 0 <= k < |da.items| :: da.items[k] == db.items[k] {
      assert da.items == db.items;
    }
  }

  lemma PaymentsEqual(p: Primitives, a: Payment, b: Payment, da: Data, db: Data)
    requires PaymentMeans(p, a, da) && PaymentMeans(p, b, db)
    ensures da == db <==> SamePayment(p, a, b)
  {
    StructsEqual(da, db, "InputPayment", 4);
    AddressesMean(p, a.currency, a.chainId, b.currency, b.chainId, da.fields[1], db.fields[1]);
  }

  lemma RefundsEqual(p: Primitives, a: Refund, b: Refund, da: Data, db: Data)
    requires RefundMeans(p, a, da) && RefundMeans(p, b, db)
    ensures da == db <==> SameRefund(p, a, b)
  {
    StructsEqual(da, db, "InputRefund", 6);
    AddressesMean(p, a.recipient, a.chainId, b.recipient, b.chainId, da.fields[1], db.fields[1]);
    AddressesMean(p, a.currency, a.chainId, b.currency, b.chainId, da.fields[2], db.fields[2]);
    BytesMean(a.extraData, b.extraData, da.fields[5], db.fields[5]);
  }

  lemma OutputPaymentsEqual(p: Primitives, a: OutputPayment, chainA: string, b: OutputPayment, chainB: string,
                            da: Data, db: Data)
    requires OutputPaymentMeans(p, a, chainA, da) && OutputPaymentMeans(p, b, chainB, db)
    ensures da == db <==> SameOutputPayment(p, a, chainA, b, chainB)
  {
    StructsEqual(da, db, "OutputPayment", 4);
    AddressesMean(p, a.recipient, chainA, b.recipient, chainB, da.fields[0], db.fields[0]);
    AddressesMean(p, a.currency, chainA, b.currency, chainB, da.fields[1], db.fields[1]);
  }

  lemma FeesEqual(p: Primitives, a: Fee, b: Fee, da: Data, db: Data)
    requires FeeMeans(p, a, da) && FeeMeans(p, b, db)
    ensures da == db <==> SameFee(p, a, b)
  {
    StructsEqual(da, db, "Fee", 5);
    AddressesMean(p, a.recipient, a.recipientChainId, b.recipient, b.recipientChainId, da.fields[1], db.fields[1]);
    AddressesMean(p, a.currency, a.currencyChainId, b.currency, b.currencyChainId, da.fields[3], db.fields[3]);
  }

  lemma RefundListsEqual(p: Primitives, a: seq<Refund>, b: seq<Refund>, da: Data, db: Data)
    requires RefundsMean(p, a, da) && RefundsMean(p, b, db)
    ensures da == db <==> SameRefunds(p, a, b)
  {
    ArraysEqual(da, db);
    if |a| == |b| {
      forall i | 0 <= i < |a| ensures da.items[i] == db.items[i] <==> SameRefund(p, a[i], b[i]) {
        RefundsEqual(p, a[i], b[i], da.items[i], db.items[i]);
      }
    }
  }

  lemma InputsEqual(p: Primitives, a: Input, b: Input, da: Data, db: Data)
    requires InputMeans(p, a, da) && InputMeans(p, b, db)
    ensures da == db <==> SameInput(p, a, b)
  {
    StructsEqual(da, db, "Input", 2);
    PaymentsEqual(p, a.payment, b.payment, da.fields[0], db.fields[0]);
    RefundListsEqual(p, a.refunds, b.refunds, da.fields[1], db.fields[1]);
  }

  lemma InputListsEqual(p: Primitives, a: seq<Input>, b: seq<Input>, da: Data, db: Data)
    requires InputsMean(p, a, da) && InputsMean(p, b, db)
    ensures da == db <==> SameInputs(p, a, b)
  {
    ArraysEqual(da, db);
    if |a| == |b| {
      forall i | 0 <= i < |a| ensures da.items[i] == db.items[i] <==> SameInput(p, a[i], b[i]) {
        InputsEqual(p, a[i], b[i], da.items[i], db.items[i]);
      }
    }
  }

  lemma OutputPaymentListsEqual(p: Primitives, a: seq<OutputPayment>, chainA: string, b: seq<OutputPayment>,
                                chainB: string, da: Data, db: Data)
    requires OutputPaymentsMean(p, a, chainA, da) && OutputPaymentsMean(p, b, chainB, db)
    ensures da == db <==> SameOutputPayments(p, a, chainA, b, chainB)
  {
    ArraysEqual(da, db);
    if |a| == |b| {
      forall i | 0 <= i < |a|
        ensures da.items[i] == db.items[i] <==> SameOutputPayment(p, a[i], chainA, b[i], chainB)
      {
        OutputPaymentsEqual(p, a[i], chainA, b[i], chainB, da.items[i], db.items[i]);
      }
    }
  }

  lemma CallListsEqual(a: seq<string>, b: seq<string>, da: Data, db: Data)
    requires CallsMean(a, da) && CallsMean(b, db)
    ensures da == db <==> SameCalls(a, b)
  {
    ArraysEqual(da, db);
    if |a| == |b| {
      forall i | 0 <= i < |a| ensures da.items[i] == db.items[i] <==> SameHex(a[i], b[i]) {
        BytesMean(a[i], b[i], da.items[i], db.items[i]);
      }
    }
  }

  lemma OutputsEqual(p: Primitives, a: Output, b: Output, da: Data, db: Data)
    requires OutputMeans(p, a, da) && OutputMeans(p, b, db)
    ensures da == db <==> SameOutput(p, a, b)
  {
    StructsEqual(da, db, "Output", 5);
    OutputPaymentListsEqual(p, a.payments, a.chainId, b.payments, b.chainId, da.fields[1], db.fields[1]);
    CallListsEqual(a.calls, b.calls, da.fields[3], db.fields[3]);
    BytesMean(a.extraData, b.extraData, da.fields[4], db.fields[4]);
  }

  lemma FeeListsEqual(p: Primitives, a: seq<Fee>, b: seq<Fee>, da: Data, db: Data)
    requires FeesMean(p, a, da) && FeesMean(p, b, db)
    ensures da == db <==> SameFees(p, a, b)
  {
    ArraysEqual(da, db);
    if |a| == |b| {
      forall i | 0 <= i < |a| ensures da.items[i] == db.items[i] <==> SameFee(p, a[i], b[i]) {
        FeesEqual(p, a[i], b[i], da.items[i], db.items[i]);
      }
    }
  }

  /** Orders mean the same data exactly when they agree in every field and every array length. */
  lemma OrdersMeanAlike(p: Primitives, a: Order, b: Order, da: Data, db: Data)
    requires OrderMeans(p, a, da) && OrderMeans(p, b, db)
    ensures da == db <==> SameOrder(p, a, b)
  {
    StructsEqual(da, db, "Order", 7);
    HexMeans(a.solver, b.solver, da.fields[2].account, db.fields[2].account);
    InputListsEqual(p, a.inputs, b.inputs, da.fields[4], db.fields[4]);
    OutputsEqual(p, a.output, b.output, da.fields[5], db.fields[5]);
    FeeListsEqual(p, a.fees, b.fees, da.fields[6], db.fields[6]);
  }

  // ---------------------------------------------------------------- what the identifier commits to

  /** What the hash is given while an order's identifier is computed. */
  ghost function Inputs(p: Primitives, x: Order): set<Bytes> {
    var value := Normalize(p, x);
    if value.Err? then {}
    else
      var d := Decode(TYPES, p, "Order", value.value);
      if d.Err? then {} else Hashed(TYPES, p, d.value)
  }

  /**
    Orders whose identifiers can be computed have one identifier exactly when they agree in every field and
    every array length, as long as no two of the inputs hashed on the way collide.
  */
  lemma IdentifierDecides(p: Primitives, a: Order, b: Order)
    requires p.HashesTo32() && NoCollision(p, Inputs(p, a) + Inputs(p, b))
    requires RelayOrderId(p, a).Ok? && RelayOrderId(p, b).Ok?
    ensures RelayOrderId(p, a) == RelayOrderId(p, b) <==> SameOrder(p, a, b)
  {
    var va, vb := Normalize(p, a).value, Normalize(p, b).value;
    EncoderReadsData(TYPES, p, "Order", va);
    EncoderReadsData(TYPES, p, "Order", vb);
    DecodedHasType(TYPES, p, "Order", va);
    DecodedHasType(TYPES, p, "Order", vb);
    var da, db := Decode(TYPES, p, "Order", va).value, Decode(TYPES, p, "Order", vb).value;
    if RelayOrderId(p, a) == RelayOrderId(p, b) {
      EncodingCommits(TYPES, p, "Order", da, db, Inputs(p, a) + Inputs(p, b));
    }
    OrderReads(p, a, da);
    OrderReads(p, b, db);
    OrdersMeanAlike(p, a, b, da, db);
  }

  /** Calls that stand for the same bytes normalise alike, whatever their spelling. */
  lemma SameCallsNormalize(p: Primitives, x: Output, calls: seq<string>, spelled: seq<string>)
    requires |calls| == |spelled| && forall i | 0 <= i < |calls| :: HexBytes(calls[i]) == HexBytes(spelled[i])
    ensures NormalOutput(p, x.(calls := calls)) == NormalOutput(p, x.(calls := spelled))
  {
    assert NormalCalls(calls) == NormalCalls(spelled);
  }

  lemma SameOutputNormalizes(p: Primitives, a: Order, b: Order)
    requires a.(output := b.output) == b && NormalOutput(p, a.output) == NormalOutput(p, b.output)
    ensures Normalize(p, a) == Normalize(p, b)
  {
  }

  /** Two orders that differ only in how a call is spelled have one identifier. */
  lemma SpellingIsIgnored(p: Primitives, x: Order)
    ensures var upper, lower := x.(output := x.output.(calls := ["0xAB"])), x.(output := x.output.(calls := ["0xab"]));
            upper != lower && RelayOrderId(p, upper) == RelayOrderId(p, lower)
  {
    var upper, lower := x.(output := x.output.(calls := ["0xAB"])), x.(output := x.output.(calls := ["0xab"]));
    assert "AB"[2..] == "ab"[2..] == "";
    assert "0xAB"[2..] == "AB" && "0xab"[2..] == "ab";
    assert HexBytes("0xAB") == HexBytes("0xab");
    SameCallsNormalize(p, x.output, ["0xAB"], ["0xab"]);
    assert "0xAB"[2] != "0xab"[2] && upper.output.calls[0] != lower.output.calls[0];
    SameOutputNormalizes(p, upper, lower);
  }
}
