/**
  Who pays for an accepted message. The network first charges the fee to the first key, and keeps it even when
  the instructions then abort; src/wallet/signing.ts accepts on compatibility alone, while
  chains/solana/transactions/clean.ts and send.ts also look at the signers.
*/
module PhantomCharge {
  import opened Wrappers
  import opened Sequences
  import opened Balances
  import opened Phantom
  import opened PhantomCompatibility
  import opened PhantomMeaning
  import opened PhantomSigners

  /** What a fee depends on: the first key, the number of signatures and the compute-budget settings. */
  datatype Bill = Bill(payer: Option<Key>, signatures: nat, settings: set<seq<Byte>>)

  function Payer(m: Message): Option<Key> {
    if m.keys == [] then None else Some(m.keys[0])
  }

  /** The compute-budget data of an instruction, if it is for that program. */
  function Setting(m: Message, ins: Instruction): Option<seq<Byte>> {
    if ins.program < |m.keys| && m.keys[ins.program] == COMPUTE_BUDGET then Some(ins.data) else None
  }

  function Settings(m: Message): set<seq<Byte>> {
    set i | 0 <= i < |m.instructions| && Setting(m, m.instructions[i]).Some? :: Setting(m, m.instructions[i]).value
  }

  function BillOf(m: Message): Bill {
    Bill(Payer(m), m.header.signatures, Settings(m))
  }

  /** A fee schedule on the states of the network: the state with the fee gone, or None when it cannot be paid. */
  type Charge<!S> = (Bill, S) -> Option<S>

  datatype Outcome<S> = Unpaid | Paid(charged: S, done: Option<S>)

  function ChargedRun<S>(m: Message, tables: Tables, charge: Charge<S>, exec: Semantics<S>, s: S): Outcome<S> {
    match charge(BillOf(m), s)
    case None => Unpaid
    case Some(charged) => Paid(charged, Run(m, tables, exec, charged))
  }

  /** Both are unpaid, or the same fee is gone and the returned message then aborts or does the same. */
  ghost predicate Alike<S>(returned: Outcome<S>, prepared: Outcome<S>) {
    match prepared
    case Unpaid => returned.Unpaid?
    case Paid(charged, done) => returned.Paid? && returned.charged == charged && returned.done in {None, done}
  }

  lemma SameSetting(p: Message, a: Instruction, r: Message, b: Instruction)
    requires SameInstruction(p, a, r, b)
    ensures Setting(p, a) == Setting(r, b)
  {
    var x, y := Name(p, a).value, Name(r, b).value;
    assert x.program == y.program && x.data == y.data;
  }

  lemma AssertionSetsNothing(m: Message, ins: Instruction, known: set<Key>)
    requires IsGuard(m, ins, known)
    ensures Setting(m, ins).None?
  {
    assert m.keys[ins.program] == LIGHTHOUSE;
    assert LIGHTHOUSE[0] != COMPUTE_BUDGET[0];
  }

  /** Each instruction of one message has a partner with the same setting in the other, or is no setting. */
  lemma SettingsKept(p: Message, r: Message)
    requires Rewritten(p, r)
    ensures Settings(p) == Settings(r)
  {
    var xs, ys := p.instructions, r.instructions;
    forall i | 0 <= i < |xs| && Setting(p, xs[i]).Some? ensures Setting(p, xs[i]).value in Settings(r) {
      var j := Partner(p, r, i);
      SameSetting(p, xs[i], r, ys[j]);
    }
    forall j | 0 <= j < |ys| && Setting(r, ys[j]).Some? ensures Setting(r, ys[j]).value in Settings(p) {
      if j < |xs| {
        var i := PartnerBack(p, r, j);
        SameSetting(p, xs[i], r, ys[j]);
      } else {
        AssertionSetsNothing(r, ys[j], Elements(p.keys));
      }
    }
  }

  function Partner(p: Message, r: Message, i: nat): (j: nat)
    requires Rewritten(p, r) && i < |p.instructions|
    ensures j < |r.instructions| && SameInstruction(p, p.instructions[i], r, r.instructions[j])
  {
    if SameInstruction(p, p.instructions[i], r, r.instructions[i]) then i else 1 - i
  }

  function PartnerBack(p: Message, r: Message, j: nat): (i: nat)
    requires Rewritten(p, r) && j < |p.instructions|
    ensures i < |p.instructions| && SameInstruction(p, p.instructions[i], r, r.instructions[j])
  {
    if SameInstruction(p, p.instructions[j], r, r.instructions[j]) then j else 1 - j
  }

  /** Acceptance keeps the whole bill, except perhaps for whom it goes to. */
  lemma BillKept(p: Message, r: Message)
    requires Validate(p, r).Accepted? && WellFormedHeader(p) && WellFormedHeader(r)
    ensures BillOf(r) == BillOf(p).(payer := Payer(r))
  {
    HeaderCounts(p, r);
    ValidateExact(p, r);
    if p != r {
      SettingsKept(p, r);
    }
  }

  /**
    An accepted message does to the network what the prepared one does, the fee included, exactly when billing
    its first key comes to the same as billing the prepared one: for every lookup-table content, every semantics
    as in `AcceptedKeepsMeaning` and every fee schedule.
  */
  lemma ChargedAlikeExactly<S(!new)>(p: Message, r: Message, tables: Tables, charge: Charge<S>, exec: Semantics<S>,
                                     s: S)
    requires Validate(p, r).Accepted? && WellFormedHeader(p) && WellFormedHeader(r)
    requires SettingsIndependent(exec) && AssertionsOnlyGuard(exec)
    ensures var before, after := ChargedRun(p, tables, charge, exec, s), ChargedRun(r, tables, charge, exec, s);
            var sameCharge := charge(BillOf(p).(payer := Payer(r)), s) == charge(BillOf(p), s);
            && (Alike(after, before) <==> sameCharge)
            && (sameCharge && (LIGHTHOUSE !in r.keys || LIGHTHOUSE in p.keys) ==> after == before)
  {
    BillKept(p, r);
    var paid := charge(BillOf(p), s);
    if paid.Some? {
      AcceptedKeepsMeaning(p, r, tables, exec, paid.value);
    }
  }

  // ---------------------------------------------------------------- charging a ledger

  /** The fee for a number of signatures and the compute-budget settings, whoever pays it. */
  type Fees = (nat, set<seq<Byte>>) -> nat

  function FeeOf(fees: Fees, b: Bill): nat {
    fees(b.signatures, b.settings)
  }

  predicate CanPay(fees: Fees, b: Bill, l: Ledger) {
    b.payer.Some? && Balance(l, b.payer.value) >= FeeOf(fees, b)
  }

  /** The fee is taken from the balance of the payer, when that holds it. */
  function LedgerCharge(fees: Fees): Charge<Ledger> {
    (b: Bill, l: Ledger) =>
      if CanPay(fees, b, l) then Some(l[b.payer.value := Balance(l, b.payer.value) - FeeOf(fees, b)]) else None
  }

  /** Taking a positive fee from different accounts leaves different ledgers. */
  lemma DebitsDiffer(l: Ledger, a: Key, b: Key, fee: nat)
    requires a != b && fee > 0
    ensures l[a := Balance(l, a) - fee] != l[b := Balance(l, b) - fee]
  {
    var left, right := l[a := Balance(l, a) - fee], l[b := Balance(l, b) - fee];
    assert Balance(left, a) == Balance(l, a) - fee;
    assert Balance(right, a) == Balance(l, a);
  }

  lemma SameLedgerCharge(fees: Fees, b: Bill, payer: Option<Key>, l: Ledger)
    requires FeeOf(fees, b) > 0
    ensures var other := b.(payer := payer);
            LedgerCharge(fees)(other, l) == LedgerCharge(fees)(b, l) <==>
              payer == b.payer || (!CanPay(fees, b, l) && !CanPay(fees, other, l))
  {
    var other := b.(payer := payer);
    if CanPay(fees, b, l) && CanPay(fees, other, l) && payer != b.payer {
      DebitsDiffer(l, payer.value, b.payer.value, FeeOf(fees, b));
    }
  }

  /**
    On a ledger that a positive fee is taken from, an accepted message is charged and runs as the prepared one
    exactly when the first key is still the prepared one, or neither of the two accounts can pay.
  */
  lemma LedgerChargedExactly(p: Message, r: Message, tables: Tables, fees: Fees, exec: Semantics<Ledger>, l: Ledger)
    requires Validate(p, r).Accepted? && WellFormedHeader(p) && WellFormedHeader(r)
    requires SettingsIndependent(exec) && AssertionsOnlyGuard(exec)
    requires FeeOf(fees, BillOf(p)) > 0
    ensures var before := ChargedRun(p, tables, LedgerCharge(fees), exec, l);
            var after := ChargedRun(r, tables, LedgerCharge(fees), exec, l);
            Alike(after, before) <==>
              Payer(r) == Payer(p) || (!CanPay(fees, BillOf(p), l) && !CanPay(fees, BillOf(r), l))
  {
    BillKept(p, r);
    ChargedAlikeExactly(p, r, tables, LedgerCharge(fees), exec, l);
    SameLedgerCharge(fees, BillOf(p), Payer(r), l);
  }

  // ---------------------------------------------------------------- a payer that changes

  const SET_LIMIT: Instruction := Instruction(2, [], [2, 0, 0, 0, 0])
  const SET_PRICE: Instruction := Instruction(2, [], [3, 0, 0, 0, 0, 0, 0, 0, 0])

  /** Two writable signers and the two settings. */
  function TwoSigners(first: Key, second: Key, settings: seq<Instruction>): Message {
    Message(V0, "", Header(2, 0, 1), [first, second, COMPUTE_BUDGET], [], settings)
  }

  lemma NameSetting(m: Message, ins: Instruction)
    requires |m.keys| == 3 && m.keys[2] == COMPUTE_BUDGET && ins.program == 2 && ins.accounts == []
    ensures Name(m, ins) == Some(NamedInstruction(COMPUTE_BUDGET, [], ins.data))
  {
    assert Name(m, ins).value.accounts == [];
  }

  lemma SwapIsRewritten(payer: Key, wallet: Key)
    requires payer != wallet && {payer, wallet} !! {LIGHTHOUSE, COMPUTE_BUDGET}
    ensures Rewritten(TwoSigners(payer, wallet, [SET_PRICE, SET_LIMIT]),
                      TwoSigners(wallet, payer, [SET_LIMIT, SET_PRICE]))
  {
    var p, r := TwoSigners(payer, wallet, [SET_PRICE, SET_LIMIT]), TwoSigners(wallet, payer, [SET_LIMIT, SET_PRICE]);
    NameSetting(p, SET_LIMIT);
    NameSetting(p, SET_PRICE);
    NameSetting(r, SET_LIMIT);
    NameSetting(r, SET_PRICE);
    assert Elements(p.keys) == {payer, wallet, COMPUTE_BUDGET} == Elements(r.keys);
    assert COMPUTE_BUDGET[0] != LIGHTHOUSE[0];
  }

  /** The check of the signed transaction refuses a message that another account would pay for. */
  lemma OtherPayerIsRefused(prepared: Preparation, signed: Signed, allowLookupTables: bool, blockHeight: int)
    requires Payer(signed.message) != Some(prepared.feePayer)
    ensures ValidateSignedClean(prepared, signed, allowLookupTables, blockHeight) == Err(MessageMismatch)
  {
    var m := signed.message;
    var signers := m.keys[..if m.header.signatures <= |m.keys| then m.header.signatures else |m.keys|];
    assert signers != [] ==> signers[0] == m.keys[0];
  }

  /**
    Compatibility alone lets the payer change: with payer and wallet exchanged, both writable signers, a
    returned message is accepted and charges the wallet.
  */
  lemma AcceptedPayerChanges(payer: Key, wallet: Key)
    requires payer != wallet && {payer, wallet} !! {LIGHTHOUSE, COMPUTE_BUDGET}
    ensures var p := TwoSigners(payer, wallet, [SET_PRICE, SET_LIMIT]);
            var r := TwoSigners(wallet, payer, [SET_LIMIT, SET_PRICE]);
            && Validate(p, r).Accepted?
            && BillOf(p).payer == Some(payer)
            && BillOf(r) == BillOf(p).(payer := Some(wallet))
  {
    var p, r := TwoSigners(payer, wallet, [SET_PRICE, SET_LIMIT]), TwoSigners(wallet, payer, [SET_LIMIT, SET_PRICE]);
    SwapIsRewritten(payer, wallet);
    ValidateExact(p, r);
    BillKept(p, r);
  }

  /** A first key that can pay has paid when the instructions run. */
  lemma LedgerRunPays(m: Message, tables: Tables, fees: Fees, exec: Semantics<Ledger>, l: Ledger)
    requires CanPay(fees, BillOf(m), l)
    ensures var run, payer := ChargedRun(m, tables, LedgerCharge(fees), exec, l), BillOf(m).payer.value;
            run.Paid? && run.charged == l[payer := Balance(l, payer) - FeeOf(fees, BillOf(m))]
  {
  }

  /** One bill with two payers who can both pay: each message takes the fee from its own payer. */
  lemma EachPays(p: Message, r: Message, payer: Key, wallet: Key, tables: Tables, fees: Fees, exec: Semantics<Ledger>,
                 l: Ledger)
    requires payer != wallet && BillOf(p).payer == Some(payer) && BillOf(r) == BillOf(p).(payer := Some(wallet))
    requires 0 < FeeOf(fees, BillOf(p)) <= Balance(l, payer) && FeeOf(fees, BillOf(p)) <= Balance(l, wallet)
    ensures var before := ChargedRun(p, tables, LedgerCharge(fees), exec, l);
            var after := ChargedRun(r, tables, LedgerCharge(fees), exec, l);
            var fee := FeeOf(fees, BillOf(p));
            && before.Paid? && before.charged == l[payer := Balance(l, payer) - fee]
            && after.Paid? && after.charged == l[wallet := Balance(l, wallet) - fee]
            && !Alike(after, before)
  {
    LedgerRunPays(p, tables, fees, exec, l);
    LedgerRunPays(r, tables, fees, exec, l);
    DebitsDiffer(l, payer, wallet, FeeOf(fees, BillOf(p)));
  }

  /**
    On a ledger where both accounts can pay, the prepared message takes the fee from the payer, and the one with
    the two exchanged takes it from the wallet.
  */
  lemma ExchangedPayerPays(payer: Key, wallet: Key, tables: Tables, fees: Fees, exec: Semantics<Ledger>, l: Ledger)
    requires payer != wallet && {payer, wallet} !! {LIGHTHOUSE, COMPUTE_BUDGET}
    requires var fee := FeeOf(fees, BillOf(TwoSigners(payer, wallet, [SET_PRICE, SET_LIMIT])));
             0 < fee <= Balance(l, payer) && fee <= Balance(l, wallet)
    ensures var p := TwoSigners(payer, wallet, [SET_PRICE, SET_LIMIT]);
            var r := TwoSigners(wallet, payer, [SET_LIMIT, SET_PRICE]);
            var before := ChargedRun(p, tables, LedgerCharge(fees), exec, l);
            var after := ChargedRun(r, tables, LedgerCharge(fees), exec, l);
            var fee := FeeOf(fees, BillOf(p));
            && before.Paid? && before.charged == l[payer := Balance(l, payer) - fee]
            && after.Paid? && after.charged == l[wallet := Balance(l, wallet) - fee]
            && !Alike(after, before)
  {
    AcceptedPayerChanges(payer, wallet);
    var p, r := TwoSigners(payer, wallet, [SET_PRICE, SET_LIMIT]), TwoSigners(wallet, payer, [SET_LIMIT, SET_PRICE]);
    EachPays(p, r, payer, wallet, tables, fees, exec, l);
  }

  /**
    Where the signers are checked as well: a signed message that passes is charged and runs as the prepared one
    exactly when that one is headed by its own fee payer, as a message compiled for that payer is, or neither
    that payer nor the account that does head it can pay.
  */
  lemma SignedChargedExactly(prepared: Preparation, signed: Signed, allowLookupTables: bool, blockHeight: int,
                             tables: Tables, fees: Fees, exec: Semantics<Ledger>, l: Ledger)
    requires ValidateSignedClean(prepared, signed, allowLookupTables, blockHeight).Ok?
    requires WellFormedHeader(prepared.message) && WellFormedHeader(signed.message)
    requires SettingsIndependent(exec) && AssertionsOnlyGuard(exec)
    requires FeeOf(fees, BillOf(prepared.message)) > 0
    ensures var before := ChargedRun(prepared.message, tables, LedgerCharge(fees), exec, l);
            var after := ChargedRun(signed.message, tables, LedgerCharge(fees), exec, l);
            var bill := BillOf(prepared.message);
            Alike(after, before) <==>
              || bill.payer == Some(prepared.feePayer)
              || (!CanPay(fees, bill, l) && !CanPay(fees, bill.(payer := Some(prepared.feePayer)), l))
  {
    SignedPayer(prepared, signed, allowLookupTables, blockHeight);
    BillKept(prepared.message, signed.message);
    LedgerChargedExactly(prepared.message, signed.message, tables, fees, exec, l);
  }

  lemma SignedPayer(prepared: Preparation, signed: Signed, allowLookupTables: bool, blockHeight: int)
    requires ValidateSignedClean(prepared, signed, allowLookupTables, blockHeight).Ok?
    requires WellFormedHeader(prepared.message) && WellFormedHeader(signed.message)
    ensures Payer(signed.message) == Some(prepared.feePayer)
  {
    SignersKeepSlots(prepared, signed, allowLookupTables, blockHeight);
    assert signed.message.keys[0] == signed.message.keys[..2][0];
  }

  /** The same under any fee schedule: charged alike exactly when billing the fee payer comes to the same. */
  lemma SignedBilledExactly<S(!new)>(prepared: Preparation, signed: Signed, allowLookupTables: bool, blockHeight: int,
                                     tables: Tables, charge: Charge<S>, exec: Semantics<S>, s: S)
    requires ValidateSignedClean(prepared, signed, allowLookupTables, blockHeight).Ok?
    requires WellFormedHeader(prepared.message) && WellFormedHeader(signed.message)
    requires SettingsIndependent(exec) && AssertionsOnlyGuard(exec)
    ensures var before := ChargedRun(prepared.message, tables, charge, exec, s);
            var after := ChargedRun(signed.message, tables, charge, exec, s);
            var bill := BillOf(prepared.message);
            Alike(after, before) <==> charge(bill.(payer := Some(prepared.feePayer)), s) == charge(bill, s)
  {
    SignedPayer(prepared, signed, allowLookupTables, blockHeight);
    ChargedAlikeExactly(prepared.message, signed.message, tables, charge, exec, s);
  }
}
