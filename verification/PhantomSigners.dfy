/**
  Message headers under accepted rewrites, and the signer checks that chains/solana/transactions/clean.ts
  layers on the compatibility check.
*/
module PhantomSigners {
  import opened Wrappers
  import opened Sequences
  import opened Phantom
  import opened PhantomCompatibility

  predicate WellFormedHeader(m: Message) {
    && m.header.readonlySigned <= m.header.signatures
    && m.header.signatures + m.header.readonlyUnsigned <= |m.keys|
  }

  function Signers(m: Message): set<Key>
    requires WellFormedHeader(m)
  {
    Elements(m.keys[..m.header.signatures])
  }

  function WritableSigners(m: Message): set<Key>
    requires WellFormedHeader(m)
  {
    Elements(m.keys[..m.header.signatures - m.header.readonlySigned])
  }

  function ReadonlyUnsigned(m: Message): set<Key>
    requires WellFormedHeader(m)
  {
    Elements(m.keys[|m.keys| - m.header.readonlyUnsigned..])
  }

  lemma RangeSize(keys: seq<Key>, lo: nat, hi: nat)
    requires Distinct(keys) && lo <= hi <= |keys|
    ensures |Elements(keys[lo..hi])| == hi - lo
  {
    assert Distinct(keys[lo..hi]);
    ElementCount(keys[lo..hi]);
  }

  lemma InRange(m: Message, i: nat, lo: nat, hi: nat)
    requires Distinct(m.keys) && lo <= hi <= |m.keys| && i < |m.keys|
    ensures m.keys[i] in Elements(m.keys[lo..hi]) <==> lo <= i < hi
  {
    if lo <= i < hi {
      assert m.keys[lo..hi][i - lo] == m.keys[i];
    }
  }

  /** The three privilege classes, position by position. */
  lemma PrivilegeClasses(m: Message, i: nat)
    requires WellFormedHeader(m) && Distinct(m.keys) && i < |m.keys|
    ensures m.keys[i] in Signers(m) <==> StaticPrivilege(m, i).signer
    ensures m.keys[i] in WritableSigners(m) <==> StaticPrivilege(m, i) == Privilege(true, true)
    ensures m.keys[i] in ReadonlyUnsigned(m) <==> StaticPrivilege(m, i) == Privilege(false, false)
  {
    InRange(m, i, 0, m.header.signatures);
    InRange(m, i, 0, m.header.signatures - m.header.readonlySigned);
    InRange(m, i, |m.keys| - m.header.readonlyUnsigned, |m.keys|);
  }

  /** A key of the prepared message stays in its classes. */
  lemma OldKeyClasses(p: Message, r: Message, k: Key)
    requires KeysRewritten(p, r) && WellFormedHeader(p) && WellFormedHeader(r) && k in Elements(p.keys)
    ensures k in Elements(r.keys)
    ensures k in Signers(p) <==> k in Signers(r)
    ensures k in WritableSigners(p) <==> k in WritableSigners(r)
    ensures k in ReadonlyUnsigned(p) <==> k in ReadonlyUnsigned(r)
  {
    var i :| 0 <= i < |p.keys| && p.keys[i] == k;
    var j :| 0 <= j < |r.keys| && r.keys[j] == k;
    PrivilegeClasses(p, i);
    PrivilegeClasses(r, j);
  }

  /** An added key signs nothing and is only read. */
  lemma NewKeyClasses(p: Message, r: Message, k: Key)
    requires KeysRewritten(p, r) && WellFormedHeader(r) && k in Elements(r.keys) && k in AddedKeys(p, r)
    ensures k !in Signers(r) && k !in WritableSigners(r) && k in ReadonlyUnsigned(r)
  {
    var j :| 0 <= j < |r.keys| && r.keys[j] == k;
    PrivilegeClasses(r, j);
  }

  lemma ClassesKept(p: Message, r: Message)
    requires KeysRewritten(p, r) && WellFormedHeader(p) && WellFormedHeader(r)
    ensures Signers(r) == Signers(p)
    ensures WritableSigners(r) == WritableSigners(p)
    ensures ReadonlyUnsigned(r) == ReadonlyUnsigned(p) + AddedKeys(p, r)
  {
    Subsets(p);
    Subsets(r);
    forall k | k in Elements(p.keys)
      ensures k in Elements(r.keys) && k !in AddedKeys(p, r)
      ensures k in Signers(p) <==> k in Signers(r)
      ensures k in WritableSigners(p) <==> k in WritableSigners(r)
      ensures k in ReadonlyUnsigned(p) <==> k in ReadonlyUnsigned(r)
    {
      OldKeyClasses(p, r, k);
    }
    forall k | k in AddedKeys(p, r)
      ensures k !in Elements(p.keys) && k in Elements(r.keys)
      ensures k !in Signers(r) && k !in WritableSigners(r) && k in ReadonlyUnsigned(r)
    {
      NewKeyClasses(p, r, k);
    }
    assert forall k | k in Elements(r.keys) :: k in Elements(p.keys) || k in AddedKeys(p, r);
  }

  lemma Subsets(m: Message)
    requires WellFormedHeader(m)
    ensures Signers(m) <= Elements(m.keys)
    ensures WritableSigners(m) <= Elements(m.keys)
    ensures ReadonlyUnsigned(m) <= Elements(m.keys)
  {
  }

  lemma ClassSizes(m: Message)
    requires WellFormedHeader(m) && Distinct(m.keys)
    ensures |Signers(m)| == m.header.signatures
    ensures |WritableSigners(m)| == m.header.signatures - m.header.readonlySigned
    ensures |ReadonlyUnsigned(m)| == m.header.readonlyUnsigned
    ensures |Elements(m.keys)| == |m.keys|
  {
    RangeSize(m.keys, 0, m.header.signatures);
    RangeSize(m.keys, 0, m.header.signatures - m.header.readonlySigned);
    RangeSize(m.keys, |m.keys| - m.header.readonlyUnsigned, |m.keys|);
    assert m.keys[|m.keys| - m.header.readonlyUnsigned..|m.keys|] == m.keys[|m.keys| - m.header.readonlyUnsigned..];
    ElementCount(m.keys);
  }

  lemma DisjointUnionSize(a: set<Key>, b: set<Key>)
    requires a !! b
    ensures |a + b| == |a| + |b|
  {
  }

  lemma RewrittenCounts(p: Message, r: Message)
    requires KeysRewritten(p, r) && WellFormedHeader(p) && WellFormedHeader(r)
    ensures r.header.signatures == p.header.signatures
    ensures r.header.readonlySigned == p.header.readonlySigned
    ensures r.header.readonlyUnsigned == p.header.readonlyUnsigned + |AddedKeys(p, r)|
    ensures |r.keys| == |p.keys| + |AddedKeys(p, r)|
  {
    ClassSizes(p);
    ClassSizes(r);
    ClassesKept(p, r);
    Subsets(p);
    assert AddedKeys(p, r) !! Elements(p.keys);
    DisjointUnionSize(ReadonlyUnsigned(p), AddedKeys(p, r));
    DisjointUnionSize(Elements(p.keys), AddedKeys(p, r));
  }

  /** Both signed counts are kept; the readonly unsigned count grows by one exactly when Lighthouse is added. */
  lemma HeaderCounts(p: Message, r: Message)
    requires Validate(p, r).Accepted? && WellFormedHeader(p) && WellFormedHeader(r)
    ensures r.header.signatures == p.header.signatures
    ensures r.header.readonlySigned == p.header.readonlySigned
    ensures r.header.readonlyUnsigned == p.header.readonlyUnsigned + |AddedKeys(p, r)|
    ensures |r.keys| == |p.keys| + |AddedKeys(p, r)|
  {
    ValidateExact(p, r);
    if p != r {
      RewrittenCounts(p, r);
    }
  }

  // ---------------------------------------------------------------- the signed message check

  datatype Preparation = Preparation(
    message: Message, blockhash: string, feePayer: Key, wallet: Key, allowedPrograms: set<Key>,
    lastValidBlockHeight: int)

  datatype SignedError = MessageMismatch | UserSignatureInvalid | QuoteExpired

  /** What the wallet returned: its message, and what signature verification said about it. */
  datatype Signed = Signed(message: Message, payerSignatureEmpty: bool, walletSignatureValid: bool)

  predicate ProgramsAllowed(prepared: Preparation, m: Message) {
    forall i | 0 <= i < |m.instructions| ::
      && m.instructions[i].program < |m.keys|
      && (m.keys[m.instructions[i].program] in prepared.allowedPrograms
          || m.keys[m.instructions[i].program] == LIGHTHOUSE)
  }

  function ValidateSignedClean(prepared: Preparation, signed: Signed, allowLookupTables: bool,
                               blockHeight: int): Result<Message, SignedError>
  {
    var m := signed.message;
    var signers := m.keys[..if m.header.signatures <= |m.keys| then m.header.signatures else |m.keys|];
    if || !Validate(prepared.message, m).Accepted?
       || m.version != V0
       || (!allowLookupTables && m.lookups != [])
       || m.blockhash != prepared.blockhash
       || m.header.signatures != 2
       || signers != [prepared.feePayer, prepared.wallet]
       || !ProgramsAllowed(prepared, m) then Err(MessageMismatch)
    else if !signed.payerSignatureEmpty || !signed.walletSignatureValid then Err(UserSignatureInvalid)
    else if blockHeight > prepared.lastValidBlockHeight then Err(QuoteExpired)
    else Ok(m)
  }

  predicate RunsAllowed(m: Message, ins: Instruction, allowed: set<Key>) {
    && ins.program < |m.keys|
    && (m.keys[ins.program] in allowed || m.keys[ins.program] == "L2TExMFKdjpN9kozasaurPirfHy9P8sbXoAN1qA3S95")
  }

  /** Every instruction is for an allowed program or for Lighthouse. */
  ghost predicate RunsOnlyAllowed(m: Message, allowed: set<Key>) {
    forall ins | ins in m.instructions :: RunsAllowed(m, ins, allowed)
  }

  /** The wallet's message passes every check that looks at the message alone. */
  ghost predicate MessagePasses(prepared: Preparation, m: Message, allowLookupTables: bool) {
    && (m == prepared.message || Rewritten(prepared.message, m))
    && m.version == V0 && (m.lookups == [] || allowLookupTables) && m.blockhash == prepared.blockhash
    && m.header.signatures == 2 && |m.keys| >= 2 && m.keys[0] == prepared.feePayer && m.keys[1] == prepared.wallet
    && RunsOnlyAllowed(m, prepared.allowedPrograms)
  }

  lemma FirstTwo(keys: seq<Key>, a: Key, b: Key)
    ensures keys[..if 2 <= |keys| then 2 else |keys|] == [a, b] <==> |keys| >= 2 && keys[0] == a && keys[1] == b
  {
    if |keys| >= 2 {
      assert keys[..2] == [keys[0], keys[1]];
    }
  }

  /**
    A signed message is let through exactly when the message passes, the payer's slot is still empty, the
    wallet's signature verifies and the lifetime has not ended. A message that does not pass is refused first,
    then a payer's signature or an invalid one of the wallet, then the height.
  */
  lemma SignedExactly(prepared: Preparation, signed: Signed, allowLookupTables: bool, blockHeight: int)
    ensures ValidateSignedClean(prepared, signed, allowLookupTables, blockHeight) ==
            if !MessagePasses(prepared, signed.message, allowLookupTables) then Err(MessageMismatch)
            else if signed.payerSignatureEmpty && signed.walletSignatureValid then
              if blockHeight <= prepared.lastValidBlockHeight then Ok(signed.message) else Err(QuoteExpired)
            else Err(UserSignatureInvalid)
  {
    var m := signed.message;
    ValidateExact(prepared.message, m);
    FirstTwo(m.keys, prepared.feePayer, prepared.wallet);
    assert forall i | 0 <= i < |m.instructions| :: m.instructions[i] in m.instructions;
  }

  lemma SameRuns(p: Message, a: Instruction, r: Message, b: Instruction, allowed: set<Key>)
    requires SameInstruction(p, a, r, b)
    ensures RunsAllowed(p, a, allowed) <==> RunsAllowed(r, b, allowed)
  {
    assert Name(p, a).value.program == p.keys[a.program] && Name(r, b).value.program == r.keys[b.program];
  }

  lemma PrefixRuns(p: Message, r: Message, allowed: set<Key>)
    requires ComputeRewritten(p, r)
    ensures RunsAllowed(p, p.instructions[0], allowed) && RunsAllowed(p, p.instructions[1], allowed) <==>
            RunsAllowed(r, r.instructions[0], allowed) && RunsAllowed(r, r.instructions[1], allowed)
  {
    var a, b := p.instructions[0], p.instructions[1];
    if SameInstruction(p, a, r, r.instructions[0]) && SameInstruction(p, b, r, r.instructions[1]) {
      SameRuns(p, a, r, r.instructions[0], allowed);
      SameRuns(p, b, r, r.instructions[1], allowed);
    } else {
      SameRuns(p, b, r, r.instructions[0], allowed);
      SameRuns(p, a, r, r.instructions[1], allowed);
    }
  }

  lemma GuardRuns(m: Message, ins: Instruction, known: set<Key>, allowed: set<Key>)
    requires IsGuard(m, ins, known)
    ensures RunsAllowed(m, ins, allowed)
  {
  }

  lemma RunsByPosition(m: Message, allowed: set<Key>)
    ensures RunsOnlyAllowed(m, allowed) <==>
            forall i | 0 <= i < |m.instructions| :: RunsAllowed(m, m.instructions[i], allowed)
  {
    assert forall i | 0 <= i < |m.instructions| :: m.instructions[i] in m.instructions;
  }

  /** What the wallet added runs Lighthouse alone, and the rest runs what it ran. */
  lemma AllowedKept(p: Message, r: Message, allowed: set<Key>)
    requires ComputeRewritten(p, r) && EconomicsKept(p, r)
    ensures RunsOnlyAllowed(r, allowed) <==> RunsOnlyAllowed(p, allowed)
  {
    RunsByPosition(p, allowed);
    RunsByPosition(r, allowed);
    PrefixRuns(p, r, allowed);
    forall i | 2 <= i < |p.instructions|
      ensures RunsAllowed(p, p.instructions[i], allowed) <==> RunsAllowed(r, r.instructions[i], allowed)
    {
      SameRuns(p, p.instructions[i], r, r.instructions[i], allowed);
    }
    forall i | |p.instructions| <= i < |r.instructions|
      ensures RunsAllowed(r, r.instructions[i], allowed)
    {
      GuardRuns(r, r.instructions[i], Elements(p.keys), allowed);
    }
  }

  /**
    For a rewritten message almost every check falls back on the prepared one: what the wallet added cannot fail
    them, and only the order of the two signers is left to look at.
  */
  lemma RewrittenPassesExactly(prepared: Preparation, m: Message, allowLookupTables: bool)
    requires Rewritten(prepared.message, m) && WellFormedHeader(prepared.message) && WellFormedHeader(m)
    ensures MessagePasses(prepared, m, allowLookupTables) <==>
            && prepared.message.blockhash == prepared.blockhash
            && (prepared.message.lookups == [] || allowLookupTables)
            && prepared.message.header.signatures == 2
            && RunsOnlyAllowed(prepared.message, prepared.allowedPrograms)
            && |m.keys| >= 2 && m.keys[0] == prepared.feePayer && m.keys[1] == prepared.wallet
  {
    RewrittenCounts(prepared.message, m);
    AllowedKept(prepared.message, m, prepared.allowedPrograms);
  }

  lemma SignersKept(p: Message, r: Message)
    requires Validate(p, r).Accepted? && WellFormedHeader(p) && WellFormedHeader(r)
    ensures Signers(r) == Signers(p) && WritableSigners(r) == WritableSigners(p)
  {
    ValidateExact(p, r);
    if p != r {
      ClassesKept(p, r);
    }
  }

  lemma PairFromSet(keys: seq<Key>, a: Key, b: Key)
    requires |keys| == 2 && keys[0] == a && a != b && Elements(keys) == {a, b}
    ensures keys == [a, b]
  {
    assert b in Elements(keys);
  }

  /**
    A signed message that passes has the payer in slot 0 and the wallet in slot 1, and these were the
    prepared message's signers, with the same writable ones. When the payer also headed the prepared
    message, the two signer slots are untouched. Payer and wallet then differ, unless the prepared message
    itself repeats a key.
  */
  lemma SignersKeepSlots(prepared: Preparation, signed: Signed, allowLookupTables: bool, blockHeight: int)
    requires ValidateSignedClean(prepared, signed, allowLookupTables, blockHeight).Ok?
    requires WellFormedHeader(prepared.message) && WellFormedHeader(signed.message)
    ensures signed.message.keys[..2] == [prepared.feePayer, prepared.wallet]
    ensures prepared.message.header.signatures == 2
    ensures Signers(prepared.message) == {prepared.feePayer, prepared.wallet}
    ensures WritableSigners(prepared.message) == WritableSigners(signed.message)
    ensures Distinct(prepared.message.keys) ==> prepared.feePayer != prepared.wallet
    ensures prepared.feePayer != prepared.wallet && prepared.message.keys[0] == prepared.feePayer ==>
              prepared.message.keys[..2] == signed.message.keys[..2]
  {
    var p, r := prepared.message, signed.message;
    HeaderCounts(p, r);
    SignersKept(p, r);
    ValidateExact(p, r);
    assert r.keys[0] == r.keys[..2][0] && r.keys[1] == r.keys[..2][1];
    assert Elements([prepared.feePayer, prepared.wallet]) == {prepared.feePayer, prepared.wallet};
    if prepared.feePayer != prepared.wallet && p.keys[0] == prepared.feePayer {
      PairFromSet(p.keys[..2], prepared.feePayer, prepared.wallet);
    }
  }
}
