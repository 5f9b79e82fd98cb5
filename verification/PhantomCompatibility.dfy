/**
  The acceptance decision of chains/solana/transactions/phantom.ts, and a declarative
  account of the rewrites it lets through.
*/
module PhantomCompatibility {
  import opened Wrappers
  import opened Sequences
  import opened Phantom

  // ---------------------------------------------------------------- the decision

  function NewKeys(prepared: seq<Key>, returned: seq<Key>): seq<Key> {
    if returned == [] then []
    else if returned[0] in prepared then NewKeys(prepared, returned[1..])
    else [returned[0]] + NewKeys(prepared, returned[1..])
  }

  function IndexOf(keys: seq<Key>, key: Key): (i: nat)
    requires key in keys
    ensures i < |keys| && keys[i] == key && key !in keys[..i]
  {
    if keys[0] == key then 0 else 1 + IndexOf(keys[1..], key)
  }

  predicate HasLighthouse(prepared: Message, returned: Message) {
    NewKeys(prepared.keys, returned.keys) == [LIGHTHOUSE]
  }

  predicate PrivilegesKept(prepared: Message, returned: Message)
    requires Elements(prepared.keys) <= Elements(returned.keys)
  {
    forall key | key in prepared.keys ::
      assert key in Elements(prepared.keys);
      StaticPrivilege(prepared, IndexOf(prepared.keys, key)) == StaticPrivilege(returned, IndexOf(returned.keys, key))
  }

  function NamedKind(n: NamedInstruction): Option<ComputeKind> {
    if n.program != COMPUTE_BUDGET || n.accounts != [] then None
    else if |n.data| == 5 && n.data[0] == 2 then Some(Limit)
    else if |n.data| == 9 && n.data[0] == 3 then Some(Price)
    else Some(Unsupported)
  }

  function KindOf(m: Message, ins: Instruction): Option<ComputeKind> {
    match Name(m, ins)
    case None => None
    case Some(n) => NamedKind(n)
  }

  function ComputeInstructions(m: Message, instructions: seq<Instruction>): seq<Instruction> {
    if instructions == [] then []
    else if KindOf(m, instructions[0]).Some? then [instructions[0]] + ComputeInstructions(m, instructions[1..])
    else ComputeInstructions(m, instructions[1..])
  }

  /** The source's map from kind to instruction: a later entry overwrites an earlier one. */
  function ByKind(m: Message, compute: seq<Instruction>, kind: ComputeKind): Option<Instruction> {
    if compute == [] then None
    else if KindOf(m, compute[|compute| - 1]) == Some(kind) then Some(compute[|compute| - 1])
    else ByKind(m, compute[..|compute| - 1], kind)
  }

  predicate SameOfKind(prepared: Message, before: seq<Instruction>, returned: Message, after: seq<Instruction>,
                       kind: ComputeKind)
  {
    var x, y := ByKind(prepared, before, kind), ByKind(returned, after, kind);
    x.Some? && y.Some? && SameInstruction(prepared, x.value, returned, y.value)
  }

  predicate ComputePrefix(m: Message) {
    forall i | 0 <= i < |m.instructions| && i < 2 :: KindOf(m, m.instructions[i]).Some?
  }

  function DropTwo(s: seq<Instruction>): seq<Instruction> {
    if |s| <= 2 then [] else s[2..]
  }

  function AssertionAccountCount(discriminator: Byte): Option<nat> {
    if discriminator == 4 then Some(2)
    else if discriminator == 15 then Some(0)
    else if discriminator == 16 then Some(3)
    else if 2 <= discriminator <= 17 then Some(1)
    else None
  }

  predicate SupportedAssertion(n: NamedInstruction, preparedKeys: set<Key>) {
    && n.program == LIGHTHOUSE
    && n.data != []
    && AssertionAccountCount(n.data[0]) == Some(|n.accounts|)
    && 3 <= |n.data| <= MAX_LIGHTHOUSE_DATA_BYTES
    && forall i | 0 <= i < |n.accounts| :: n.accounts[i].Loaded? || n.accounts[i].key in preparedKeys
  }

  predicate AssertionIsSupported(m: Message, ins: Instruction, preparedKeys: set<Key>) {
    Name(m, ins).Some? && SupportedAssertion(Name(m, ins).value, preparedKeys)
  }

  function Validate(prepared: Message, returned: Message): Compatibility {
    if prepared == returned then Accepted(false)
    else if prepared.version != V0 || returned.version != V0 then Rejected("transaction_version_changed")
    else if prepared.blockhash != returned.blockhash then Rejected("blockhash_changed")
    else if prepared.lookups != returned.lookups then Rejected("lookup_tables_changed")
    else ValidateKeys(prepared, returned)
  }

  function ValidateKeys(prepared: Message, returned: Message): Compatibility {
    var hasLighthouse := HasLighthouse(prepared, returned);
    if NewKeys(prepared.keys, returned.keys) != [] && !hasLighthouse then Rejected("unsupported_static_key_change")
    else if || |returned.keys| != |prepared.keys| + (if hasLighthouse then 1 else 0)
            || |Elements(returned.keys)| != |returned.keys|
            || !(Elements(prepared.keys) <= Elements(returned.keys)) then Rejected("static_key_layout_changed")
    else if !PrivilegesKept(prepared, returned) then Rejected("account_privilege_changed")
    else if hasLighthouse && LIGHTHOUSE in returned.keys
         && StaticPrivilege(returned, IndexOf(returned.keys, LIGHTHOUSE)) != Privilege(false, false) then
      Rejected("lighthouse_privilege_invalid")
    else ValidateCompute(prepared, returned)
  }

  function ValidateCompute(prepared: Message, returned: Message): Compatibility {
    var before := ComputeInstructions(prepared, prepared.instructions);
    var after := ComputeInstructions(returned, returned.instructions);
    if |before| != 2 || |after| != 2 then Rejected("compute_instruction_count_changed")
    else if || (exists i | 0 <= i < 2 :: KindOf(prepared, before[i]) == Some(Unsupported))
            || (exists i | 0 <= i < 2 :: KindOf(returned, after[i]) == Some(Unsupported)) then
      Rejected("unsupported_compute_instruction")
    else if !ComputePrefix(prepared) || !ComputePrefix(returned) then Rejected("compute_prefix_changed")
    else if !SameOfKind(prepared, before, returned, after, Limit)
        || !SameOfKind(prepared, before, returned, after, Price) then
      Rejected("compute_value_changed")
    else if KindOf(returned, after[0]) != Some(Limit) || KindOf(returned, after[1]) != Some(Price) then
      Rejected("unsupported_compute_order")
    else ValidateEconomics(prepared, returned)
  }

  function ValidateEconomics(prepared: Message, returned: Message): Compatibility {
    var economics := DropTwo(prepared.instructions);
    var tail := DropTwo(returned.instructions);
    if || |tail| < |economics|
       || !(forall i | 0 <= i < |economics| :: SameInstruction(prepared, economics[i], returned, tail[i])) then
      Rejected("economic_instruction_changed")
    else
      var assertions := tail[|economics|..];
      var hasLighthouse := HasLighthouse(prepared, returned);
      if !hasLighthouse && assertions == [] then Accepted(true)
      else if !hasLighthouse then Rejected("lighthouse_program_missing")
      else if |assertions| < 1 || |assertions| > MAX_LIGHTHOUSE_ASSERTIONS then Rejected("lighthouse_count_invalid")
      else if !(forall i | 0 <= i < |assertions| ::
                AssertionIsSupported(returned, assertions[i], Elements(prepared.keys))) then
        Rejected("lighthouse_assertion_invalid")
      else Accepted(true)
  }

  // ---------------------------------------------------------------- what acceptance says

  function AddedKeys(prepared: Message, returned: Message): set<Key> {
    if LIGHTHOUSE in returned.keys && LIGHTHOUSE !in prepared.keys then {LIGHTHOUSE} else {}
  }

  /** Static keys: a permutation, plus at most the Lighthouse program as a readonly non-signer. */
  ghost predicate KeysRewritten(p: Message, r: Message) {
    && Distinct(p.keys)
    && Distinct(r.keys)
    && Elements(r.keys) == Elements(p.keys) + AddedKeys(p, r)
    && (forall i, j | 0 <= i < |p.keys| && 0 <= j < |r.keys| && p.keys[i] == r.keys[j] ::
          StaticPrivilege(p, i) == StaticPrivilege(r, j))
    && (forall j | 0 <= j < |r.keys| && r.keys[j] in AddedKeys(p, r) ::
        StaticPrivilege(r, j) == Privilege(false, false))
  }

  /** An instruction for the compute-budget program, which names no accounts. */
  predicate IsSetting(m: Message, ins: Instruction) {
    && ins.program < |m.keys| && m.keys[ins.program] == "ComputeBudget111111111111111111111111111111"
    && ins.accounts == []
  }

  /** `SetComputeUnitLimit`: its tag and four bytes. */
  predicate SetsLimit(m: Message, ins: Instruction) {
    IsSetting(m, ins) && |ins.data| == 5 && ins.data[0] == 2
  }

  /** `SetComputeUnitPrice`: its tag and eight bytes. */
  predicate SetsPrice(m: Message, ins: Instruction) {
    IsSetting(m, ins) && |ins.data| == 9 && ins.data[0] == 3
  }

  function LoadedCount(lookups: seq<Lookup>): nat {
    if lookups == [] then 0 else |lookups[0].writable| + |lookups[0].readonly| + LoadedCount(lookups[1..])
  }

  /** A position that stands for a known static key or for an account loaded from a table. */
  predicate NamesKnown(m: Message, index: nat, known: set<Key>) {
    if index < |m.keys| then m.keys[index] in known else index < |m.keys| + LoadedCount(m.lookups)
  }

  /**
    A Lighthouse assertion, which can only abort the transaction: discriminators 2 to 17, each with its number of
    accounts. Discriminators 0 and 1 write and close Lighthouse memory.
  */
  predicate IsGuard(m: Message, ins: Instruction, known: set<Key>) {
    && ins.program < |m.keys| && m.keys[ins.program] == "L2TExMFKdjpN9kozasaurPirfHy9P8sbXoAN1qA3S95"
    && 3 <= |ins.data| <= 256
    && 2 <= ins.data[0] <= 17
    && |ins.accounts| == (if ins.data[0] == 4 then 2 else if ins.data[0] == 15 then 0 else if ins.data[0] == 16 then 3
                          else 1)
    && forall i | 0 <= i < |ins.accounts| :: NamesKnown(m, ins.accounts[i], known)
  }

  /** Two compute-budget settings come first, keep their values, and end in the order limit, price. */
  ghost predicate ComputeRewritten(p: Message, r: Message) {
    && |p.instructions| >= 2
    && |r.instructions| >= 2
    && SetsLimit(r, r.instructions[0])
    && SetsPrice(r, r.instructions[1])
    && (|| (SameInstruction(p, p.instructions[0], r, r.instructions[0])
            && SameInstruction(p, p.instructions[1], r, r.instructions[1]))
        || (SameInstruction(p, p.instructions[1], r, r.instructions[0])
            && SameInstruction(p, p.instructions[0], r, r.instructions[1])))
    && (forall i | 2 <= i < |p.instructions| :: !IsSetting(p, p.instructions[i]))
    && (forall i | 2 <= i < |r.instructions| :: !IsSetting(r, r.instructions[i]))
  }

  /** Every further instruction is kept in place; one to four Lighthouse assertions may follow. */
  ghost predicate EconomicsKept(p: Message, r: Message) {
    && 2 <= |p.instructions| <= |r.instructions|
    && (forall i | 2 <= i < |p.instructions| :: SameInstruction(p, p.instructions[i], r, r.instructions[i]))
    && (forall i | |p.instructions| <= i < |r.instructions| :: IsGuard(r, r.instructions[i], Elements(p.keys)))
    && (if AddedKeys(p, r) == {} then |r.instructions| == |p.instructions|
        else 1 <= |r.instructions| - |p.instructions| <= 4)
  }

  ghost predicate Rewritten(p: Message, r: Message) {
    && p.version == V0 && r.version == V0
    && p.blockhash == r.blockhash
    && p.lookups == r.lookups
    && KeysRewritten(p, r)
    && ComputeRewritten(p, r)
    && EconomicsKept(p, r)
  }

  // ---------------------------------------------------------------- keys: distinctness by counting

  lemma {:induction false} NewKeysMembers(prepared: seq<Key>, returned: seq<Key>)
    ensures forall k :: k in NewKeys(prepared, returned) <==> k in returned && k !in prepared
  {
    if returned != [] {
      NewKeysMembers(prepared, returned[1..]);
      assert returned == [returned[0]] + returned[1..];
    }
  }

  lemma {:induction false} NewKeysDistinct(prepared: seq<Key>, returned: seq<Key>)
    requires Distinct(returned)
    ensures Distinct(NewKeys(prepared, returned))
  {
    if returned != [] {
      NewKeysDistinct(prepared, returned[1..]);
      NewKeysMembers(prepared, returned[1..]);
      if returned[0] !in prepared {
        var rest := NewKeys(prepared, returned[1..]);
        assert forall j | 0 <= j < |rest| :: rest[j] in rest && rest[j] in returned[1..] && rest[j] != returned[0];
      }
    }
  }

  lemma IndexOfDistinct(keys: seq<Key>, i: nat)
    requires Distinct(keys) && i < |keys|
    ensures IndexOf(keys, keys[i]) == i
  {
  }

  /** The tests of ValidateKeys, as one condition. */
  predicate KeysPass(p: Message, r: Message) {
    && (NewKeys(p.keys, r.keys) == [] || HasLighthouse(p, r))
    && |r.keys| == |p.keys| + (if HasLighthouse(p, r) then 1 else 0)
    && |Elements(r.keys)| == |r.keys|
    && Elements(p.keys) <= Elements(r.keys)
    && PrivilegesKept(p, r)
    && (HasLighthouse(p, r) && LIGHTHOUSE in r.keys ==>
          StaticPrivilege(r, IndexOf(r.keys, LIGHTHOUSE)) == Privilege(false, false))
  }

  lemma AddedKeysAreNew(p: Message, r: Message)
    requires NewKeys(p.keys, r.keys) == [] || HasLighthouse(p, r)
    ensures Elements(p.keys) <= Elements(r.keys) ==> Elements(r.keys) == Elements(p.keys) + AddedKeys(p, r)
    ensures AddedKeys(p, r) == if HasLighthouse(p, r) then {LIGHTHOUSE} else {}
  {
    NewKeysMembers(p.keys, r.keys);
    if HasLighthouse(p, r) {
      assert LIGHTHOUSE in NewKeys(p.keys, r.keys);
      assert forall k | k in NewKeys(p.keys, r.keys) :: k == LIGHTHOUSE;
    }
  }

  /** Counting alone shows that the prepared keys were distinct, which is never tested. */
  lemma PreparedKeysDistinct(p: Message, r: Message)
    requires KeysPass(p, r)
    ensures Distinct(p.keys) && Distinct(r.keys)
    ensures Elements(r.keys) == Elements(p.keys) + AddedKeys(p, r)
  {
    AddedKeysAreNew(p, r);
    ElementCount(r.keys);
    ElementCount(p.keys);
    assert AddedKeys(p, r) !! Elements(p.keys);
    assert |Elements(r.keys)| == |Elements(p.keys)| + |AddedKeys(p, r)|;
  }

  lemma PrivilegesByPosition(p: Message, r: Message)
    requires Distinct(p.keys) && Distinct(r.keys) && Elements(p.keys) <= Elements(r.keys)
    ensures PrivilegesKept(p, r) <==>
            forall i, j | 0 <= i < |p.keys| && 0 <= j < |r.keys| && p.keys[i] == r.keys[j] ::
                StaticPrivilege(p, i) == StaticPrivilege(r, j)
  {
    forall i | 0 <= i < |p.keys| ensures IndexOf(p.keys, p.keys[i]) == i {
      IndexOfDistinct(p.keys, i);
    }
    forall j | 0 <= j < |r.keys| ensures IndexOf(r.keys, r.keys[j]) == j {
      IndexOfDistinct(r.keys, j);
    }
    if PrivilegesKept(p, r) {
      forall i, j | 0 <= i < |p.keys| && 0 <= j < |r.keys| && p.keys[i] == r.keys[j]
        ensures StaticPrivilege(p, i) == StaticPrivilege(r, j)
      {
        assert p.keys[i] in p.keys;
      }
    } else {
      var key :| key in p.keys && key in Elements(p.keys)
        && StaticPrivilege(p, IndexOf(p.keys, key)) != StaticPrivilege(r, IndexOf(r.keys, key));
      assert p.keys[IndexOf(p.keys, key)] == r.keys[IndexOf(r.keys, key)];
    }
  }

  lemma KeysPassSound(p: Message, r: Message)
    requires KeysPass(p, r)
    ensures KeysRewritten(p, r)
  {
    PreparedKeysDistinct(p, r);
    PrivilegesByPosition(p, r);
    AddedKeysAreNew(p, r);
    forall j | 0 <= j < |r.keys| && r.keys[j] in AddedKeys(p, r)
      ensures StaticPrivilege(r, j) == Privilege(false, false)
    {
      IndexOfDistinct(r.keys, j);
    }
  }

  lemma NewKeysOf(p: Message, r: Message)
    requires Distinct(r.keys) && Elements(r.keys) == Elements(p.keys) + AddedKeys(p, r)
    ensures NewKeys(p.keys, r.keys) == if AddedKeys(p, r) == {} then [] else [LIGHTHOUSE]
  {
    var added := NewKeys(p.keys, r.keys);
    NewKeysMembers(p.keys, r.keys);
    NewKeysDistinct(p.keys, r.keys);
    forall i | 0 <= i < |added| ensures added[i] == LIGHTHOUSE && LIGHTHOUSE in AddedKeys(p, r) {
      assert added[i] in added;
      assert added[i] in Elements(r.keys) && added[i] !in Elements(p.keys);
      assert added[i] in AddedKeys(p, r);
    }
    ElementCount(added);
    if added == [] {
      assert Elements(added) == {};
    } else {
      assert added[0] == LIGHTHOUSE;
      assert Elements(added) == {LIGHTHOUSE};
    }
    if LIGHTHOUSE in AddedKeys(p, r) {
      assert LIGHTHOUSE in added;
    }
  }

  lemma KeysPassComplete(p: Message, r: Message)
    requires KeysRewritten(p, r)
    ensures KeysPass(p, r)
  {
    NewKeysOf(p, r);
    ElementCount(p.keys);
    ElementCount(r.keys);
    assert AddedKeys(p, r) !! Elements(p.keys);
    assert |Elements(r.keys)| == |Elements(p.keys)| + |AddedKeys(p, r)|;
    PrivilegesByPosition(p, r);
  }

  // ---------------------------------------------------------------- compute prefix

  lemma {:induction false} ComputeInstructionsEmpty(m: Message, s: seq<Instruction>)
    ensures ComputeInstructions(m, s) == [] <==> forall i | 0 <= i < |s| :: KindOf(m, s[i]).None?
  {
    if s != [] {
      ComputeInstructionsEmpty(m, s[1..]);
      assert forall i | 1 <= i < |s| :: s[i] == s[1..][i - 1];
      assert forall i | 0 <= i < |s| - 1 :: s[1..][i] == s[i + 1];
    }
  }

  /** Two compute instructions, both in front: exactly the first two, and no other. */
  lemma ComputeInstructionsPair(m: Message)
    ensures |ComputeInstructions(m, m.instructions)| == 2 && ComputePrefix(m) <==>
            && |m.instructions| >= 2
            && KindOf(m, m.instructions[0]).Some?
            && KindOf(m, m.instructions[1]).Some?
            && forall i | 2 <= i < |m.instructions| :: KindOf(m, m.instructions[i]).None?
    ensures |ComputeInstructions(m, m.instructions)| == 2 && ComputePrefix(m) ==>
            ComputeInstructions(m, m.instructions) == m.instructions[..2]
  {
    var s := m.instructions;
    if |s| >= 2 && KindOf(m, s[0]).Some? && KindOf(m, s[1]).Some? {
      assert s[1..][0] == s[1] && s[1..][1..] == s[2..];
      assert ComputeInstructions(m, s) == [s[0]] + ([s[1]] + ComputeInstructions(m, s[2..]));
      ComputeInstructionsEmpty(m, s[2..]);
      assert forall i | 2 <= i < |s| :: s[i] == s[2..][i - 2];
      assert forall i | 0 <= i < |s| - 2 :: s[2..][i] == s[i + 2];
      assert s[..2] == [s[0], s[1]];
    } else {
      ComputeInstructionsBound(m, s);
      assert |s| >= 2 ==> KindOf(m, s[0]).None? || KindOf(m, s[1]).None?;
    }
  }

  lemma {:induction false} ComputeInstructionsBound(m: Message, s: seq<Instruction>)
    ensures |ComputeInstructions(m, s)| <= |s|
  {
    if s != [] {
      ComputeInstructionsBound(m, s[1..]);
    }
  }

  lemma ByKindOfPair(m: Message, s: seq<Instruction>, kind: ComputeKind)
    requires |s| == 2
    ensures ByKind(m, s, kind) ==
            if KindOf(m, s[1]) == Some(kind) then Some(s[1])
            else if KindOf(m, s[0]) == Some(kind) then Some(s[0]) else None
  {
    var first := s[..1];
    assert first[0] == s[0] && first[..0] == [];
    assert ByKind(m, first, kind) == if KindOf(m, s[0]) == Some(kind) then Some(s[0]) else None;
    assert ByKind(m, s, kind) == if KindOf(m, s[1]) == Some(kind) then Some(s[1]) else ByKind(m, first, kind);
  }

  lemma SameKind(p: Message, a: Instruction, r: Message, b: Instruction)
    requires SameInstruction(p, a, r, b)
    ensures KindOf(p, a) == KindOf(r, b)
  {
  }

  /** The kind the source computes says which setting an instruction makes. */
  lemma KindsAreSettings(m: Message, ins: Instruction)
    ensures KindOf(m, ins).Some? <==> IsSetting(m, ins)
    ensures KindOf(m, ins) == Some(Limit) <==> SetsLimit(m, ins)
    ensures KindOf(m, ins) == Some(Price) <==> SetsPrice(m, ins)
  {
    if ins.program < |m.keys| && ins.accounts == [] {
      assert Name(m, ins).value.accounts == [];
    }
    if Name(m, ins).Some? && Name(m, ins).value.accounts == [] {
      assert |ins.accounts| == 0;
    }
  }

  lemma {:induction false} LoadedCounts(lookups: seq<Lookup>)
    ensures |LoadedAccounts(lookups, true)| + |LoadedAccounts(lookups, false)| == LoadedCount(lookups)
  {
    if lookups != [] {
      LoadedCounts(lookups[1..]);
    }
  }

  lemma {:induction false} AllLoaded(lookups: seq<Lookup>, writable: bool)
    ensures forall i | 0 <= i < |LoadedAccounts(lookups, writable)| :: LoadedAccounts(lookups, writable)[i].Loaded?
  {
    if lookups != [] {
      AllLoaded(lookups[1..], writable);
    }
  }

  /** What the identity of a position says about it. */
  lemma IdentityKnown(m: Message, index: nat, known: set<Key>)
    ensures NamesKnown(m, index, known) <==>
            && AccountIdentity(m, index).Some?
            && (AccountIdentity(m, index).value.Loaded? || AccountIdentity(m, index).value.key in known)
  {
    LoadedCounts(m.lookups);
    AllLoaded(m.lookups, true);
    AllLoaded(m.lookups, false);
  }

  /** The assertions the source supports are exactly the guards. */
  lemma SupportedAreGuards(m: Message, ins: Instruction, known: set<Key>)
    ensures AssertionIsSupported(m, ins, known) <==> IsGuard(m, ins, known)
  {
    forall i | 0 <= i < |ins.accounts|
      ensures NamesKnown(m, ins.accounts[i], known) <==>
              && AccountIdentity(m, ins.accounts[i]).Some?
              && (AccountIdentity(m, ins.accounts[i]).value.Loaded?
                  || AccountIdentity(m, ins.accounts[i]).value.key in known)
    {
      IdentityKnown(m, ins.accounts[i], known);
    }
    if Name(m, ins).Some? {
      var n := Name(m, ins).value;
      assert |n.accounts| == |ins.accounts|;
      assert forall i | 0 <= i < |ins.accounts| :: n.accounts[i] == AccountIdentity(m, ins.accounts[i]).value;
    }
  }

  /** The tests of ValidateCompute, as one condition. */
  predicate ComputePass(p: Message, r: Message) {
    var before, after := ComputeInstructions(p, p.instructions), ComputeInstructions(r, r.instructions);
    && |before| == 2 && |after| == 2
    && !(exists i | 0 <= i < 2 :: KindOf(p, before[i]) == Some(Unsupported))
    && !(exists i | 0 <= i < 2 :: KindOf(r, after[i]) == Some(Unsupported))
    && ComputePrefix(p) && ComputePrefix(r)
    && SameOfKind(p, before, r, after, Limit)
    && SameOfKind(p, before, r, after, Price)
    && KindOf(r, after[0]) == Some(Limit) && KindOf(r, after[1]) == Some(Price)
  }

  lemma ComputePassExact(p: Message, r: Message)
    ensures ComputePass(p, r) <==> ComputeRewritten(p, r)
  {
    ComputeInstructionsPair(p);
    ComputeInstructionsPair(r);
    forall i | 0 <= i < |p.instructions|
      ensures KindOf(p, p.instructions[i]).Some? <==> IsSetting(p, p.instructions[i])
    {
      KindsAreSettings(p, p.instructions[i]);
    }
    forall i | 0 <= i < |r.instructions|
      ensures KindOf(r, r.instructions[i]).Some? <==> IsSetting(r, r.instructions[i])
    {
      KindsAreSettings(r, r.instructions[i]);
    }
    if |r.instructions| >= 2 {
      KindsAreSettings(r, r.instructions[0]);
      KindsAreSettings(r, r.instructions[1]);
    }
    if ComputePass(p, r) {
      var before, after := p.instructions[..2], r.instructions[..2];
      ByKindOfPair(p, before, Limit);
      ByKindOfPair(p, before, Price);
      ByKindOfPair(r, after, Limit);
      ByKindOfPair(r, after, Price);
    }
    if ComputeRewritten(p, r) {
      var a, b := p.instructions[0], p.instructions[1];
      assert || (KindOf(p, a) == Some(Limit) && KindOf(p, b) == Some(Price))
             || (KindOf(p, b) == Some(Limit) && KindOf(p, a) == Some(Price));
      var before, after := p.instructions[..2], r.instructions[..2];
      ByKindOfPair(p, before, Limit);
      ByKindOfPair(p, before, Price);
      ByKindOfPair(r, after, Limit);
      ByKindOfPair(r, after, Price);
      assert before[0] == a && before[1] == b;
    }
  }

  // ---------------------------------------------------------------- the exact decision

  lemma EconomicsShift(p: Message, r: Message)
    requires 2 <= |p.instructions| <= |r.instructions|
    ensures var economics, tail := DropTwo(p.instructions), DropTwo(r.instructions);
            && |economics| == |p.instructions| - 2 && |tail| == |r.instructions| - 2
            && ((forall i | 0 <= i < |economics| :: SameInstruction(p, economics[i], r, tail[i])) <==>
                (forall i | 2 <= i < |p.instructions| :: SameInstruction(p, p.instructions[i], r, r.instructions[i])))
  {
    var economics, tail := DropTwo(p.instructions), DropTwo(r.instructions);
    assert forall i | 2 <= i < |p.instructions| ::
        economics[i - 2] == p.instructions[i] && tail[i - 2] == r.instructions[i];
  }

  lemma AssertionsShift(r: Message, n: nat, known: set<Key>)
    requires 2 <= n <= |r.instructions|
    ensures var assertions := DropTwo(r.instructions)[n - 2..];
            && |assertions| == |r.instructions| - n
            && ((forall i | 0 <= i < |assertions| :: AssertionIsSupported(r, assertions[i], known)) <==>
                (forall i | n <= i < |r.instructions| :: IsGuard(r, r.instructions[i], known)))
  {
    var assertions := DropTwo(r.instructions)[n - 2..];
    forall i | n <= i < |r.instructions|
      ensures AssertionIsSupported(r, r.instructions[i], known) <==> IsGuard(r, r.instructions[i], known)
    {
      SupportedAreGuards(r, r.instructions[i], known);
    }
    assert forall i | n <= i < |r.instructions| :: assertions[i - n] == r.instructions[i];
  }

  lemma ValidateEconomicsExact(p: Message, r: Message)
    requires KeysRewritten(p, r) && |p.instructions| >= 2 && |r.instructions| >= 2
    ensures ValidateEconomics(p, r).Accepted? <==> EconomicsKept(p, r)
  {
    NewKeysOf(p, r);
    if |p.instructions| <= |r.instructions| {
      EconomicsShift(p, r);
      AssertionsShift(r, |p.instructions|, Elements(p.keys));
    }
  }

  lemma KeysStage(p: Message, r: Message)
    ensures ValidateKeys(p, r) == ValidateCompute(p, r) || ValidateKeys(p, r).Rejected?
    ensures KeysPass(p, r) ==> ValidateKeys(p, r) == ValidateCompute(p, r)
    ensures ValidateKeys(p, r).Accepted? ==> KeysPass(p, r)
  {
  }

  lemma ComputeStage(p: Message, r: Message)
    ensures ComputePass(p, r) ==> ValidateCompute(p, r) == ValidateEconomics(p, r)
    ensures ValidateCompute(p, r).Accepted? ==> ComputePass(p, r)
  {
  }

  lemma AcceptedAugmented(p: Message, r: Message)
    ensures ValidateKeys(p, r).Accepted? ==> ValidateKeys(p, r) == Accepted(true)
  {
    assert ValidateEconomics(p, r).Accepted? ==> ValidateEconomics(p, r) == Accepted(true);
    assert ValidateCompute(p, r).Accepted? ==> ValidateCompute(p, r) == ValidateEconomics(p, r);
  }

  lemma ValidateKeysExact(p: Message, r: Message)
    ensures ValidateKeys(p, r).Accepted? <==> KeysRewritten(p, r) && ComputeRewritten(p, r) && EconomicsKept(p, r)
  {
    KeysStage(p, r);
    ComputeStage(p, r);
    ComputePassExact(p, r);
    if KeysPass(p, r) {
      KeysPassSound(p, r);
    }
    if KeysRewritten(p, r) {
      KeysPassComplete(p, r);
      if ComputeRewritten(p, r) {
        ValidateEconomicsExact(p, r);
      }
    }
  }

  /** A returned message is accepted exactly when it is the prepared one or one of the described rewrites. */
  lemma ValidateExact(p: Message, r: Message)
    ensures Validate(p, r).Accepted? <==> p == r || Rewritten(p, r)
    ensures Validate(p, r).Accepted? ==> Validate(p, r).augmented == (p != r)
  {
    ValidateKeysExact(p, r);
    AcceptedAugmented(p, r);
  }

  /** The reasons for refusing a change of the static keys, of the settings, and of what follows them. */
  predicate IsKeyReason(reason: string) {
    || reason == "unsupported_static_key_change" || reason == "static_key_layout_changed"
    || reason == "account_privilege_changed" || reason == "lighthouse_privilege_invalid"
  }

  predicate IsComputeReason(reason: string) {
    || reason == "compute_instruction_count_changed" || reason == "unsupported_compute_instruction"
    || reason == "compute_prefix_changed" || reason == "compute_value_changed"
    || reason == "unsupported_compute_order"
  }

  predicate IsEconomicReason(reason: string) {
    || reason == "economic_instruction_changed" || reason == "lighthouse_program_missing"
    || reason == "lighthouse_count_invalid" || reason == "lighthouse_assertion_invalid"
  }

  lemma KeysRefusal(p: Message, r: Message)
    requires !KeysPass(p, r)
    ensures ValidateKeys(p, r).Rejected? && IsKeyReason(ValidateKeys(p, r).reason)
  {
  }

  lemma ComputeRefusal(p: Message, r: Message)
    requires !ComputePass(p, r)
    ensures ValidateCompute(p, r).Rejected? && IsComputeReason(ValidateCompute(p, r).reason)
  {
  }

  lemma EconomicsRefusal(p: Message, r: Message)
    requires ValidateEconomics(p, r).Rejected?
    ensures IsEconomicReason(ValidateEconomics(p, r).reason)
  {
  }

  lemma KeysPassExact(p: Message, r: Message)
    ensures KeysPass(p, r) <==> KeysRewritten(p, r)
  {
    if KeysPass(p, r) {
      KeysPassSound(p, r);
    }
    if KeysRewritten(p, r) {
      KeysPassComplete(p, r);
    }
  }

  /**
    Why a message is refused: the version, the blockhash and the tables are compared first, then the keys, then
    the settings, then the rest, and the reason belongs to the first of these that is not a described rewrite.
  */
  lemma RefusedFor(p: Message, r: Message)
    requires Validate(p, r).Rejected?
    ensures var reason := Validate(p, r).reason;
      if p.version != V0 || r.version != V0 then reason == "transaction_version_changed"
      else if p.blockhash != r.blockhash then reason == "blockhash_changed"
      else if p.lookups != r.lookups then reason == "lookup_tables_changed"
      else if !KeysRewritten(p, r) then IsKeyReason(reason)
      else if !ComputeRewritten(p, r) then IsComputeReason(reason)
      else !EconomicsKept(p, r) && IsEconomicReason(reason)
  {
    KeysPassExact(p, r);
    ComputePassExact(p, r);
    ValidateExact(p, r);
    if !KeysPass(p, r) {
      KeysRefusal(p, r);
    } else {
      KeysStage(p, r);
      if !ComputePass(p, r) {
        ComputeRefusal(p, r);
      } else {
        ComputeStage(p, r);
        if ValidateEconomics(p, r).Rejected? {
          EconomicsRefusal(p, r);
        }
      }
    }
  }
}
