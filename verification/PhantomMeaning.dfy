/**
  What an accepted rewrite means: a message is run by resolving each instruction against the static
  keys and the lookup tables, and handing it to an arbitrary instruction semantics.
*/
module PhantomMeaning {
  import opened Wrappers
  import opened Sequences
  import opened Phantom
  import opened PhantomCompatibility

  /** On-chain contents of the lookup tables. */
  type Tables = map<Key, seq<Key>>

  datatype Account = Account(address: Key, signer: bool, writable: bool)

  datatype Call = Call(program: Key, accounts: seq<Account>, data: seq<Byte>)

  /** An instruction semantics: the next state, or None when the transaction aborts. */
  type Semantics<!S> = (Call, S) -> Option<S>

  /** The addresses a message loads from its tables, writable ones or readonly ones. */
  function LoadedAddresses(lookups: seq<Lookup>, tables: Tables, writable: bool): seq<Option<Key>> {
    if lookups == [] then []
    else
      var indexes := if writable then lookups[0].writable else lookups[0].readonly;
      seq(|indexes|, i requires 0 <= i < |indexes| => Entry(tables, lookups[0].table, indexes[i]))
      + LoadedAddresses(lookups[1..], tables, writable)
  }

  function Entry(tables: Tables, table: Key, index: nat): Option<Key> {
    if table in tables && index < |tables[table]| then Some(tables[table][index]) else None
  }

  function LoadedAccount(address: Option<Key>, writable: bool): Option<Account> {
    if address.Some? then Some(Account(address.value, false, writable)) else None
  }

  /** The runtime's accounts in their order: the static keys, all keys loaded writable, all keys loaded readonly. */
  function ResolveAccount(m: Message, tables: Tables, index: nat): Option<Account> {
    var writable, readonly := LoadedAddresses(m.lookups, tables, true), LoadedAddresses(m.lookups, tables, false);
    if index < |m.keys| then
      var privilege := StaticPrivilege(m, index);
      Some(Account(m.keys[index], privilege.signer, privilege.writable))
    else if index < |m.keys| + |writable| then LoadedAccount(writable[index - |m.keys|], true)
    else if index < |m.keys| + |writable| + |readonly| then
      LoadedAccount(readonly[index - |m.keys| - |writable|], false)
    else None
  }

  function Resolve(m: Message, tables: Tables, ins: Instruction): Option<Call> {
    if ins.program < |m.keys| && forall i | 0 <= i < |ins.accounts| ::
        ResolveAccount(m, tables, ins.accounts[i]).Some? then
      Some(Call(
             m.keys[ins.program],
             seq(|ins.accounts|,
                 i requires 0 <= i < |ins.accounts| => ResolveAccount(m, tables, ins.accounts[i]).value),
             ins.data))
    else
      None
  }

  function Step<S>(m: Message, tables: Tables, exec: Semantics<S>, ins: Instruction, s: S): Option<S> {
    match Resolve(m, tables, ins)
    case None => None
    case Some(call) => exec(call, s)
  }

  function Execute<S>(m: Message, tables: Tables, exec: Semantics<S>, instructions: seq<Instruction>, s: S): Option<S> {
    if instructions == [] then Some(s)
    else
      match Step(m, tables, exec, instructions[0], s)
      case None => None
      case Some(s') => Execute(m, tables, exec, instructions[1..], s')
  }

  function Run<S>(m: Message, tables: Tables, exec: Semantics<S>, s: S): Option<S> {
    Execute(m, tables, exec, m.instructions, s)
  }

  // ---------------------------------------------------------------- what is asked of the semantics

  predicate IsCompute(call: Call, length: nat, tag: Byte) {
    && call.program == "ComputeBudget111111111111111111111111111111" && call.accounts == []
    && |call.data| == length && call.data != [] && call.data[0] == tag
  }

  function Then<S>(exec: Semantics<S>, first: Call, second: Call, s: S): Option<S> {
    match exec(first, s)
    case None => None
    case Some(s') => exec(second, s')
  }

  /** The two compute-budget settings may be made in either order. */
  ghost predicate SettingsIndependent<S(!new)>(exec: Semantics<S>) {
    forall limit: Call, price: Call, s: S | IsCompute(limit, 5, 2) && IsCompute(price, 9, 3) ::
      Then(exec, limit, price, s) == Then(exec, price, limit, s)
  }

  /** A Lighthouse assertion, with discriminator 2 to 17, aborts or leaves the state alone; the others need not. */
  ghost predicate AssertionsOnlyGuard<S(!new)>(exec: Semantics<S>) {
    forall call: Call, s: S
      | && call.program == "L2TExMFKdjpN9kozasaurPirfHy9P8sbXoAN1qA3S95"
        && call.data != [] && 2 <= call.data[0] <= 17 ::
      exec(call, s) == None || exec(call, s) == Some(s)
  }

  // ---------------------------------------------------------------- meaning is kept

  /** The account an identity stands for. */
  function Meant(id: Identity, tables: Tables): Option<Account>
    requires id.Loaded?
  {
    LoadedAccount(Entry(tables, id.table, id.index), id.isWritable)
  }

  lemma {:induction false} AddressesOfIdentities(lookups: seq<Lookup>, tables: Tables, writable: bool)
    ensures |LoadedAddresses(lookups, tables, writable)| == |LoadedAccounts(lookups, writable)|
    ensures forall i | 0 <= i < |LoadedAccounts(lookups, writable)| ::
        && LoadedAccounts(lookups, writable)[i].Loaded?
        && LoadedAccount(LoadedAddresses(lookups, tables, writable)[i], writable)
           == Meant(LoadedAccounts(lookups, writable)[i], tables)
  {
    if lookups != [] {
      AddressesOfIdentities(lookups[1..], tables, writable);
    }
  }

  /** A position resolves to what its identity stands for. */
  lemma ResolvedByIdentity(m: Message, tables: Tables, index: nat)
    requires AccountIdentity(m, index).Some?
    ensures var id := AccountIdentity(m, index).value;
            if index < |m.keys| then id == Static(m.keys[index])
            else id.Loaded? && ResolveAccount(m, tables, index) == Meant(id, tables)
  {
    AddressesOfIdentities(m.lookups, tables, true);
    AddressesOfIdentities(m.lookups, tables, false);
  }

  lemma SameAccount(p: Message, r: Message, tables: Tables, i: nat, j: nat)
    requires KeysRewritten(p, r)
    requires AccountIdentity(p, i).Some? && AccountIdentity(p, i) == AccountIdentity(r, j)
    ensures ResolveAccount(p, tables, i) == ResolveAccount(r, tables, j)
  {
    ResolvedByIdentity(p, tables, i);
    ResolvedByIdentity(r, tables, j);
  }

  lemma SameCall(p: Message, a: Instruction, r: Message, b: Instruction, tables: Tables)
    requires KeysRewritten(p, r) && SameInstruction(p, a, r, b)
    ensures Resolve(p, tables, a) == Resolve(r, tables, b)
  {
    var x, y := Name(p, a).value, Name(r, b).value;
    assert |a.accounts| == |x.accounts| == |y.accounts| == |b.accounts|;
    forall i | 0 <= i < |a.accounts|
      ensures ResolveAccount(p, tables, a.accounts[i]) == ResolveAccount(r, tables, b.accounts[i])
    {
      assert x.accounts[i] == y.accounts[i];
      SameAccount(p, r, tables, a.accounts[i], b.accounts[i]);
    }
    if Resolve(p, tables, a).Some? && Resolve(r, tables, b).Some? {
      assert Resolve(p, tables, a).value.accounts == Resolve(r, tables, b).value.accounts;
    }
  }

  lemma {:induction false} SameExecution<S>(p: Message, xs: seq<Instruction>, r: Message, ys: seq<Instruction>,
                                            tables: Tables, exec: Semantics<S>, s: S)
    requires KeysRewritten(p, r) && |xs| == |ys|
    requires forall i | 0 <= i < |xs| :: SameInstruction(p, xs[i], r, ys[i])
    ensures Execute(p, tables, exec, xs, s) == Execute(r, tables, exec, ys, s)
  {
    if xs != [] {
      SameCall(p, xs[0], r, ys[0], tables);
      var next := Step(p, tables, exec, xs[0], s);
      if next.Some? {
        forall i | 0 <= i < |xs| - 1 ensures SameInstruction(p, xs[1..][i], r, ys[1..][i]) {
          assert xs[1..][i] == xs[i + 1] && ys[1..][i] == ys[i + 1];
        }
        SameExecution(p, xs[1..], r, ys[1..], tables, exec, next.value);
      }
    }
  }

  lemma {:induction false} ExecuteConcat<S>(m: Message, tables: Tables, exec: Semantics<S>, xs: seq<Instruction>,
                                            ys: seq<Instruction>, s: S)
    ensures Execute(m, tables, exec, xs + ys, s) ==
            match Execute(m, tables, exec, xs, s)
            case None => None
            case Some(s') => Execute(m, tables, exec, ys, s')
  {
    if xs == [] {
      assert xs + ys == ys;
    } else {
      assert (xs + ys)[1..] == xs[1..] + ys;
      var next := Step(m, tables, exec, xs[0], s);
      if next.Some? {
        ExecuteConcat(m, tables, exec, xs[1..], ys, next.value);
      }
    }
  }

  lemma {:induction false} AssertionsKeepState<S(!new)>(m: Message, tables: Tables, exec: Semantics<S>,
                                                        assertions: seq<Instruction>, known: set<Key>, s: S)
    requires AssertionsOnlyGuard(exec)
    requires forall i | 0 <= i < |assertions| :: IsGuard(m, assertions[i], known)
    ensures Execute(m, tables, exec, assertions, s) in {None, Some(s)}
  {
    if assertions != [] {
      var call := Resolve(m, tables, assertions[0]);
      if call.Some? {
        assert call.value.program == m.keys[assertions[0].program] && call.value.data == assertions[0].data;
        AssertionsKeepState(m, tables, exec, assertions[1..], known, s);
      }
    }
  }

  lemma ComputeCall(m: Message, ins: Instruction, tables: Tables)
    requires IsSetting(m, ins)
    ensures var call := Resolve(m, tables, ins);
            && call.Some? && call.value.program == "ComputeBudget111111111111111111111111111111"
            && call.value.accounts == [] && call.value.data == ins.data
  {
    assert Resolve(m, tables, ins).value.accounts == [];
  }

  lemma ExecutePair<S>(m: Message, tables: Tables, exec: Semantics<S>, pair: seq<Instruction>, s: S)
    requires |pair| == 2 && Resolve(m, tables, pair[0]).Some? && Resolve(m, tables, pair[1]).Some?
    ensures Execute(m, tables, exec, pair, s)
        == Then(exec, Resolve(m, tables, pair[0]).value, Resolve(m, tables, pair[1]).value, s)
  {
    assert pair[1..][0] == pair[1] && pair[1..][1..] == [];
    var next := Step(m, tables, exec, pair[0], s);
    if next.Some? {
      assert Execute(m, tables, exec, pair[1..], next.value) == Step(m, tables, exec, pair[1], next.value);
    }
  }

  lemma SameComputePrefix<S(!new)>(p: Message, r: Message, tables: Tables, exec: Semantics<S>, s: S)
    requires KeysRewritten(p, r) && ComputeRewritten(p, r) && SettingsIndependent(exec)
    ensures Execute(p, tables, exec, p.instructions[..2], s) == Execute(r, tables, exec, r.instructions[..2], s)
  {
    var before, after := p.instructions[..2], r.instructions[..2];
    ComputeCall(r, after[0], tables);
    ComputeCall(r, after[1], tables);
    var limit, price := Resolve(r, tables, after[0]).value, Resolve(r, tables, after[1]).value;
    ExecutePair(r, tables, exec, after, s);
    if SameInstruction(p, p.instructions[0], r, r.instructions[0])
       && SameInstruction(p, p.instructions[1], r, r.instructions[1]) {
      SameCall(p, before[0], r, after[0], tables);
      SameCall(p, before[1], r, after[1], tables);
      ExecutePair(p, tables, exec, before, s);
    } else {
      SameCall(p, before[1], r, after[0], tables);
      SameCall(p, before[0], r, after[1], tables);
      ExecutePair(p, tables, exec, before, s);
      assert Then(exec, limit, price, s) == Then(exec, price, limit, s);
    }
  }

  lemma SameEconomics<S>(p: Message, r: Message, tables: Tables, exec: Semantics<S>, s: S)
    requires KeysRewritten(p, r) && EconomicsKept(p, r)
    ensures Execute(p, tables, exec, p.instructions[2..], s)
        == Execute(r, tables, exec, r.instructions[2..|p.instructions|], s)
  {
    var xs, ys := p.instructions[2..], r.instructions[2..|p.instructions|];
    forall i | 0 <= i < |xs| ensures SameInstruction(p, xs[i], r, ys[i]) {
      assert xs[i] == p.instructions[i + 2] && ys[i] == r.instructions[i + 2];
    }
    SameExecution(p, xs, r, ys, tables, exec, s);
  }

  /** Up to its assertions, a rewritten message runs as the prepared one. */
  lemma RewrittenRun<S(!new)>(p: Message, r: Message, tables: Tables, exec: Semantics<S>, s: S)
    requires Rewritten(p, r) && SettingsIndependent(exec)
    ensures Execute(r, tables, exec, r.instructions[..|p.instructions|], s) == Run(p, tables, exec, s)
  {
    var n := |p.instructions|;
    SameComputePrefix(p, r, tables, exec, s);
    assert p.instructions == p.instructions[..2] + p.instructions[2..];
    assert r.instructions[..n] == r.instructions[..2] + r.instructions[2..n];
    ExecuteConcat(p, tables, exec, p.instructions[..2], p.instructions[2..], s);
    ExecuteConcat(r, tables, exec, r.instructions[..2], r.instructions[2..n], s);
    var prefix := Execute(r, tables, exec, r.instructions[..2], s);
    if prefix.Some? {
      SameEconomics(p, r, tables, exec, prefix.value);
    }
  }

  /**
    Accepted wallet output preserves meaning: for every lookup-table content and every semantics with
    independent settings and guarding assertions, the returned message aborts or does what the prepared
    one does. Without an added Lighthouse program it does exactly that.
  */
  lemma AcceptedKeepsMeaning<S(!new)>(p: Message, r: Message, tables: Tables, exec: Semantics<S>, s: S)
    requires Validate(p, r).Accepted?
    requires SettingsIndependent(exec) && AssertionsOnlyGuard(exec)
    ensures Run(r, tables, exec, s) in {None, Run(p, tables, exec, s)}
    ensures LIGHTHOUSE !in r.keys || LIGHTHOUSE in p.keys ==> Run(r, tables, exec, s) == Run(p, tables, exec, s)
  {
    ValidateExact(p, r);
    if p != r {
      RewrittenKeepsMeaning(p, r, tables, exec, s);
    }
  }

  lemma RewrittenKeepsMeaning<S(!new)>(p: Message, r: Message, tables: Tables, exec: Semantics<S>, s: S)
    requires Rewritten(p, r)
    requires SettingsIndependent(exec) && AssertionsOnlyGuard(exec)
    ensures Run(r, tables, exec, s) in {None, Run(p, tables, exec, s)}
    ensures LIGHTHOUSE !in r.keys || LIGHTHOUSE in p.keys ==> Run(r, tables, exec, s) == Run(p, tables, exec, s)
  {
    var n := |p.instructions|;
    var body, assertions := r.instructions[..n], r.instructions[n..];
    assert r.instructions == body + assertions;
    RewrittenRun(p, r, tables, exec, s);
    ExecuteConcat(r, tables, exec, body, assertions, s);
    var done := Execute(r, tables, exec, body, s);
    if done.Some? {
      assert forall i | 0 <= i < |assertions| :: assertions[i] == r.instructions[n + i];
      AssertionsKeepState(r, tables, exec, assertions, Elements(p.keys), done.value);
    }
  }

  // ---------------------------------------------------------------- acceptance is a preorder

  lemma AcceptedReflexive(m: Message)
    ensures Validate(m, m) == Accepted(false)
  {
  }

  lemma KeysTransitive(a: Message, b: Message, c: Message)
    requires KeysRewritten(a, b) && KeysRewritten(b, c)
    ensures KeysRewritten(a, c)
    ensures AddedKeys(a, c) == AddedKeys(a, b) + AddedKeys(b, c)
    ensures AddedKeys(a, b) == {} || AddedKeys(b, c) == {}
  {
    assert forall k :: k in b.keys <==> k in Elements(b.keys);
    assert forall k :: k in a.keys <==> k in Elements(a.keys);
    assert forall k :: k in c.keys <==> k in Elements(c.keys);
    assert Elements(c.keys) == Elements(a.keys) + AddedKeys(a, c);
    forall i, j | 0 <= i < |a.keys| && 0 <= j < |c.keys| && a.keys[i] == c.keys[j]
      ensures StaticPrivilege(a, i) == StaticPrivilege(c, j)
    {
      assert a.keys[i] in Elements(b.keys);
      var k :| 0 <= k < |b.keys| && b.keys[k] == a.keys[i];
    }
    forall j | 0 <= j < |c.keys| && c.keys[j] in AddedKeys(a, c)
      ensures StaticPrivilege(c, j) == Privilege(false, false)
    {
      if c.keys[j] in AddedKeys(a, b) {
        var k :| 0 <= k < |b.keys| && b.keys[k] == c.keys[j];
      }
    }
  }

  lemma ComputeTransitive(a: Message, b: Message, c: Message)
    requires ComputeRewritten(a, b) && ComputeRewritten(b, c)
    ensures ComputeRewritten(a, c)
  {
    SameKind(b, b.instructions[0], c, c.instructions[0]);
    var limit, price := c.instructions[0], c.instructions[1];
    assert KindOf(b, b.instructions[1]) == Some(Price);
    assert SameInstruction(b, b.instructions[0], c, limit) && SameInstruction(b, b.instructions[1], c, price);
  }

  lemma EconomicsTransitive(a: Message, b: Message, c: Message)
    requires KeysRewritten(a, b) && KeysRewritten(b, c)
    requires EconomicsKept(a, b) && EconomicsKept(b, c)
    ensures EconomicsKept(a, c)
  {
    KeysTransitive(a, b, c);
    forall i | |a.instructions| <= i < |c.instructions|
      ensures IsGuard(c, c.instructions[i], Elements(a.keys))
    {
      if i < |b.instructions| {
        SupportedAreGuards(b, b.instructions[i], Elements(a.keys));
        SupportedAreGuards(c, c.instructions[i], Elements(a.keys));
        assert SameInstruction(b, b.instructions[i], c, c.instructions[i]);
      } else {
        assert Elements(a.keys) == Elements(b.keys);
      }
    }
  }

  /** Two accepted rewrites in a row are one accepted rewrite. */
  lemma AcceptedTransitive(a: Message, b: Message, c: Message)
    requires Validate(a, b).Accepted? && Validate(b, c).Accepted?
    ensures Validate(a, c).Accepted?
  {
    ValidateExact(a, b);
    ValidateExact(b, c);
    ValidateExact(a, c);
    if a != b && b != c && a != c {
      KeysTransitive(a, b, c);
      ComputeTransitive(a, b, c);
      EconomicsTransitive(a, b, c);
    }
  }

  /** However often a wallet output is passed on, it gains at most four assertions over the first message. */
  lemma {:induction false} ChainOfRewrites(chain: seq<Message>)
    requires chain != []
    requires forall i | 0 <= i < |chain| - 1 :: Validate(chain[i], chain[i + 1]).Accepted?
    ensures Validate(chain[0], chain[|chain| - 1]).Accepted?
    ensures |chain[0].instructions| <= |chain[|chain| - 1].instructions| <= |chain[0].instructions|
        + MAX_LIGHTHOUSE_ASSERTIONS
  {
    var last := |chain| - 1;
    if last == 0 {
      AcceptedReflexive(chain[0]);
    } else {
      ChainOfRewrites(chain[..last]);
      assert chain[..last][last - 1] == chain[last - 1];
      assert Validate(chain[last - 1], chain[last - 1 + 1]).Accepted?;
      AcceptedTransitive(chain[0], chain[last - 1], chain[last]);
      ValidateExact(chain[0], chain[last]);
    }
  }
}
