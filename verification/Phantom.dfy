/**
  The compatibility check between a prepared versioned message and the message a wallet returns
  (chains/solana/transactions/phantom.ts). A message holds compiled instructions, which name
  accounts by position in a combined list: the static keys, then the keys loaded writable from
  lookup tables, then the keys loaded readonly.
*/
module Phantom {
  import opened Wrappers
  import Decimal

  /** An address in base58. */
  type Key = string

  newtype Byte = x: int | 0 <= x < 256

  const LIGHTHOUSE: Key := "L2TExMFKdjpN9kozasaurPirfHy9P8sbXoAN1qA3S95"
  const COMPUTE_BUDGET: Key := "ComputeBudget111111111111111111111111111111"
  const MAX_LIGHTHOUSE_ASSERTIONS := 4
  const MAX_LIGHTHOUSE_DATA_BYTES := 256

  datatype Version = Legacy | V0

  datatype Header = Header(signatures: nat, readonlySigned: nat, readonlyUnsigned: nat)

  datatype Lookup = Lookup(table: Key, writable: seq<nat>, readonly: seq<nat>)

  datatype Instruction = Instruction(program: nat, accounts: seq<nat>, data: seq<Byte>)

  datatype Message = Message(
    version: Version, blockhash: string, header: Header, keys: seq<Key>,
    lookups: seq<Lookup>, instructions: seq<Instruction>)

  datatype Privilege = Privilege(signer: bool, writable: bool)

  /** What an account position stands for, independently of where it sits in one message. */
  datatype Identity = Static(key: Key) | Loaded(table: Key, isWritable: bool, index: nat)

  datatype NamedInstruction = NamedInstruction(program: Key, accounts: seq<Identity>, data: seq<Byte>)

  datatype ComputeKind = Limit | Price | Unsupported

  datatype Compatibility = Accepted(augmented: bool) | Rejected(reason: string)

  // ---------------------------------------------------------------- privileges and identities

  function StaticPrivilege(m: Message, index: nat): Privilege {
    var signer := index < m.header.signatures;
    var writable :=
      if signer then index < m.header.signatures - m.header.readonlySigned
      else index < |m.keys| - m.header.readonlyUnsigned;
    Privilege(signer, writable)
  }

  function LoadedBy(l: Lookup, writable: bool): seq<Identity> {
    var indexes := if writable then l.writable else l.readonly;
    seq(|indexes|, i requires 0 <= i < |indexes| => Loaded(l.table, writable, indexes[i]))
  }

  function LoadedAccounts(lookups: seq<Lookup>, writable: bool): seq<Identity> {
    if lookups == [] then [] else LoadedBy(lookups[0], writable) + LoadedAccounts(lookups[1..], writable)
  }

  function StaticAccounts(keys: seq<Key>): (r: seq<Identity>)
    ensures |r| == |keys|
  {
    seq(|keys|, i requires 0 <= i < |keys| => Static(keys[i]))
  }

  /** The runtime's combined account list, the meaning of every account position. */
  function CombinedAccounts(m: Message): seq<Identity> {
    StaticAccounts(m.keys) + LoadedAccounts(m.lookups, true) + LoadedAccounts(m.lookups, false)
  }

  function AccountIdentity(m: Message, index: nat): Option<Identity> {
    var all := CombinedAccounts(m);
    if index < |all| then Some(all[index]) else None
  }

  lemma LoadedAccountsSnoc(lookups: seq<Lookup>, n: nat, writable: bool)
    requires n < |lookups|
    ensures LoadedAccounts(lookups[..n + 1], writable)
        == LoadedAccounts(lookups[..n], writable) + LoadedBy(lookups[n], writable)
  {
    if n == 0 {
      assert lookups[..1] == [lookups[0]];
      assert LoadedAccounts([lookups[0]][1..], writable) == [];
    } else {
      LoadedAccountsSnoc(lookups[1..], n - 1, writable);
      assert lookups[..n + 1][1..] == lookups[1..][..n];
      assert lookups[..n][1..] == lookups[1..][..n - 1];
    }
  }

  lemma LoadedAccountsPrefix(lookups: seq<Lookup>, n: nat, writable: bool)
    requires n <= |lookups|
    ensures LoadedAccounts(lookups[..n], writable) <= LoadedAccounts(lookups, writable)
    decreases |lookups| - n
  {
    if n < |lookups| {
      LoadedAccountsSnoc(lookups, n, writable);
      LoadedAccountsPrefix(lookups, n + 1, writable);
    } else {
      assert lookups[..n] == lookups;
    }
  }

  /** Where the entries of the lookup at `n` sit in the whole list. */
  lemma LoadedAccountsAt(lookups: seq<Lookup>, n: nat, k: nat, writable: bool)
    requires n < |lookups| && k < |LoadedBy(lookups[n], writable)|
    ensures |LoadedAccounts(lookups[..n], writable)| + k < |LoadedAccounts(lookups, writable)|
    ensures LoadedAccounts(lookups, writable)[|LoadedAccounts(lookups[..n], writable)| + k]
        == LoadedBy(lookups[n], writable)[k]
  {
    LoadedAccountsSnoc(lookups, n, writable);
    LoadedAccountsPrefix(lookups, n + 1, writable);
  }

  /** The position of that lookup's entry `k` in the combined list. */
  function LoadedPosition(m: Message, n: nat, k: nat, writable: bool): nat
    requires n <= |m.lookups|
  {
    |m.keys| + (if writable then 0 else |LoadedAccounts(m.lookups, true)|) + |LoadedAccounts(m.lookups[..n], writable)|
        + k
  }

  lemma LoadedIdentity(m: Message, n: nat, k: nat, writable: bool)
    requires n < |m.lookups| && k < |LoadedBy(m.lookups[n], writable)|
    ensures AccountIdentity(m, LoadedPosition(m, n, k, writable)) == Some(LoadedBy(m.lookups[n], writable)[k])
  {
    LoadedAccountsAt(m.lookups, n, k, writable);
  }

  lemma NextLoadedPosition(m: Message, n: nat, writable: bool)
    requires n < |m.lookups|
    ensures LoadedPosition(m, n + 1, 0, writable)
        == LoadedPosition(m, n, 0, writable) + |LoadedBy(m.lookups[n], writable)|
  {
    LoadedAccountsSnoc(m.lookups, n, writable);
  }

  lemma LoadedPositionEnds(m: Message)
    ensures LoadedPosition(m, 0, 0, true) == |m.keys|
    ensures LoadedPosition(m, |m.lookups|, 0, true) == LoadedPosition(m, 0, 0, false)
    ensures LoadedPosition(m, |m.lookups|, 0, false) == |CombinedAccounts(m)|
  {
    assert m.lookups[..|m.lookups|] == m.lookups;
  }

  /** The source's walk over the lookups, once for writable and once for readonly positions. */
  method LookupIdentity(m: Message, combinedIndex: nat) returns (identity: Option<Identity>)
    requires combinedIndex >= |m.keys|
    ensures identity == AccountIdentity(m, combinedIndex)
  {
    LoadedPositionEnds(m);
    var offset := |m.keys|;
    for n := 0 to |m.lookups|
      invariant offset == LoadedPosition(m, n, 0, true) <= combinedIndex
    {
      var lookup := m.lookups[n];
      if combinedIndex < offset + |lookup.writable| {
        LoadedIdentity(m, n, combinedIndex - offset, true);
        return Some(Loaded(lookup.table, true, lookup.writable[combinedIndex - offset]));
      }
      NextLoadedPosition(m, n, true);
      offset := offset + |lookup.writable|;
    }
    for n := 0 to |m.lookups|
      invariant offset == LoadedPosition(m, n, 0, false) <= combinedIndex
    {
      var lookup := m.lookups[n];
      if combinedIndex < offset + |lookup.readonly| {
        LoadedIdentity(m, n, combinedIndex - offset, false);
        return Some(Loaded(lookup.table, false, lookup.readonly[combinedIndex - offset]));
      }
      NextLoadedPosition(m, n, false);
      offset := offset + |lookup.readonly|;
    }
    return None;
  }

  function Name(m: Message, ins: Instruction): Option<NamedInstruction> {
    if ins.program < |m.keys| && forall i | 0 <= i < |ins.accounts| :: AccountIdentity(m, ins.accounts[i]).Some? then
      Some(NamedInstruction(
             m.keys[ins.program],
             seq(|ins.accounts|, i requires 0 <= i < |ins.accounts| => AccountIdentity(m, ins.accounts[i]).value),
             ins.data))
    else
      None
  }

  /** Both instructions resolve, to one program, one account list and one data string. */
  predicate SameInstruction(left: Message, a: Instruction, right: Message, b: Instruction) {
    Name(left, a).Some? && Name(left, a) == Name(right, b)
  }

  /**
    An instruction has a name exactly when its program is a static key and every account position is in the
    combined list, and the name is that program, those accounts and the data.
  */
  lemma NameExactly(m: Message, ins: Instruction, n: NamedInstruction)
    ensures Name(m, ins) == Some(n) <==>
            && ins.program < |m.keys| && n.program == m.keys[ins.program] && n.data == ins.data
            && |n.accounts| == |ins.accounts|
            && forall i | 0 <= i < |ins.accounts| :: AccountIdentity(m, ins.accounts[i]) == Some(n.accounts[i])
  {
    var named := Name(m, ins);
    if named.Some? && |n.accounts| == |ins.accounts| {
      assert n.accounts == named.value.accounts <==>
             forall i | 0 <= i < |ins.accounts| :: n.accounts[i] == named.value.accounts[i];
    }
  }

  // ---------------------------------------------------------------- the comparison by joined text

  /** No separator in an address, as in all base58 text. */
  predicate Plain(id: Identity) {
    match id
    case Static(key) => '|' !in key
    case Loaded(table, _, _) => ':' !in table && '|' !in table
  }

  function TablePosition(isWritable: bool, index: nat): string {
    (if isWritable then ":w:" else ":r:") + Decimal.Text(index)
  }

  function IdentityText(id: Identity): (s: string)
    ensures s != "" && (Plain(id) ==> '|' !in s)
  {
    match id
    case Static(key) => "static:" + key
    case Loaded(table, isWritable, index) => "lookup:" + (table + TablePosition(isWritable, index))
  }

  /** `[...].join('|')`. */
  function Joined(ids: seq<Identity>): string {
    if ids == [] then ""
    else if |ids| == 1 then IdentityText(ids[0])
    else IdentityText(ids[0]) + ("|" + Joined(ids[1..]))
  }

  function AfterFirst(ids: seq<Identity>): string {
    if |ids| <= 1 then "" else "|" + Joined(ids[1..])
  }

  /** A text up to its first separator is determined by the whole. */
  lemma SplitAt(x: string, u: string, y: string, v: string, c: char)
    requires x + u == y + v && c !in x && c !in y
    requires u == "" || u[0] == c
    requires v == "" || v[0] == c
    ensures x == y && u == v
  {
    assert forall i | 0 <= i < |y| :: (y + v)[i] == y[i];
    assert forall i | 0 <= i < |x| :: (x + u)[i] == x[i];
    assert u != "" ==> (x + u)[|x|] == c;
    assert v != "" ==> (y + v)[|y|] == c;
    assert |x| + |u| == |x + u| == |y + v| == |y| + |v|;
    assert |x| == |y|;
    assert x == (x + u)[..|x|] && y == (y + v)[..|y|];
    assert u == (x + u)[|x|..] && v == (y + v)[|y|..];
  }

  lemma IdentityTextInjective(a: Identity, b: Identity)
    requires Plain(a) && Plain(b) && IdentityText(a) == IdentityText(b)
    ensures a == b
  {
    assert IdentityText(a)[0] == (if a.Static? then 's' else 'l');
    assert IdentityText(b)[0] == (if b.Static? then 's' else 'l');
    match a {
      case Static(key) =>
        assert IdentityText(a)[7..] == key && IdentityText(b)[7..] == b.key;
      case Loaded(table, w, index) =>
        var p, q := TablePosition(w, index), TablePosition(b.isWritable, b.index);
        assert table + p == IdentityText(a)[7..] == IdentityText(b)[7..] == b.table + q;
        SplitAt(table, p, b.table, q, ':');
        assert p[1] == q[1];
        assert p[3..] == Decimal.Text(index) && q[3..] == Decimal.Text(b.index);
        Decimal.TextInjective(index, b.index);
    }
  }

  lemma JoinedFirst(a: seq<Identity>, b: seq<Identity>)
    requires a != [] && b != [] && Plain(a[0]) && Plain(b[0])
    requires Joined(a) == Joined(b)
    ensures a[0] == b[0] && AfterFirst(a) == AfterFirst(b)
  {
    assert Joined(a) == IdentityText(a[0]) + AfterFirst(a);
    assert Joined(b) == IdentityText(b[0]) + AfterFirst(b);
    SplitAt(IdentityText(a[0]), AfterFirst(a), IdentityText(b[0]), AfterFirst(b), '|');
    IdentityTextInjective(a[0], b[0]);
  }

  lemma AfterFirstInjective(a: seq<Identity>, b: seq<Identity>)
    requires a != [] && b != [] && AfterFirst(a) == AfterFirst(b)
    ensures Joined(a[1..]) == Joined(b[1..])
  {
    assert |a| > 1 ==> AfterFirst(a)[1..] == Joined(a[1..]);
    assert |b| > 1 ==> AfterFirst(b)[1..] == Joined(b[1..]);
  }

  lemma JoinedEmpty(a: seq<Identity>)
    ensures Joined(a) == "" <==> a == []
  {
  }

  /** Comparing account lists as joined text, as the source does, is comparing them entry by entry. */
  lemma {:induction false} JoinedDecidesAccounts(a: seq<Identity>, b: seq<Identity>)
    requires forall i | 0 <= i < |a| :: Plain(a[i])
    requires forall i | 0 <= i < |b| :: Plain(b[i])
    ensures Joined(a) == Joined(b) <==> a == b
  {
    JoinedEmpty(a);
    JoinedEmpty(b);
    if a != [] && b != [] && Joined(a) == Joined(b) {
      JoinedFirst(a, b);
      AfterFirstInjective(a, b);
      JoinedDecidesAccounts(a[1..], b[1..]);
      assert a == [a[0]] + a[1..] && b == [b[0]] + b[1..];
    }
  }

  /** The comparison as the source makes it: programs, account lists as joined text, data. */
  predicate SameByText(left: Message, a: Instruction, right: Message, b: Instruction) {
    && IdentitiesText(left, a).Some?
    && IdentitiesText(left, a) == IdentitiesText(right, b)
    && left.keys[a.program] == right.keys[b.program]
    && a.data == b.data
  }

  /** The joined account list of an instruction that resolves. */
  function IdentitiesText(m: Message, ins: Instruction): (r: Option<string>)
    ensures r.Some? ==> ins.program < |m.keys|
  {
    var named := Name(m, ins);
    if named.Some? then Some(Joined(named.value.accounts)) else None
  }

  /** Base58 addresses have no separators. */
  ghost predicate PlainKeys(m: Message) {
    && (forall k | k in m.keys :: '|' !in k)
    && forall l | l in m.lookups :: ':' !in l.table && '|' !in l.table
  }

  lemma {:induction false} LoadedArePlain(lookups: seq<Lookup>, writable: bool)
    requires forall l | l in lookups :: ':' !in l.table && '|' !in l.table
    ensures forall id | id in LoadedAccounts(lookups, writable) :: Plain(id)
  {
    if lookups != [] {
      LoadedArePlain(lookups[1..], writable);
      assert forall id | id in LoadedBy(lookups[0], writable) :: Plain(id);
      assert lookups[0] in lookups;
    }
  }

  lemma AccountsArePlain(m: Message, index: nat)
    requires PlainKeys(m) && AccountIdentity(m, index).Some?
    ensures Plain(AccountIdentity(m, index).value)
  {
    LoadedArePlain(m.lookups, true);
    LoadedArePlain(m.lookups, false);
    var combined := CombinedAccounts(m);
    assert AccountIdentity(m, index).value in combined;
  }

  /** For addresses without separators the comparison by text and the structural one agree. */
  lemma TextDecidesInstructions(left: Message, a: Instruction, right: Message, b: Instruction)
    requires PlainKeys(left) && PlainKeys(right)
    ensures SameByText(left, a, right, b) <==> SameInstruction(left, a, right, b)
  {
    var x, y := Name(left, a), Name(right, b);
    if x.Some? && y.Some? {
      forall i | 0 <= i < |x.value.accounts| ensures Plain(x.value.accounts[i]) {
        AccountsArePlain(left, a.accounts[i]);
      }
      forall i | 0 <= i < |y.value.accounts| ensures Plain(y.value.accounts[i]) {
        AccountsArePlain(right, b.accounts[i]);
      }
      JoinedDecidesAccounts(x.value.accounts, y.value.accounts);
    }
  }
}
