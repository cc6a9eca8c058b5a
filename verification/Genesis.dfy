/**
  Loading the genesis file (config/genesis.go, cmd/start.go): validating it and
  padding its accounts to a full level of leaves.
 */
module Genesis {
  import opened Bytes
  import opened Paths
  import opened MerkleTree
  import opened StateTable
  import opened Deposits
  import opened StateDB
  import opened AccountTree

  datatype GenUserState = GenUserState(
    accountID: uint64, balance: nat, nonce: nat, tokenType: nat, publicKey: string)
  {
    predicate IsCoordinator() {
      accountID == 0 && balance == 0 && tokenType == 0 && nonce == 0
    }
  }

  /** A list whose length is an int. */
  type GenUserStates = s: seq<GenUserState> | |s| < -INT_MIN

  datatype File = File(
    startEthBlock: uint64, maxTreeDepth: uint64, maxDepositSubTreeHeight: uint64, stakeAmount: uint64,
    accounts: GenUserStates)

  datatype SyncStatus = SyncStatus(lastEthBlockRecorded: uint64, lastBatchRecorded: uint64)

  const FINALISATION_TIME := 40320

  datatype GenesisError = TooManyAccounts | NoAccounts | FirstNotCoordinator

  /** The leaves left for padding: an int subtraction, which wraps around below the smallest integer. */
  function Spare(g: File): int {
    var diff := LeafCount(g.maxTreeDepth) - |g.accounts|;
    if diff < INT_MIN then diff + UINT64 else diff
  }

  function Validate(g: File): Option<GenesisError> {
    if Spare(g) < 0 then Some(TooManyAccounts)
    else if |g.accounts| < 1 then Some(NoAccounts)
    else if !g.accounts[0].IsCoordinator() then Some(FirstNotCoordinator)
    else None
  }

  /** Which files are valid: with a coordinator and at most as many accounts as the tree has leaves. */
  lemma ValidIff(g: File)
    requires g.maxTreeDepth <= 62
    ensures Validate(g).None? <==>
      1 <= |g.accounts| <= Pow2(g.maxTreeDepth)
      && var a := g.accounts[0]; a.accountID == 0 && a.balance == 0 && a.nonce == 0 && a.tokenType == 0
    ensures Validate(g) == Some(TooManyAccounts) <==> |g.accounts| > Pow2(g.maxTreeDepth)
    ensures Validate(g) == Some(NoAccounts) <==> |g.accounts| == 0
  {
    Pow2Monotonic(g.maxTreeDepth, 62);
    assert Pow2(62) < -INT_MIN by { Pow2Of64(); assert Pow2(64) == 2 * Pow2(63) && Pow2(63) == 2 * Pow2(62); }
  }

  /** Beyond depth 62 the leaf count is the smallest integer: any account makes the difference wrap. */
  lemma DeepFits(g: File)
    requires g.maxTreeDepth > 62
    ensures Validate(g) == Some(TooManyAccounts) <==> |g.accounts| == 0
    ensures |g.accounts| > 0 ==> Spare(g) == 0x8000_0000_0000_0000 - |g.accounts|
    ensures Validate(g).None? <==>
      |g.accounts| > 0
      && var a := g.accounts[0]; a.accountID == 0 && a.balance == 0 && a.nonce == 0 && a.tokenType == 0
  {
  }

  /** The on-chain state encoding, a parameter. */
  type Encoding = (nat, nat, nat, nat) -> seq<byte>

  function EncodeState(encode: Encoding, a: GenUserState): seq<byte> {
    encode(a.accountID, a.balance, a.nonce, a.tokenType)
  }

  function GenesisState(k: Keccak, encode: Encoding, g: File, i: nat): UserState
    requires |g.accounts| > 0
  {
    if i < |g.accounts| then
      var a := g.accounts[i];
      NewUserState(k, a.accountID, STATUS_ACTIVE, NodePath(a.accountID, g.maxTreeDepth), EncodeState(encode, a))
    else NewUserState(k, 0, STATUS_INACTIVE, "", EncodeState(encode, g.accounts[0]))
  }

  /** Every public key is empty or hexadecimal text; otherwise hashing it panics. */
  predicate KeysReadable(g: File) {
    forall i :: 0 <= i < |g.accounts| ==> g.accounts[i].publicKey == "" || DecodeString(g.accounts[i].publicKey).Some?
  }

  function AccountAt(k: Keccak, pack: Packing, g: File, i: nat): Account
    requires KeysReadable(g)
  {
    if i < |g.accounts| then
      var a := g.accounts[i];
      Account(a.accountID, a.publicKey, NodePath(a.accountID, g.maxTreeDepth), TYPE_TERMINAL,
              KeyHash(k, pack, a.publicKey).value, 0)
    else Account(0, "", "", TYPE_TERMINAL, ZERO_VALUE_LEAF, 0)
  }

  /**
    The loader's leaves: the accounts of the file, then empty ones, of which the
    states carry the coordinator's data.
   */
  method LoadLeaves(k: Keccak, pack: Packing, encode: Encoding, g: File)
    returns (states: seq<UserState>, accounts: seq<Account>, out: Outcome)
    requires Validate(g).None?
    ensures out == if KeysReadable(g) then Done else Panicked
    ensures out == Done ==> |states| == |accounts| == |g.accounts| + Spare(g)
    ensures out == Done ==> forall i :: 0 <= i < |states| ==> states[i] == GenesisState(k, encode, g, i)
    ensures out == Done ==> forall i :: 0 <= i < |accounts| ==> accounts[i] == AccountAt(k, pack, g, i)
  {
    hide DecodeString, NodePath, Pow2;
    var diff := Spare(g);
    states, accounts := [], [];
    var zeroData := [];
    for i := 0 to |g.accounts|
      invariant |states| == |accounts| == i
      invariant i > 0 ==> zeroData == EncodeState(encode, g.accounts[0])
      invariant forall j :: 0 <= j < i ==> KeyHash(k, pack, g.accounts[j].publicKey).Some?
      invariant forall j :: 0 <= j < i ==> states[j] == GenesisState(k, encode, g, j)
      invariant KeysReadable(g) ==> forall j :: 0 <= j < i ==> accounts[j] == AccountAt(k, pack, g, j)
    {
      var acc := g.accounts[i];
      var path := SolidityPathToNodePath(acc.accountID, g.maxTreeDepth);
      var stateBytes := EncodeState(encode, acc);
      if i == 0 {
        zeroData := stateBytes;
      }
      var hash := KeyHash(k, pack, acc.publicKey);
      if hash.None? {
        return states, accounts, Panicked;
      }
      states := states + [NewUserState(k, acc.accountID, STATUS_ACTIVE, path, stateBytes)];
      accounts := accounts + [Account(acc.accountID, acc.publicKey, path, TYPE_TERMINAL, hash.value, 0)];
    }
    assert KeysReadable(g);
    while diff > 0
      invariant diff >= 0 && |states| == |accounts| == |g.accounts| + Spare(g) - diff
      invariant forall j :: 0 <= j < |states| ==> states[j] == GenesisState(k, encode, g, j)
      invariant forall j :: 0 <= j < |accounts| ==> accounts[j] == AccountAt(k, pack, g, j)
    {
      var empty := NewUserState(k, 0, STATUS_INACTIVE, "", []);
      states := states + [empty.(data := zeroData).CreateAccountHash(k)];
      accounts := accounts + [Account(0, "", "", TYPE_TERMINAL, ZERO_VALUE_LEAF, 0)];
      diff := diff - 1;
    }
    out := Done;
  }

  /** The hash of account leaf i: that of its key, or the empty leaf. */
  function LeafHash(k: Keccak, pack: Packing, g: File, i: nat): ByteArray
    requires KeysReadable(g)
  {
    if i < |g.accounts| then KeyHash(k, pack, g.accounts[i].publicKey).value else ZERO_VALUE_LEAF
  }

  /** The leaf a position ends up with: its path is the position, whatever account id the file gives. */
  function GenesisRow(k: Keccak, encode: Encoding, g: File, i: nat): UserState
    requires |g.accounts| > 0
  {
    GenesisState(k, encode, g, i).UpdatePath(PathOf(i, g.maxTreeDepth))
  }

  /** The account leaf of a position. */
  function AccountRow(k: Keccak, pack: Packing, g: File, i: nat): Account
    requires KeysReadable(g)
  {
    AccountAt(k, pack, g, i).(path := PathOf(i, g.maxTreeDepth), level := g.maxTreeDepth)
  }

  function StateRows(k: Keccak, encode: Encoding, g: File): seq<UserState>
    requires |g.accounts| > 0
  {
    seq(Pow2(g.maxTreeDepth), i requires 0 <= i => GenesisRow(k, encode, g, i))
  }

  function AccountRows(k: Keccak, pack: Packing, g: File): seq<Account>
    requires KeysReadable(g)
  {
    seq(Pow2(g.maxTreeDepth), i requires 0 <= i => AccountRow(k, pack, g, i))
  }

  /** Leaf i of the state tree, field by field: a listed account, or padding with the first one's state. */
  predicate IsStateLeaf(k: Keccak, encode: Encoding, g: File, i: nat, r: UserState)
    requires |g.accounts| > 0
  {
    var a := if i < |g.accounts| then g.accounts[i] else g.accounts[0];
    && r.data == encode(a.accountID, a.balance, a.nonce, a.tokenType) && r.hash == k(r.data)
    && r.accountID == (if i < |g.accounts| then a.accountID else 0)
    && r.status == (if i < |g.accounts| then 1 else 2)
    && r.path == PathOf(i, g.maxTreeDepth) && r.level == g.maxTreeDepth && r.typ == 1 && r.createdBy == None
  }

  /** Leaf i of the account tree, field by field: a listed account's key and its hash, or an empty leaf. */
  predicate IsAccountLeaf(k: Keccak, pack: Packing, g: File, i: nat, r: Account) {
    && r.path == PathOf(i, g.maxTreeDepth) && r.level == g.maxTreeDepth && r.typ == 1
    && r.id == (if i < |g.accounts| then g.accounts[i].accountID else 0)
    && r.publicKey == (if i < |g.accounts| then g.accounts[i].publicKey else "")
    && (r.publicKey == "" ==> r.hash == ZERO_VALUE_LEAF)
    && (r.publicKey != "" ==>
          DecodeString(r.publicKey).Some? && r.hash == k(pack(DecodeString(r.publicKey).value)))
  }

  predicate AreStateLeaves(k: Keccak, encode: Encoding, g: File, leaves: seq<UserState>)
    requires |g.accounts| > 0
  {
    |leaves| == Pow2(g.maxTreeDepth) && forall i :: 0 <= i < |leaves| ==> IsStateLeaf(k, encode, g, i, leaves[i])
  }

  /** The leaves are the first rows of the account table. */
  predicate AreAccountLeaves(k: Keccak, pack: Packing, g: File, rows: seq<Account>) {
    && |rows| >= Pow2(g.maxTreeDepth)
    && forall i :: 0 <= i < Pow2(g.maxTreeDepth) ==> IsAccountLeaf(k, pack, g, i, rows[i])
  }

  lemma StateLeafFields(k: Keccak, encode: Encoding, g: File)
    requires |g.accounts| > 0
    ensures AreStateLeaves(k, encode, g, StateRows(k, encode, g))
  {
    hide PathOf, NodePath, Pow2;
  }

  lemma AccountLeafFields(k: Keccak, pack: Packing, g: File, rows: seq<Account>)
    requires KeysReadable(g) && AccountRows(k, pack, g) <= rows
    ensures AreAccountLeaves(k, pack, g, rows)
  {
    hide PathOf, NodePath, DecodeString, Pow2;
    forall i | 0 <= i < Pow2(g.maxTreeDepth) ensures rows[i] == AccountRow(k, pack, g, i) {
      assert AccountRows(k, pack, g)[i] == rows[i];
    }
  }

  /** What the loader accepts: beyond depth 62 the capacity check passes, but the trees cannot be built. */
  predicate Loadable(g: File) {
    Validate(g).None? && KeysReadable(g) && g.maxTreeDepth <= 62
  }

  /**
    A file that is not loadable stops the node before anything is written. A
    loadable one adds its rows to both tables and builds their levels; on empty
    tables this gives two consistent trees, the parameters and the sync status.
   */
  method LoadGenesisData(db: DB, accountDB: AccountDB, encode: Encoding, g: File)
    returns (out: Outcome, sync: Option<SyncStatus>)
    requires db.keccak == accountDB.keccak
    modifies db, accountDB
    ensures !Loadable(g) ==> out == Panicked && sync.None?
    ensures !Loadable(g) ==>
      db.states == old(db.states) && db.params == old(db.params) && accountDB.accounts == old(accountDB.accounts)
    ensures Loadable(g) ==>
      var d := g.maxTreeDepth;
      var states := BuildFrom(db.keccak, old(db.states) + StateRows(db.keccak, encode, g), d);
      var rows := AsStates(old(accountDB.accounts) + AccountRows(db.keccak, accountDB.pack, g));
      var accounts := BuildFrom(db.keccak, rows, d);
      && db.states == states.rows
      && out == (if states.out == Done && accounts.out == Done then Done else Panicked)
      && (states.out == Done ==> AsStates(accountDB.accounts) == accounts.rows)
      && (states.out != Done ==> accountDB.accounts == old(accountDB.accounts))
    ensures out == Done ==>
      db.params == Some(Params(g.stakeAmount, g.maxTreeDepth, g.maxDepositSubTreeHeight, 40320))
      && sync == Some(SyncStatus(g.startEthBlock, 0))
    ensures out != Done ==> db.params == old(db.params) && sync.None?
    ensures Loadable(g) && old(db.states) == [] && old(accountDB.accounts) == [] ==>
      && out == Done
      && db.Valid() && Settled(db.leaves) && db.pending == [] && db.depth == g.maxTreeDepth
      && db.leaves == StateRows(db.keccak, encode, g) && AreStateLeaves(db.keccak, encode, g, db.leaves)
      && AreAccountLeaves(db.keccak, accountDB.pack, g, accountDB.accounts)
      && accountDB.Valid() && accountDB.depth == g.maxTreeDepth
      && accountDB.leafHashes == Hashes(AsStates(AccountRows(db.keccak, accountDB.pack, g)))
  {
    hide TreeRows, HashColumn, DecodeString, BuildFrom, Pow2, NodePath, PathOf, AreStateLeaves, AreAccountLeaves,
      GenesisRow, AccountRow, StateRows, AccountRows, KeyHash;
    sync := None;
    if Validate(g).Some? {
      return Panicked, sync;
    }
    var states, accounts;
    states, accounts, out := LoadLeaves(db.keccak, accountDB.pack, encode, g);
    if out != Done {
      return;
    }
    if g.maxTreeDepth <= 62 {
      StatesPlaced(db, encode, g, states);
      AccountsPlaced(accountDB, g, accounts);
      StateLeafFields(db.keccak, encode, g);
    }
    out := db.InitStateTree(g.maxTreeDepth, states);
    if out != Done {
      return Panicked, sync;
    }
    out := accountDB.InitAccountTree(g.maxTreeDepth, accounts);
    if out != Done {
      return Panicked, sync;
    }
    if old(accountDB.accounts) == [] {
      assert [] + AccountRows(db.keccak, accountDB.pack, g) == AccountRows(db.keccak, accountDB.pack, g);
      AccountLeafFields(db.keccak, accountDB.pack, g, accountDB.accounts);
    }
    db.params := Some(Params(g.stakeAmount, g.maxTreeDepth, g.maxDepositSubTreeHeight, FINALISATION_TIME));
    sync := Some(SyncStatus(g.startEthBlock, 0));
  }

  lemma StatesPlaced(db: DB, encode: Encoding, g: File, states: seq<UserState>)
    requires |g.accounts| > 0 && |states| == Pow2(g.maxTreeDepth)
    requires forall i :: 0 <= i < |states| ==> states[i] == GenesisState(db.keccak, encode, g, i)
    ensures db.GenesisLeaves(g.maxTreeDepth, states) == StateRows(db.keccak, encode, g)
    ensures Settled(StateRows(db.keccak, encode, g))
  {
    hide Pow2, PathOf, NodePath;
    forall i | 0 <= i < |states|
      ensures db.GenesisLeaf(g.maxTreeDepth, i, states[i]) == GenesisRow(db.keccak, encode, g, i)
    {
    }
  }

  lemma AccountsPlaced(db: AccountDB, g: File, accounts: seq<Account>)
    requires KeysReadable(g) && |g.accounts| > 0 && |accounts| == Pow2(g.maxTreeDepth)
    requires forall i :: 0 <= i < |accounts| ==> accounts[i] == AccountAt(db.keccak, db.pack, g, i)
    ensures KeyHash(db.keccak, db.pack, accounts[0].publicKey).Some?
    ensures var first := KeyHash(db.keccak, db.pack, accounts[0].publicKey).value;
      db.GenesisAccounts(g.maxTreeDepth, accounts, first) == AccountRows(db.keccak, db.pack, g)
  {
    hide Pow2, PathOf, NodePath, DecodeString;
  }

  /** The accounts of the default genesis file. */
  const DEFAULT_ACCOUNTS: GenUserStates := [GenUserState(0, 0, 0, 0, "0"), GenUserState(1, 0, 0, 0, "0")]

  /** The default file passes validation, but the public keys are half a byte, so it is not loadable. */
  lemma DefaultFileIsNotLoadable(g: File)
    requires g.accounts == DEFAULT_ACCOUNTS && g.maxTreeDepth == 2
    ensures Validate(g).None? && !Loadable(g)
  {
    assert Pow2(1) == 2 && Pow2(2) == 4;
    assert DecodeString("0").None? && g.accounts[0].publicKey == "0";
  }

  lemma AccountsFit(g: File)
    requires Validate(g).None?
    ensures |g.accounts| <= Pow2(g.maxTreeDepth)
  {
    if g.maxTreeDepth > 62 {
      Pow2Of64();
      Pow2Monotonic(63, g.maxTreeDepth);
      assert Pow2(64) == 2 * Pow2(63);
    }
  }

  /**
    The loader first derives a path from the account id, then the tree builder
    overwrites it with the position: the two agree exactly when the file lists
    account i at position i.
   */
  lemma PlacedByIdIffInOrder(k: Keccak, encode: Encoding, g: File, i: nat)
    requires Validate(g).None? && i < |g.accounts| && g.maxTreeDepth >= 1
    ensures GenesisRow(k, encode, g, i).path == GenesisState(k, encode, g, i).path <==> g.accounts[i].accountID == i
  {
    NodePathIsPath(g.accounts[i].accountID, g.maxTreeDepth);
    AccountsFit(g);
    ValPathOf(i, g.maxTreeDepth);
  }

  /**
    After genesis a subtree beyond the listed accounts counts as vacant exactly
    when the coordinator's encoded state hashes to the empty leaf: the padding
    carries that state, not the zero leaf.
   */
  lemma PaddingVacantIff(k: Keccak, encode: Encoding, g: File, leaves: seq<UserState>, q: Path)
    requires Validate(g).None? && Placed(g.maxTreeDepth, leaves) && |q| <= g.maxTreeDepth
    requires forall i :: 0 <= i < |leaves| ==> leaves[i] == GenesisRow(k, encode, g, i)
    requires First(g.maxTreeDepth, q) >= |g.accounts|
    ensures Vacant(g.maxTreeDepth, Hashes(leaves), q) <==> k(EncodeState(encode, g.accounts[0])) == ZERO_VALUE_LEAF
  {
    var d := g.maxTreeDepth;
    SpanFits(d, q);
    forall n: nat | n < Pow2(d) && Below(d, q, n) ensures Hashes(leaves)[n] == k(EncodeState(encode, g.accounts[0])) {
      BelowIsInterval(d, q, n);
    }
    BelowIsInterval(d, q, First(d, q));
  }
}
