/**
  The account tree (core/account.go). It has the shape of the state tree, but its
  store step rewrites both children of every parent and writes every non-zero
  field of a row. It is built with the same loops.
 */
module AccountTree {
  import opened Bytes
  import opened Paths
  import opened MerkleTree
  import opened Queries
  import opened StateTable
  import opened StateDB

  datatype Account = Account(id: nat, publicKey: string, path: string, typ: nat, hash: ByteArray, level: nat)

  /** The ABI encoding of a byte string. */
  type Packing = seq<byte> -> seq<byte>

  /** The hash of a public key given in hexadecimal; text that is not makes the code panic. */
  function KeyHash(k: Keccak, pack: Packing, publicKey: string): Option<ByteArray> {
    if publicKey == "" then Some(ZERO_VALUE_LEAF)
    else match DecodeString(publicKey) case None => None case Some(bytes) => Some(k(pack(bytes)))
  }

  /** Whole bytes in hexadecimal are hashed in their packed form, no key at all gives the empty leaf. */
  lemma HashesPackedKey(k: Keccak, pack: Packing, bytes: seq<byte>)
    ensures KeyHash(k, pack, Encode(bytes)) == Some(if bytes == [] then ZERO_VALUE_LEAF else k(pack(bytes)))
  {
    DecodeEncode(bytes);
  }

  function NewAccountNode(path: string, hash: ByteArray): Account {
    Account(0, "", path, TYPE_NON_TERMINAL, hash, |path|)
  }

  function OnPath(path: string): Account -> bool {
    (a: Account) => a.path == path
  }

  /** An update from a whole row: zero-valued fields are left out, a printed hash never is one. */
  function Merge(r: Account, n: Account): Account {
    Account(if n.id == 0 then r.id else n.id, if n.publicKey == "" then r.publicKey else n.publicKey,
            if n.path == "" then r.path else n.path, if n.typ == 0 then r.typ else n.typ,
            n.hash, if n.level == 0 then r.level else n.level)
  }

  function MergeAt(r: Account, n: Account, path: string): Account {
    if r.path == path then Merge(r, n) else r
  }

  function UpdateSingleAccount(rows: seq<Account>, n: Account, path: string): (t: seq<Account>)
    ensures |t| == |rows|
  {
    seq(|rows|, i requires 0 <= i < |rows| => MergeAt(rows[i], n, path))
  }

  /** The row that carries only a path and a hash. */
  function HashOnly(path: string, hash: ByteArray): Account {
    Account(0, "", path, 0, hash, 0)
  }

  // ---- The hash column, which both trees share ----

  function Column(rows: seq<UserState>): (c: seq<(string, ByteArray)>)
    ensures |c| == |rows|
  {
    seq(|rows|, i requires 0 <= i < |rows| => (rows[i].path, rows[i].hash))
  }

  /** Path and hash of every node of the tree over these leaf hashes. */
  function HashColumn(k: Keccak, d: nat, leaves: seq<ByteArray>): (c: seq<(string, ByteArray)>)
    requires |leaves| == Pow2(d)
  {
    seq(|TreePaths(d)|, i requires 0 <= i < |TreePaths(d)| =>
      (assert TreePaths(d)[i] in TreePaths(d); (TreePaths(d)[i], NodeHash(k, d, leaves, TreePaths(d)[i]))))
  }

  lemma StateTreeHasHashColumn(k: Keccak, d: nat, leaves: seq<UserState>)
    requires Placed(d, leaves)
    ensures Column(TreeRows(k, d, leaves)) == HashColumn(k, d, Hashes(leaves))
  {
  }

  predicate Unique(rows: seq<Account>) {
    forall i, j :: 0 <= i < j < |rows| ==> rows[i].path != rows[j].path
  }

  lemma ColumnGivesRows(k: Keccak, d: nat, leaves: seq<ByteArray>, rows: seq<Account>, q: Path)
    requires |leaves| == Pow2(d) && |q| <= d && Column(AsStates(rows)) == HashColumn(k, d, leaves)
    ensures Unique(rows)
    ensures LastMatch(OnPath(q), rows).Some? && LastMatch(OnPath(q), rows).value.hash == NodeHash(k, d, leaves, q)
  {
    var ps := TreePaths(d);
    forall i | 0 <= i < |rows| ensures rows[i].path == ps[i] && rows[i].hash == HashColumn(k, d, leaves)[i].1 {
      assert Column(AsStates(rows))[i] == HashColumn(k, d, leaves)[i];
    }
    forall i, j | 0 <= i < j < |rows| ensures rows[i].path != rows[j].path {
      PathsDownDistinct(d, 0, i, j);
    }
    var i :| 0 <= i < |ps| && ps[i] == q;
    assert rows[i] in rows;
  }

  lemma ColumnPathsAreShort(k: Keccak, d: nat, leaves: seq<ByteArray>, rows: seq<Account>)
    requires |leaves| == Pow2(d) && Column(AsStates(rows)) == HashColumn(k, d, leaves)
    ensures forall r :: r in rows ==> |r.path| <= d
  {
    forall i | 0 <= i < |rows| ensures |rows[i].path| <= d {
      assert Column(AsStates(rows))[i] == HashColumn(k, d, leaves)[i] && TreePaths(d)[i] in TreePaths(d);
    }
  }

  // ---- What one store does to a row ----

  function PatchAccount(k: Keccak, leaf: Account, wit: seq<ByteArray>, top: nat, r: Account): (t: Account)
    requires |wit| == |leaf.path|
    ensures t.path == r.path
  {
    if top <= |r.path| && r.path <= leaf.path then
      (if r.path == leaf.path && leaf.path != "" then Merge(r, leaf) else r)
        .(hash := Climb(k, leaf.path, leaf.hash, wit, |leaf.path| - |r.path|))
    else r
  }

  function PatchAccounts(k: Keccak, rows: seq<Account>, leaf: Account, wit: seq<ByteArray>, top: nat): (t: seq<Account>)
    requires |wit| == |leaf.path|
    ensures |t| == |rows|
  {
    seq(|rows|, i requires 0 <= i < |rows| => PatchAccount(k, leaf, wit, top, rows[i]))
  }

  /**
    Rewriting both children gives every path the hash that rewriting only the
    changed child gives it in the state tree.
   */
  lemma BothTreesAgree(k: Keccak, accounts: seq<Account>, leaf: Account, states: seq<UserState>, state: UserState,
                       wit: seq<ByteArray>)
    requires Column(AsStates(accounts)) == Column(states)
    requires leaf.path == state.path && leaf.hash == state.hash && |wit| == |leaf.path|
    ensures Column(AsStates(PatchAccounts(k, accounts, leaf, wit, 0)))
      == Column(Patch(k, states, state.path, state.data, state.hash, wit, 0))
  {
    forall i | 0 <= i < |accounts| ensures accounts[i].path == states[i].path && accounts[i].hash == states[i].hash {
      assert Column(AsStates(accounts))[i] == Column(states)[i];
    }
  }

  lemma ColumnAfterStore(k: Keccak, d: nat, leaves: seq<ByteArray>, accounts: seq<Account>, leaf: Account)
    requires |leaves| == Pow2(d) && IsPath(leaf.path) && |leaf.path| == d
    requires Column(AsStates(accounts)) == HashColumn(k, d, leaves)
    ensures Column(AsStates(PatchAccounts(k, accounts, leaf, Witness(k, d, leaves, leaf.path), 0)))
      == HashColumn(k, d, leaves[Val(leaf.path) := leaf.hash])
  {
    var wit := Witness(k, d, leaves, leaf.path);
    forall i | 0 <= i < |accounts|
      ensures Column(AsStates(PatchAccounts(k, accounts, leaf, wit, 0)))[i]
        == HashColumn(k, d, leaves[Val(leaf.path) := leaf.hash])[i]
    {
      ColumnAfterStoreAt(k, d, leaves, accounts, leaf, i);
    }
  }

  lemma ColumnAfterStoreAt(k: Keccak, d: nat, leaves: seq<ByteArray>, accounts: seq<Account>, leaf: Account, i: nat)
    requires |leaves| == Pow2(d) && IsPath(leaf.path) && |leaf.path| == d && i < |accounts|
    requires Column(AsStates(accounts)) == HashColumn(k, d, leaves)
    ensures var r := PatchAccount(k, leaf, Witness(k, d, leaves, leaf.path), 0, accounts[i]);
      (r.path, r.hash) == HashColumn(k, d, leaves[Val(leaf.path) := leaf.hash])[i]
  {
    var q := TreePaths(d)[i];
    assert q in TreePaths(d) && Column(AsStates(accounts))[i] == HashColumn(k, d, leaves)[i];
    PathOfVal(leaf.path);
    var leaves' := leaves[Val(leaf.path) := leaf.hash];
    assert AgreeOutside(d, leaves, leaves', leaf.path);
    hide Climb, NodeHash, Witness, AgreeOutside;
    NodeAfterReplacement(k, d, leaves, leaves', leaf.path, q);
  }

  lemma NodeAfterReplacement(k: Keccak, d: nat, a: seq<ByteArray>, b: seq<ByteArray>, path: Path, q: Path)
    requires |a| == |b| == Pow2(d) && |path| == d && |q| <= d && AgreeOutside(d, a, b, path)
    ensures q <= path ==>
      Climb(k, path, b[Val(path)], Witness(k, d, a, path), |path| - |q|) == NodeHash(k, d, b, q)
    ensures !(q <= path) ==> NodeHash(k, d, a, q) == NodeHash(k, d, b, q)
  {
    if q <= path {
      assert Ancestor(path, |path| - |q|) == q;
      ClimbReachesAncestor(k, d, a, b, path, |path| - |q|);
    } else {
      assert path <= q ==> q == path;
      UnrelatedNodeKeepsHash(k, d, a, b, path, q);
    }
  }

  // ---- The handle ----

  class AccountDB {
    const keccak: Keccak
    const pack: Packing
    var accounts: seq<Account>
    ghost var depth: nat
    ghost var leafHashes: seq<ByteArray>

    ghost predicate Valid()
      reads this
    {
      |leafHashes| == Pow2(depth) && Column(AsStates(accounts)) == HashColumn(keccak, depth, leafHashes)
    }

    method GetAccountSiblings(path: string) returns (siblings: seq<Account>, found: bool)
      ensures found <==>
        forall i | 0 <= i < |path| :: LastMatch(OnPath(GetOtherChild(Ancestor(path, i))), accounts).Some?
      ensures found ==> |siblings| == |path|
      ensures found ==> forall i :: 0 <= i < |path| ==>
        LastMatch(OnPath(GetOtherChild(Ancestor(path, i))), accounts) == Some(siblings[i])
    {
      siblings := [];
      var relative := path;
      var i := |path|;
      while i > 0
        invariant 0 <= i <= |path|
        invariant relative == Ancestor(path, |path| - i)
        invariant |siblings| == |path| - i
        invariant forall j :: 0 <= j < |siblings| ==>
          LastMatch(OnPath(GetOtherChild(Ancestor(path, j))), accounts) == Some(siblings[j])
      {
        var other := LastMatch(OnPath(GetOtherChild(relative)), accounts);
        if other.None? {
          assert LastMatch(OnPath(GetOtherChild(Ancestor(path, |path| - i))), accounts).None?;
          return siblings, false;
        }
        siblings := siblings + [other.value];
        relative := GetParentPath(relative);
        i := i - 1;
      }
      found := true;
    }

    method StoreAccountNode(parentHash: ByteArray, leftNode: Account, rightNode: Account)
      modifies this`accounts
      ensures accounts == UpdateSingleAccount(
        UpdateSingleAccount(UpdateSingleAccount(old(accounts), leftNode, leftNode.path), rightNode, rightNode.path),
        HashOnly(GetParentPath(leftNode.path), parentHash), GetParentPath(leftNode.path))
    {
      accounts := UpdateSingleAccount(accounts, leftNode, leftNode.path);
      accounts := UpdateSingleAccount(accounts, rightNode, rightNode.path);
      var parent := GetParentPath(leftNode.path);
      accounts := UpdateSingleAccount(accounts, HashOnly(parent, parentHash), parent);
    }

    /** A node, its sibling and the parent's hash; the order of the two children does not matter. */
    method StoreFamily(path: Path, i: nat, node: Account, sibling: Account)
      requires i < |path| && node.path == Ancestor(path, i) && sibling.path == GetOtherChild(node.path)
      modifies this`accounts
      ensures accounts == StoredFamily(old(accounts), path, i, node, sibling,
        if GetNthBitFromRight(path, i) == 0 then GetParent(keccak, node.hash, sibling.hash)
        else GetParent(keccak, sibling.hash, node.hash))
    {
      StepsOnNumbers(node.path);
      assert GetParentPath(node.path) == Ancestor(path, i + 1);
      if GetNthBitFromRight(path, i) == 0 {
        StoreAccountNode(GetParent(keccak, node.hash, sibling.hash), node, sibling);
      } else {
        ChildrenCommute(accounts, node, sibling);
        StoreAccountNode(GetParent(keccak, sibling.hash, node.hash), sibling, node);
      }
    }

    method StoreAccountLeaf(leaf: Account, siblings: seq<Account>)
      requires Unique(accounts) && IsPath(leaf.path) && |siblings| == |leaf.path|
      requires forall i | 0 <= i <= |leaf.path| :: LastMatch(OnPath(Ancestor(leaf.path, i)), accounts).Some?
      requires forall i :: 0 <= i < |siblings| ==>
        LastMatch(OnPath(GetOtherChild(Ancestor(leaf.path, i))), accounts) == Some(siblings[i])
      modifies this`accounts
      ensures accounts == PatchAccounts(keccak, old(accounts), leaf, Hashes(AsStates(siblings)), 0)
    {
      hide PatchAccounts, StoredFamily, GetOtherChild, UpdateSingleAccount;
      ghost var rows, wit := accounts, Hashes(AsStates(siblings));
      var computed := leaf;
      StartStore(keccak, rows, leaf, wit);
      for i := 0 to |siblings|
        invariant computed.path == Ancestor(leaf.path, i)
        invariant computed.hash == Climb(keccak, leaf.path, leaf.hash, wit, i)
        invariant i == 0 ==> computed == leaf
        invariant i > 0 ==> computed in accounts
        invariant accounts == PatchAccounts(keccak, rows, leaf, wit, Top(leaf.path, i))
      {
        StoreFamily(leaf.path, i, computed, siblings[i]);
        StoreFamilyStep(keccak, rows, leaf, wit, i, computed, siblings[i]);
        FindPatched(keccak, rows, leaf, wit, Top(leaf.path, i + 1), i + 1);
        computed := LastMatch(OnPath(GetParentPath(computed.path)), accounts).value;
      }
      accounts := UpdateSingleAccount(accounts, HashOnly("", computed.hash), "");
      FinishStore(keccak, rows, leaf, wit);
    }

    /**
      For a leaf path: the leaf's hash is replaced and every other node has the hash
      of the rebuilt tree. For the path of an inner node its root-ward path is
      rewritten. A deeper path is an error, a malformed public key a panic.
     */
    method UpdateAccount(account: Account) returns (out: Outcome)
      requires Valid() && IsPath(account.path)
      modifies this
      ensures depth == old(depth)
      ensures out ==
        if KeyHash(keccak, pack, account.publicKey).None? then Panicked
        else if |account.path| <= depth then Done
        else Failed(RecordNotFound)
      ensures out != Done ==> accounts == old(accounts) && leafHashes == old(leafHashes)
      ensures out == Done ==> old(|leafHashes|) == Pow2(depth)
      ensures out == Done ==>
        accounts == PatchAccounts(keccak, old(accounts),
          account.(hash := KeyHash(keccak, pack, account.publicKey).value),
          Witness(keccak, depth, old(leafHashes), account.path), 0)
      ensures out == Done ==>
        var hash := KeyHash(keccak, pack, account.publicKey).value;
        RowsStored(old(accounts), accounts, if account.path == "" then HashOnly("", hash) else account, hash)
      ensures out == Done && |account.path| == depth ==> Valid()
      ensures out == Done && |account.path| == depth ==>
        leafHashes == old(leafHashes)[Val(account.path) := KeyHash(keccak, pack, account.publicKey).value]
    {
      var hash := KeyHash(keccak, pack, account.publicKey);
      if hash.None? {
        return Panicked;
      }
      var leaf := account.(hash := hash.value);
      var siblings, found := GetAccountSiblings(leaf.path);
      FamilyOfPath(keccak, depth, leafHashes, accounts, leaf.path);
      if !found {
        return Failed(RecordNotFound);
      }
      assert Hashes(AsStates(siblings)) == Witness(keccak, depth, leafHashes, leaf.path);
      hide RowsStored, PatchAccounts, DecodeString, HashColumn, Column, AsStates, Hashes, Witness, LastMatch, KeyHash;
      if |leaf.path| == depth {
        ColumnAfterStore(keccak, depth, leafHashes, accounts, leaf);
      }
      StoreAccountLeaf(leaf, siblings);
      PatchedFields(keccak, old(accounts), account, hash.value, Witness(keccak, depth, leafHashes, leaf.path));
      if |leaf.path| == depth {
        leafHashes := leafHashes[Val(leaf.path) := leaf.hash];
      }
      out := Done;
    }

    // ---- Building the tree ----

    ghost function GenesisAccounts(d: nat, genesis: seq<Account>, first: ByteArray): (t: seq<Account>)
      ensures |t| == |genesis|
    {
      seq(|genesis|, i requires 0 <= i < |genesis| => GenesisAccount(d, i, genesis[i], first))
    }

    ghost function GenesisAccount(d: nat, i: nat, a: Account, first: ByteArray): Account {
      var placed := a.(path := PathOf(i, d), level := d);
      if i == 0 then placed.(hash := first, typ := TYPE_TERMINAL) else placed
    }

    /**
      On an empty table: the given leaves in order, only the first rehashed, and
      over them the tree of their hashes. Read as states, the rows are built on any
      table as in the state tree.
     */
    method InitAccountTree(d: uint64, genesis: seq<Account>) returns (out: Outcome)
      modifies this
      ensures |genesis| != LeafCount(d) ==> out == Failed(LeafCountMismatch)
      ensures |genesis| == LeafCount(d) ==>
        |genesis| > 0 && (KeyHash(keccak, pack, genesis[0].publicKey).None? ==> out == Panicked)
      ensures |genesis| != LeafCount(d) || KeyHash(keccak, pack, genesis[0].publicKey).None? ==>
        accounts == old(accounts)
      ensures |genesis| == LeafCount(d) && KeyHash(keccak, pack, genesis[0].publicKey).Some? ==>
        var leaves := GenesisAccounts(d, genesis, KeyHash(keccak, pack, genesis[0].publicKey).value);
        && old(accounts) + leaves <= accounts
        && ArePlaced(d, genesis, KeyHash(keccak, pack, genesis[0].publicKey).value, leaves)
        && AreInner(accounts[|old(accounts) + leaves|..])
        && Build(AsStates(accounts), out) == BuildFrom(keccak, AsStates(old(accounts) + leaves), d)
        && (old(accounts) == [] ==> out == Done && Valid() && depth == d && leafHashes == Hashes(AsStates(leaves)))
    {
      hide AsStates, BuildFrom, DecodeString, HashColumn, PathOf;
      if LeafCount(d) != |genesis| {
        return Failed(LeafCountMismatch);
      }
      var hash := KeyHash(keccak, pack, genesis[0].publicKey);
      if hash.None? {
        return Panicked;
      }
      var leaves := PlaceAccounts(d, genesis, hash.value);
      ghost var before := accounts;
      accounts := accounts + leaves[..1];
      accounts := accounts + leaves[1..];
      assert accounts == before + leaves;
      out := BuildAccountLevels(d);
      if before == [] {
        assert before + leaves == leaves;
        AccountLeavesBuilt(keccak, d, leaves, accounts, out);
        depth, leafHashes := d, Hashes(AsStates(leaves));
      }
    }

    method PlaceAccounts(d: uint64, genesis: seq<Account>, first: ByteArray) returns (leaves: seq<Account>)
      requires d <= 62 && |genesis| == Pow2(d)
      ensures leaves == GenesisAccounts(d, genesis, first)
    {
      hide GetAdjacentNodePath, PathOf;
      var path := GenCoordinatorPath(d);
      leaves := [genesis[0].(path := path, level := |path|, hash := first, typ := TYPE_TERMINAL)];
      WidthLimit(d);
      for i := 1 to |genesis|
        invariant path == PathOf(i - 1, d)
        invariant |leaves| == i
        invariant forall j :: 0 <= j < i ==> leaves[j] == GenesisAccount(d, j, genesis[j], first)
      {
        NextPath(d, i);
        path := GetAdjacentNodePath(path).value;
        leaves := leaves + [genesis[i].(path := path, level := |path|)];
      }
    }

    method BuildAccountLevels(d: nat) returns (out: Outcome)
      modifies this`accounts
      ensures old(accounts) <= accounts && AreInner(accounts[|old(accounts)|..])
      ensures Build(AsStates(accounts), out) == BuildFrom(keccak, AsStates(old(accounts)), d)
    {
      hide Filter, LevelIs, AtLevel, ParentRows, AsStates;
      var j := d;
      while j > 0
        invariant 0 <= j <= d && old(accounts) <= accounts && AreInner(accounts[|old(accounts)|..])
        invariant BuildFrom(keccak, AsStates(accounts), j) == BuildFrom(keccak, AsStates(old(accounts)), d)
      {
        hide BuildFrom;
        var accs := Filter(AtLevel(j), accounts);
        AccountsOfLevel(accounts, j);
        OneLevelBuilt(keccak, AsStates(accounts), j);
        var next, even := MerkleiseAccounts(accs);
        if !even {
          return Panicked;
        }
        AsStatesConcat(accounts, next);
        accounts := accounts + next;
        j := j - 1;
      }
      out := Done;
    }

    method MerkleiseAccounts(accs: seq<Account>) returns (next: seq<Account>, even: bool)
      ensures even <==> |accs| % 2 == 0
      ensures even ==> AsStates(next) == ParentRows(keccak, AsStates(accs))
      ensures AreInner(next)
    {
      next := [];
      var i := 0;
      while i < |accs|
        invariant 0 <= i <= |accs| && i % 2 == 0
        invariant AsStates(next) == ParentRows(keccak, AsStates(accs))[..i / 2] && AreInner(next)
      {
        if i + 1 >= |accs| {
          return next, false;
        }
        var parentHash := GetParent(keccak, accs[i].hash, accs[i + 1].hash);
        var parent := NewAccountNode(GetParentPath(accs[i].path), parentHash);
        assert AsState(parent) == ParentRow(keccak, AsStates(accs), i / 2);
        AsStatesConcat(next, [parent]);
        next := next + [parent];
        i := i + 2;
      }
      even := true;
    }
  }

  /** Inner rows: no id, no key, not terminal, on the level of their path. */
  predicate AreInner(rows: seq<Account>) {
    forall r :: r in rows ==> r.id == 0 && r.publicKey == "" && r.typ == 2 && r.level == |r.path|
  }

  /** Leaf i keeps its id and key and gets path i; the first leaf alone gets a new hash and type. */
  predicate ArePlaced(d: nat, genesis: seq<Account>, first: ByteArray, leaves: seq<Account>) {
    |leaves| == |genesis| && forall i :: 0 <= i < |leaves| ==>
      && leaves[i].id == genesis[i].id && leaves[i].publicKey == genesis[i].publicKey
      && leaves[i].path == PathOf(i, d) && leaves[i].level == d
      && leaves[i].hash == (if i > 0 then genesis[i].hash else first)
      && leaves[i].typ == (if i > 0 then genesis[i].typ else 1)
  }

  // ---- An account row read as a state row ----

  function AsState(a: Account): UserState {
    UserState(a.id, [], a.path, STATUS_ACTIVE, a.typ, a.hash, a.level, None)
  }

  function AsStates(rows: seq<Account>): (t: seq<UserState>)
    ensures |t| == |rows|
  {
    seq(|rows|, i requires 0 <= i < |rows| => AsState(rows[i]))
  }

  function AtLevel(level: nat): Account -> bool {
    (a: Account) => a.level == level
  }

  lemma AsStatesConcat(a: seq<Account>, b: seq<Account>)
    ensures AsStates(a + b) == AsStates(a) + AsStates(b)
  {
  }

  lemma {:induction false} AccountsOfLevel(rows: seq<Account>, level: nat)
    ensures Filter(LevelIs(level), AsStates(rows)) == AsStates(Filter(AtLevel(level), rows))
  {
    if rows != [] {
      var init, last := rows[..|rows| - 1], rows[|rows| - 1];
      AccountsOfLevel(init, level);
      var states := AsStates(rows);
      assert states[..|states| - 1] == AsStates(init);
      AsStatesConcat(Filter(AtLevel(level), init), if AtLevel(level)(last) then [last] else []);
    }
  }

  lemma AccountLeavesBuilt(k: Keccak, d: nat, leaves: seq<Account>, rows: seq<Account>, out: Outcome)
    requires |leaves| == Pow2(d) && Build(AsStates(rows), out) == BuildFrom(k, AsStates(leaves), d)
    requires forall i :: 0 <= i < |leaves| ==> leaves[i].path == PathOf(i, d) && leaves[i].level == d
    ensures out == Done && Column(AsStates(rows)) == HashColumn(k, d, Hashes(AsStates(leaves)))
  {
    var states := AsStates(leaves);
    assert Hashes(states) == Hashes(AsStates(leaves)) && Placed(d, states);
    assert Column(AsStates(rows)) == Column(AsStates(rows));
    hide *;
    BuiltOnNothing(k, d, states);
    StateTreeHasHashColumn(k, d, states);
  }

  /**
    What storing a leaf makes of row o: the leaf's own row takes every field that is
    not zero, its ancestors a new hash, and any other row stays.
   */
  predicate RowStored(o: Account, r: Account, leaf: Account, hash: ByteArray) {
    && r.path == o.path
    && (r.path != leaf.path ==> r.id == o.id && r.publicKey == o.publicKey && r.typ == o.typ && r.level == o.level)
    && (!(r.path <= leaf.path) ==> r.hash == o.hash)
    && (r.path == leaf.path ==>
          && r.hash == hash
          && r.publicKey == (if leaf.publicKey != "" then leaf.publicKey else o.publicKey)
          && r.id == (if leaf.id != 0 then leaf.id else o.id)
          && r.typ == (if leaf.typ != 0 then leaf.typ else o.typ)
          && r.level == (if leaf.level != 0 then leaf.level else o.level))
  }

  predicate RowsStored(before: seq<Account>, after: seq<Account>, leaf: Account, hash: ByteArray) {
    |after| == |before| && forall i :: 0 <= i < |after| ==> RowStored(before[i], after[i], leaf, hash)
  }

  lemma PatchedFields(k: Keccak, rows: seq<Account>, account: Account, hash: ByteArray, wit: seq<ByteArray>)
    requires |wit| == |account.path|
    ensures RowsStored(rows, PatchAccounts(k, rows, account.(hash := hash), wit, 0),
              if account.path == "" then HashOnly("", hash) else account, hash)
  {
  }

  function StoredFamily(rows: seq<Account>, path: string, i: nat, node: Account, sibling: Account,
                        parentHash: ByteArray): seq<Account>
    requires i < |path|
  {
    UpdateSingleAccount(
      UpdateSingleAccount(UpdateSingleAccount(rows, node, node.path), sibling, sibling.path),
      HashOnly(Ancestor(path, i + 1), parentHash), Ancestor(path, i + 1))
  }

  lemma ChildrenCommute(rows: seq<Account>, a: Account, b: Account)
    requires a.path != b.path
    ensures UpdateSingleAccount(UpdateSingleAccount(rows, a, a.path), b, b.path)
      == UpdateSingleAccount(UpdateSingleAccount(rows, b, b.path), a, a.path)
  {
  }

  lemma StartStore(k: Keccak, rows: seq<Account>, leaf: Account, wit: seq<ByteArray>)
    requires |wit| == |leaf.path|
    ensures Ancestor(leaf.path, 0) == leaf.path
    ensures rows == PatchAccounts(k, rows, leaf, wit, Top(leaf.path, 0))
    ensures forall i | 0 <= i < |leaf.path| :: GetParentPath(Ancestor(leaf.path, i)) == Ancestor(leaf.path, i + 1)
  {
  }

  lemma FinishStore(k: Keccak, rows: seq<Account>, leaf: Account, wit: seq<ByteArray>)
    requires |wit| == |leaf.path|
    ensures UpdateSingleAccount(PatchAccounts(k, rows, leaf, wit, Top(leaf.path, |leaf.path|)),
              HashOnly("", Climb(k, leaf.path, leaf.hash, wit, |leaf.path|)), "")
      == PatchAccounts(k, rows, leaf, wit, 0)
  {
  }

  /** The parent read back is the patched row of the old parent. */
  lemma FindPatched(k: Keccak, rows: seq<Account>, leaf: Account, wit: seq<ByteArray>, top: nat, i: nat)
    requires |wit| == |leaf.path| && 1 <= i <= |leaf.path| && top <= |leaf.path| - i
    requires LastMatch(OnPath(Ancestor(leaf.path, i)), rows).Some?
    ensures var r := LastMatch(OnPath(Ancestor(leaf.path, i)), PatchAccounts(k, rows, leaf, wit, top));
      r.Some? && r.value.hash == Climb(k, leaf.path, leaf.hash, wit, i)
  {
    var q := Ancestor(leaf.path, i);
    var rows' := PatchAccounts(k, rows, leaf, wit, top);
    var j :| 0 <= j < |rows| && rows[j] == LastMatch(OnPath(q), rows).value;
    assert rows'[j] in rows' && rows'[j].path == q;
    var r := LastMatch(OnPath(q), rows').value;
    var m :| 0 <= m < |rows'| && rows'[m] == r;
    assert rows'[m] == PatchAccount(k, leaf, wit, top, rows[m]);
    assert rows[m].path == rows'[m].path == q;
  }

  /** One step of the loop: what the two children's rewrites leave alone. */
  lemma StoreFamilyStep(k: Keccak, rows: seq<Account>, leaf: Account, wit: seq<ByteArray>, i: nat, node: Account,
                        sibling: Account)
    requires Unique(rows) && IsPath(leaf.path) && i < |wit| == |leaf.path|
    requires sibling in rows && sibling.path == GetOtherChild(Ancestor(leaf.path, i))
    requires node.path == Ancestor(leaf.path, i) && node.hash == Climb(k, leaf.path, leaf.hash, wit, i)
    requires if i == 0 then node == leaf else node in PatchAccounts(k, rows, leaf, wit, Top(leaf.path, i))
    ensures StoredFamily(PatchAccounts(k, rows, leaf, wit, Top(leaf.path, i)), leaf.path, i, node, sibling,
              Climb(k, leaf.path, leaf.hash, wit, i + 1))
      == PatchAccounts(k, rows, leaf, wit, Top(leaf.path, i + 1))
  {
    var patched := PatchAccounts(k, rows, leaf, wit, Top(leaf.path, i));
    var s :| 0 <= s < |rows| && rows[s] == sibling;
    SiblingIsUnrelated(leaf.path, i);
    forall j | 0 <= j < |rows|
      ensures MergeAt(MergeAt(MergeAt(patched[j], node, node.path), sibling, sibling.path),
                HashOnly(Ancestor(leaf.path, i + 1), Climb(k, leaf.path, leaf.hash, wit, i + 1)),
                Ancestor(leaf.path, i + 1))
        == PatchAccount(k, leaf, wit, Top(leaf.path, i + 1), rows[j])
    {
      if i > 0 && rows[j].path == node.path {
        var m :| 0 <= m < |rows| && patched[m] == node;
        assert m == j;
      }
      if rows[j].path == sibling.path { assert s == j; }
      StoreFamilyOnRow(k, leaf, wit, i, node, sibling, rows[j]);
    }
  }

  lemma StoreFamilyOnRow(k: Keccak, leaf: Account, wit: seq<ByteArray>, i: nat, node: Account, sibling: Account,
                         r: Account)
    requires IsPath(leaf.path) && i < |wit| == |leaf.path|
    requires sibling.path == GetOtherChild(Ancestor(leaf.path, i)) && !(sibling.path <= leaf.path)
    requires |sibling.path| == |leaf.path| - i
    requires node.path == Ancestor(leaf.path, i) && node.hash == Climb(k, leaf.path, leaf.hash, wit, i)
    requires i == 0 ==> node == leaf
    requires i > 0 && r.path == node.path ==> node == PatchAccount(k, leaf, wit, Top(leaf.path, i), r)
    requires r.path == sibling.path ==> r == sibling
    ensures var patched := PatchAccount(k, leaf, wit, Top(leaf.path, i), r);
      MergeAt(MergeAt(MergeAt(patched, node, node.path), sibling, sibling.path),
              HashOnly(Ancestor(leaf.path, i + 1), Climb(k, leaf.path, leaf.hash, wit, i + 1)),
              Ancestor(leaf.path, i + 1))
      == PatchAccount(k, leaf, wit, Top(leaf.path, i + 1), r)
  {
    if r.path <= leaf.path { assert r.path == Ancestor(leaf.path, |leaf.path| - |r.path|); }
  }

  /** In a tree, a node's ancestors and their siblings are there; a deeper path has no sibling. */
  lemma FamilyOfPath(k: Keccak, d: nat, leaves: seq<ByteArray>, rows: seq<Account>, path: Path)
    requires |leaves| == Pow2(d) && Column(AsStates(rows)) == HashColumn(k, d, leaves)
    ensures Unique(rows)
    ensures |path| <= d ==> forall i | 0 <= i <= |path| :: LastMatch(OnPath(Ancestor(path, i)), rows).Some?
    ensures |path| <= d ==> forall i | 0 <= i < |path| ::
      var r := LastMatch(OnPath(GetOtherChild(Ancestor(path, i))), rows);
      r.Some? && r.value.hash == Witness(k, d, leaves, path)[i]
    ensures |path| > d ==> LastMatch(OnPath(GetOtherChild(Ancestor(path, 0))), rows).None?
  {
    ColumnGivesRows(k, d, leaves, rows, "");
    if |path| <= d {
      forall i | 0 <= i <= |path| ensures LastMatch(OnPath(Ancestor(path, i)), rows).Some? {
        ColumnGivesRows(k, d, leaves, rows, Ancestor(path, i));
      }
      forall i | 0 <= i < |path|
        ensures var r := LastMatch(OnPath(GetOtherChild(Ancestor(path, i))), rows);
          r.Some? && r.value.hash == Witness(k, d, leaves, path)[i]
      {
        SiblingIsUnrelated(path, i);
        ColumnGivesRows(k, d, leaves, rows, GetOtherChild(Ancestor(path, i)));
      }
    } else {
      ColumnPathsAreShort(k, d, leaves, rows);
    }
  }
}
