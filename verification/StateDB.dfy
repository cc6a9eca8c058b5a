/**
  The node's database handle: the operations of core/state.go, core/DepositTree.go
  and core/tx.go on the user_states table, in the order of the source's queries
  and updates.
 */
module StateDB {
  import opened Bytes
  import opened Paths
  import opened MerkleTree
  import opened Queries
  import opened StateTable
  import opened Deposits

  datatype Params = Params(
    stakeAmount: uint64, maxDepth: uint64, maxDepositSubTreeHeight: uint64, finalisationTime: uint64)

  datatype StateMerkleProof = StateMerkleProof(state: UserState, siblings: seq<UserState>)

  /** The state and proof as the contracts take them. */
  datatype SolState = SolState(pubkeyIndex: nat, balance: nat, nonce: nat, tokenType: nat)
  datatype SolProof = SolProof(state: SolState, witnesses: seq<ByteArray>)

  /** The contract call that decodes a state, which may fail. */
  type Decoding = seq<byte> -> Option<SolState>

  method ToABIVersion(decode: Decoding, m: StateMerkleProof) returns (proof: Option<SolProof>)
    ensures proof.Some? <==> decode(m.state.data).Some?
    ensures proof.Some? ==> proof.value == SolProof(decode(m.state.data).value, Hashes(m.siblings))
  {
    var witnesses := [];
    for i := 0 to |m.siblings|
      invariant witnesses == Hashes(m.siblings)[..i]
    {
      witnesses := witnesses + [m.siblings[i].hash];
    }
    var state := decode(m.state.data);
    if state.None? {
      return None;
    }
    proof := Some(SolProof(state.value, witnesses));
  }

  /** One UPDATE ... SET data, hash WHERE path = ?. */
  datatype Write = Write(path: string, data: seq<byte>, hash: ByteArray)

  function ApplyWrites(rows: seq<UserState>, writes: seq<Write>): (t: seq<UserState>)
    ensures |t| == |rows|
  {
    if writes == [] then rows
    else
      var w := writes[|writes| - 1];
      UpdateWherePath(ApplyWrites(rows, writes[..|writes| - 1]), w.path, w.data, w.hash)
  }

  /** Write n of storing a leaf: each node on the way up is written as a parent, then again as a child. */
  function WriteAt(k: Keccak, path: string, data: seq<byte>, leaf: ByteArray, wit: seq<ByteArray>, n: nat): Write
    requires |wit| == |path| && n <= 2 * |path|
  {
    var i := (n + 1) / 2;
    Write(Ancestor(path, i), if n == 0 && path != "" then data else [], Climb(k, path, leaf, wit, i))
  }

  function StoreWrites(k: Keccak, path: string, data: seq<byte>, leaf: ByteArray, wit: seq<ByteArray>): (w: seq<Write>)
    requires |wit| == |path|
    ensures |w| == 2 * |path| + 1
  {
    seq(2 * |path| + 1, n requires 0 <= n <= 2 * |path| => WriteAt(k, path, data, leaf, wit, n))
  }

  /** The writes of an UpdateState on some table. */
  function UpdateWrites(k: Keccak, rows: seq<UserState>, path: string, data: seq<byte>): seq<Write>
    requires HasSiblings(rows, path)
  {
    StoreWrites(k, path, data, k(data), Hashes(SiblingRows(rows, path)))
  }

  class DB {
    const keccak: Keccak
    var states: seq<UserState>
    var params: Option<Params>

    // the leaves and the pending rows that determine the table
    ghost var depth: nat
    ghost var leaves: seq<UserState>
    ghost var pending: seq<UserState>

    // every UPDATE of rows by path that was issued
    ghost var writes: seq<Write>

    /** The table is the tree of the leaves, followed by the pending rows. */
    ghost predicate Valid()
      reads this
    {
      && Placed(depth, leaves) && Waiting(pending)
      && states == TreeRows(keccak, depth, leaves) + pending
      && (params.Some? ==> params.value.maxDepth == depth)
    }

    /** What a query sees; also used for a view of another connection. */
    method GetStateByPath(view: seq<UserState>, path: string) returns (state: Option<UserState>)
      ensures state == Lookup(view, path)
    {
      state := Lookup(view, path);
    }

    // ---- Building the tree ----

    /** The leaves as the genesis loader hands them over, with paths 0, 1, 2, .. */
    ghost function GenesisLeaves(d: nat, genesis: seq<UserState>): (t: seq<UserState>)
      requires |genesis| == Pow2(d)
      ensures Placed(d, t)
    {
      seq(|genesis|, i requires 0 <= i < |genesis| => GenesisLeaf(d, i, genesis[i]))
    }

    ghost function GenesisLeaf(d: nat, i: nat, a: UserState): UserState {
      if i == 0 then a.UpdatePath(PathOf(0, d)).CreateAccountHash(keccak).(typ := TYPE_TERMINAL)
      else a.UpdatePath(PathOf(i, d))
    }

    /**
      On an empty table: exactly the tree of the given leaves. The levels are read
      back from the table, so rows it held before may take part; what becomes of
      any table is BuildFrom.
     */
    method InitStateTree(d: uint64, genesis: seq<UserState>) returns (out: Outcome)
      modifies this
      ensures params == old(params)
      ensures |genesis| != LeafCount(d) ==> out == Failed(LeafCountMismatch) && states == old(states)
      ensures |genesis| == LeafCount(d) ==> |genesis| == Pow2(d)
      ensures |genesis| == LeafCount(d) ==>
        Build(states, out) == BuildFrom(keccak, old(states) + GenesisLeaves(d, genesis), d)
      ensures |genesis| == LeafCount(d) && old(states) == [] ==>
        out == Done && depth == d && pending == [] && leaves == GenesisLeaves(d, genesis)
        && ((params.Some? ==> params.value.maxDepth == d) ==> Valid())
        && states == TreeRows(keccak, d, leaves)
    {
      hide TreeRows, BuildFrom, GenesisLeaf;
      if LeafCount(d) != |genesis| {
        return Failed(LeafCountMismatch);
      }
      var coordinator, records := AssignPaths(d, genesis);
      ghost var before, target := states, GenesisLeaves(d, genesis);
      states := states + [coordinator];
      states := states + records;
      assert states == before + target by { assert states == before + ([coordinator] + records); }
      out := BuildLevels(d);
      if before == [] {
        assert before + target == target;
        BuiltOnNothing(keccak, d, target);
        assert TreeRows(keccak, d, target) + [] == TreeRows(keccak, d, target);
      }
      depth, leaves, pending := d, target, [];
    }

    /** Level by level, from the leaves to the root, reads a level and inserts its parents. */
    method BuildLevels(d: nat) returns (out: Outcome)
      modifies this`states
      ensures Build(states, out) == BuildFrom(keccak, old(states), d)
    {
      hide ParentRows, LevelIs, Filter;
      var level := d;
      while level > 0
        invariant 0 <= level <= d
        invariant BuildFrom(keccak, states, level) == BuildFrom(keccak, old(states), d)
      {
        OneLevelBuilt(keccak, states, level);
        var next;
        next, out := Merkleise(Filter(LevelIs(level), states));
        if out != Done {
          return;
        }
        states := states + next;
        level := level - 1;
      }
      out := Done;
    }

    /** The coordinator leaf goes to the first path, every further leaf to the path after the one before. */
    method AssignPaths(d: uint64, genesis: seq<UserState>) returns (coordinator: UserState, records: seq<UserState>)
      requires d <= 62 && |genesis| == Pow2(d)
      ensures [coordinator] + records == GenesisLeaves(d, genesis)
    {
      hide GetAdjacentNodePath, PathOf;
      var path := GenCoordinatorPath(d);
      coordinator := genesis[0].UpdatePath(path).CreateAccountHash(keccak).(typ := TYPE_TERMINAL);
      records := [];
      WidthLimit(d);
      for i := 1 to |genesis|
        invariant path == PathOf(i - 1, d)
        invariant |records| == i - 1
        invariant forall j :: 0 <= j < |records| ==> records[j] == GenesisLeaf(d, j + 1, genesis[j + 1])
      {
        NextPath(d, i);
        path := GetAdjacentNodePath(path).value;
        records := records + [genesis[i].UpdatePath(path)];
      }
    }

    /** The parents of one level, taking its nodes two at a time; the last of an odd number has no partner. */
    method Merkleise(accs: seq<UserState>) returns (next: seq<UserState>, out: Outcome)
      ensures out == if |accs| % 2 == 0 then Done else Panicked
      ensures out == Done ==> next == ParentRows(keccak, accs)
    {
      next := [];
      var i := 0;
      while i < |accs|
        invariant 0 <= i <= |accs| + 1 && i % 2 == 0
        invariant i <= |accs| && next == ParentRows(keccak, accs)[..i / 2]
      {
        if i + 1 >= |accs| {
          return next, Panicked;
        }
        assert ParentRow(keccak, accs, i / 2) == ParentRows(keccak, accs)[i / 2];
        var parentHash := GetParent(keccak, accs[i].hash, accs[i + 1].hash);
        next := next + [NewStateNode(GetParentPath(accs[i].path), parentHash)];
        i := i + 2;
      }
      out := Done;
    }

    // ---- Updating one leaf ----

    method GetSiblings(path: string) returns (siblings: seq<UserState>, out: Outcome)
      ensures HasSiblings(states, path) ==> out == Done && siblings == SiblingRows(states, path)
      ensures !HasSiblings(states, path) ==> out == Failed(RecordNotFound)
    {
      siblings := [];
      var relative := path;
      var i := |path|;
      while i > 0
        invariant 0 <= i <= |path|
        invariant relative == Ancestor(path, |path| - i)
        invariant |siblings| == |path| - i
        invariant forall j :: 0 <= j < |siblings| ==>
          Lookup(states, GetOtherChild(Ancestor(path, j))) == Some(siblings[j])
      {
        var other := GetStateByPath(states, GetOtherChild(relative));
        if other.None? {
          assert Lookup(states, GetOtherChild(Ancestor(path, |path| - i))).None?;
          return siblings, Failed(RecordNotFound);
        }
        siblings := siblings + [other.value];
        relative := GetParentPath(relative);
        i := i - 1;
      }
      out := Done;
    }

    method UpdateAccount(path: string, data: seq<byte>, hash: ByteArray)
      modifies this`states, this`writes
      ensures states == UpdateWherePath(old(states), path, data, hash)
      ensures writes == old(writes) + [Write(path, data, hash)]
    {
      states := UpdateWherePath(states, path, data, hash);
      writes := writes + [Write(path, data, hash)];
    }

    method StoreNode(parentHash: ByteArray, leftNode: UserState, rightNode: UserState, isLeft: bool)
      modifies this`states, this`writes
      ensures var node := if isLeft then leftNode else rightNode;
        states == UpdateWherePath(UpdateWherePath(old(states), node.path, node.data, node.hash),
                                  GetParentPath(leftNode.path), [], parentHash)
        && writes == old(writes) + [Write(node.path, node.data, node.hash),
                                    Write(GetParentPath(leftNode.path), [], parentHash)]
    {
      if isLeft {
        UpdateAccount(leftNode.path, leftNode.data, leftNode.hash);
      } else {
        UpdateAccount(rightNode.path, rightNode.data, rightNode.hash);
      }
      UpdateAccount(GetParentPath(leftNode.path), [], parentHash);
    }

    /** Writes a node and its parent's hash; the bit of the path says which side the node is on. */
    method StoreWithParent(path: Path, i: nat, node: UserState, sibling: UserState)
      requires i < |path| && node.path == Ancestor(path, i) && sibling.path == GetOtherChild(node.path)
      modifies this`states, this`writes
      ensures var parentHash :=
          if GetNthBitFromRight(path, i) == 0 then GetParent(keccak, node.hash, sibling.hash)
          else GetParent(keccak, sibling.hash, node.hash);
        && states == UpdateWherePath(UpdateWherePath(old(states), Ancestor(path, i), node.data, node.hash),
                                     Ancestor(path, i + 1), [], parentHash)
        && writes == old(writes) + [Write(Ancestor(path, i), node.data, node.hash),
                                    Write(Ancestor(path, i + 1), [], parentHash)]
    {
      StepsOnNumbers(node.path);
      assert GetParentPath(node.path) == Ancestor(path, i + 1);
      if GetNthBitFromRight(path, i) == 0 {
        StoreNode(GetParent(keccak, node.hash, sibling.hash), node, sibling, true);
      } else {
        StoreNode(GetParent(keccak, sibling.hash, node.hash), sibling, node, false);
      }
    }

    method StoreLeaf(state: UserState, path: Path, siblings: seq<UserState>) returns (out: Outcome)
      requires Valid() && |path| <= depth && state.path == path && |siblings| == |path|
      requires forall i :: 0 <= i < |path| ==> siblings[i].path == GetOtherChild(Ancestor(path, i))
      modifies this`states, this`writes
      ensures out == Done
      ensures states == Patch(keccak, old(states), path, state.data, state.hash, Hashes(siblings), 0)
      ensures writes == old(writes) + StoreWrites(keccak, path, state.data, state.hash, Hashes(siblings))
    {
      hide TreeRows, Patch, Witness, Lookup, GetOtherChild, Ancestor, UpdateWherePath, StoreWrites, WriteAt;
      var computed := state;
      ghost var wit, rows := Hashes(siblings), states;
      StoreStart(keccak, rows, path, state.data, state.hash, wit);
      for i := 0 to |siblings|
        invariant computed.path == Ancestor(path, i)
        invariant computed.hash == Climb(keccak, path, state.hash, wit, i)
        invariant computed.data == if i == 0 then state.data else []
        invariant states == Patch(keccak, rows, path, state.data, state.hash, wit, Top(path, i))
        invariant writes == old(writes) + StoreWrites(keccak, path, state.data, state.hash, wit)[..2 * i]
      {
        NextWrites(keccak, path, state.data, state.hash, wit, i);
        StoreWithParent(path, i, computed, siblings[i]);
        StoreStep(keccak, rows, path, state.data, state.hash, wit, i, computed.data);
        PatchedInnerRow(keccak, depth, leaves, pending, path, state.data, state.hash, wit, i + 1);
        var parent := GetStateByPath(states, GetParentPath(computed.path));
        computed := parent.value;
      }
      LastWrite(keccak, path, state.data, state.hash, wit);
      UpdateAccount("", [], computed.hash);
      StoreRoot(keccak, rows, path, state.data, state.hash, wit);
      out := Done;
    }

    /**
      For a leaf path: the leaf is replaced and the table is again the tree of its
      leaves. A path deeper than the tree changes nothing and is reported. For the
      path of an inner node the table stays a tree only if nothing changes.
     */
    method UpdateState(account: UserState) returns (out: Outcome)
      requires Valid() && IsPath(account.path)
      modifies this
      ensures depth == old(depth) && pending == old(pending) && params == old(params)
      ensures out == if |account.path| <= depth then Done else Failed(RecordNotFound)
      ensures out != Done ==> states == old(states) && leaves == old(leaves) && Valid()
      ensures out == Done ==> HasSiblings(old(states), account.path)
      ensures out == Done ==> states == UpdatedTable(keccak, old(states), account.path, account.data)
      ensures out == Done ==> writes == old(writes) + UpdateWrites(keccak, old(states), account.path, account.data)
      ensures old(Placed(depth, leaves))
      ensures |account.path| < depth ==> leaves == old(leaves)
      ensures |account.path| < depth ==>
        (Valid() <==> ChangesNothing(keccak, depth, old(leaves), account.path, account.data))
      ensures |account.path| == depth ==> Valid()
      ensures |account.path| == depth ==> leaves == SetLeaf(keccak, depth, old(leaves), Val(account.path), account.data)
    {
      var hashed := account.CreateAccountHash(keccak);
      var siblings;
      siblings, out := GetSiblings(hashed.path);
      if |account.path| > depth {
        NoSiblingsBelow(keccak, depth, leaves, pending, account.path);
      } else {
        TreeHasSiblings(keccak, depth, leaves, pending, account.path);
      }
      if out != Done {
        return;
      }
      out := StoreLeaf(hashed, hashed.path, siblings);
      if |account.path| == depth {
        IncrementalIsRebuild(keccak, depth, leaves, pending, account.path, account.data);
        leaves := SetLeaf(keccak, depth, leaves, Val(account.path), account.data);
      } else {
        InnerUpdateIsTreeIff(keccak, depth, leaves, pending, account.path, account.data);
      }
    }

    // ---- Transactions ----

    /** The row of a leaf index in some view of the table. */
    method GetStateByIndex(view: seq<UserState>, index: uint64) returns (state: Option<UserState>)
      ensures state == if params.None? then None else Lookup(view, NodePath(index, params.value.maxDepth))
    {
      if params.None? {
        return None;
      }
      var path := SolidityPathToNodePath(index, params.value.maxDepth);
      state := GetStateByPath(view, path);
    }

    /** The index names a leaf. */
    ghost predicate Names(index: uint64)
      reads this
    {
      params.Some? && depth >= 1 && index < Pow2(depth)
    }

    /**
      Runs inside a database transaction, except that the receiver's row is read
      through another connection, which still sees the table of before. Either
      nothing changes, or both leaves are replaced in order; for from == to the
      receiver's data stays.
     */
    method Apply(from: uint64, to: uint64, updatedFrom: seq<byte>, updatedTo: seq<byte>)
      returns (out: Outcome, processed: bool)
      requires Valid()
      modifies this
      ensures Valid() && depth == old(depth) && pending == old(pending) && params == old(params)
      ensures out == if Names(from) && Names(to) then Done else Failed(RecordNotFound)
      ensures processed <==> out == Done
      ensures out != Done ==> states == old(states) && leaves == old(leaves)
      ensures out == Done ==> old(Placed(depth, leaves))
      ensures out == Done ==>
        leaves == SetLeaf(keccak, depth, SetLeaf(keccak, depth, old(leaves), from, updatedFrom), to, updatedTo)
    {
      hide UpdateWrites, StoreWrites, UpdatedTable, HasSiblings, TreeRows, Patch, ChangesNothing, NodePath, Lookup,
        Waiting;
      var committed := states;
      ghost var leavesBefore := leaves;
      processed := false;
      IndexLookup(keccak, depth, leaves, pending, params, from);
      IndexLookup(keccak, depth, leaves, pending, params, to);
      var fromAcc := GetStateByIndex(states, from);
      if fromAcc.None? {
        return Failed(RecordNotFound), false;
      }
      out := UpdateState(fromAcc.value.(data := updatedFrom));
      if out == Done {
        var toAcc := GetStateByIndex(committed, to);
        if toAcc.None? {
          out := Failed(RecordNotFound);
        } else {
          out := UpdateState(toAcc.value.(data := updatedTo));
        }
      }
      processed := out == Done;
      if !processed {
        states, leaves := committed, leavesBefore;
      }
    }

    /** A leaf with its stored siblings. */
    method FetchMPWithID(id: uint64) returns (proof: Option<StateMerkleProof>)
      requires Valid()
      ensures proof.Some? <==> Names(id)
      ensures proof.Some? ==> proof.value.state == leaves[id] && |proof.value.siblings| == depth
      ensures proof.None?
        || FoldRoot(keccak, PathOf(id, depth), proof.value.state.hash, Hashes(proof.value.siblings))
           == NodeHash(keccak, depth, Hashes(leaves), "")
    {
      IndexLookup(keccak, depth, leaves, pending, params, id);
      var leaf := GetStateByIndex(states, id);
      if leaf.None? {
        return None;
      }
      var path: Path := leaf.value.path;
      TreeHasSiblings(keccak, depth, leaves, pending, path);
      var siblings, out := GetSiblings(path);
      proof := Some(StateMerkleProof(leaf.value, siblings));
      ValPathOf(id, depth);
      ClimbReachesAncestor(keccak, depth, Hashes(leaves), Hashes(leaves), path, depth);
      assert Ancestor(path, depth) == "";
    }

    /** WHERE level = 0, scanned into one row. */
    method GetRoot() returns (root: Option<UserState>)
      requires Valid()
      ensures root == Some(RowAt(keccak, depth, leaves, ""))
    {
      var rows := Filter(LevelIs(0), states);
      RootSelected(keccak, depth, leaves, pending);
      root := if rows == [] then None else Some(rows[|rows| - 1]);
    }

    // ---- Deposits ----

    method AddNewPendingAccount(id: nat, data: seq<byte>)
      requires Valid()
      modifies this
      ensures Valid() && depth == old(depth) && params == old(params)
      ensures Ledger(leaves, pending) == Queue(keccak, old(Ledger(leaves, pending)), id, data)
      ensures |states| == |old(states)| + 1 && states[..|old(states)|] == old(states)
      ensures states[|old(states)|] == UserState(id, data, "-1", 0, 1, keccak(data), 2, None)
    {
      var acc := NewPendingUserState(keccak, id, data);
      states := states + [acc];
      pending := pending + [acc];
    }

    method AttachDepositInfo(root: ByteArray)
      requires Valid() && Settled(leaves)
      modifies this
      ensures Valid() && depth == old(depth) && params == old(params)
      ensures Ledger(leaves, pending) == Ready(old(Ledger(leaves, pending)), root)
    {
      AttachSkipsTree(keccak, depth, leaves, pending, root);
      states := Attach(states, root);
      pending := Attach(pending, root);
    }

    method DeletePendingAccount(id: nat)
      requires Valid() && Settled(leaves)
      modifies this
      ensures Valid() && depth == old(depth) && params == old(params) && leaves == old(leaves)
      ensures pending == Filter(KeptBy(id), old(pending))
    {
      DeleteSkipsTree(keccak, depth, leaves, pending, id);
      states := Filter(KeptBy(id), states);
      pending := Filter(KeptBy(id), pending);
    }

    /**
      The first row at the height of a deposit subtree whose hash is that of an
      empty subtree: the leftmost such node, with its siblings. Pending rows sit
      at level 2 of the same table, but none of them can be returned.
     */
    method GetDepositNodeAndSiblings() returns (node: Option<UserState>, siblings: seq<UserState>, out: Outcome)
      requires Valid()
      ensures params.None? ==> out == Failed(RecordNotFound)
      ensures params.Some? && params.value.maxDepositSubTreeHeight >= 100 ==> out == Panicked
      ensures params.Some? && params.value.maxDepositSubTreeHeight < 100 ==>
        (out == if exists q: Path :: DefaultAt(keccak, depth, leaves, params.value.maxDepositSubTreeHeight, q) then Done
                else Failed(RecordNotFound))
      ensures out == Done ==> params.Some? && node.Some?
      ensures out == Done ==>
        LeftmostDefault(keccak, depth, leaves, params.value.maxDepositSubTreeHeight, node.value.path)
      ensures out == Done ==> node.value == RowAt(keccak, depth, leaves, node.value.path)
      ensures out == Done ==> Hashes(siblings) == Witness(keccak, depth, Hashes(leaves), node.value.path)
    {
      hide TreeRows, FirstMatch, LeftmostDefault, DefaultAt, HasSiblings, SiblingRows, Witness, DefaultHash;
      if params.None? {
        return None, [], Failed(RecordNotFound);
      }
      var h := params.value.maxDepositSubTreeHeight;
      var level := (params.value.maxDepth - h) % UINT64;
      var defaults := GenDefaultHashes(keccak, 100);
      if h >= defaults.Length {
        return None, [], Panicked;
      }
      var first := FirstMatch(VacantCandidate(level, defaults[h]), states);
      CandidateIsLeftmost(keccak, depth, leaves, pending, h, level, first);
      if first.None? {
        return None, [], Failed(RecordNotFound);
      }
      node := Some(states[first.value]);
      siblings, out := GetSiblings(node.value.path);
      CandidateHasSiblings(keccak, depth, leaves, pending, node.value.path);
    }

    /**
      The leaf paths below a node, if all of these leaves are empty. For the empty
      prefix the pending rows match as well, after the leaves.
     */
    method GetAllTerminalNodes(prefix: Path) returns (paths: seq<string>, out: Outcome)
      ensures out == if AllZero(Filter(TerminalUnder(prefix), states)) then Done else Failed(NotVacant)
      ensures Valid() && Settled(leaves) ==>
        (out == Done <==>
          (|prefix| <= depth ==> Vacant(depth, Hashes(leaves), prefix)) && AllZero(WaitingUnder(prefix, pending)))
      ensures Valid() && Settled(leaves) && out == Done ==>
        |paths| == LeavesBelow(depth, prefix) + |WaitingUnder(prefix, pending)|
      ensures Valid() && Settled(leaves) && out == Done ==>
        forall i :: 0 <= i < |paths| ==> paths[i] == PathUnder(depth, prefix, i)
    {
      hide TreeRows, Filter, Vacant, First, TerminalUnder, PathOf, Placed, Waiting, Settled, WaitingUnder, LeavesBelow;
      var accounts := Filter(TerminalUnder(prefix), states);
      if Valid() && Settled(leaves) { TerminalFacts(keccak, depth, leaves, pending, prefix); }
      paths := [];
      for i := 0 to |accounts|
        invariant |paths| == i
        invariant forall j :: 0 <= j < i ==> paths[j] == accounts[j].path && accounts[j].hash == ZERO_VALUE_LEAF
      {
        if accounts[i].hash != ZERO_VALUE_LEAF {
          return paths, Failed(NotVacant);
        }
        paths := paths + [accounts[i].path];
      }
      out := Done;
    }

    /** Moves one deposit to leaf n: the tree row takes its data, the pending row goes. */
    method FinaliseOne(account: UserState, path: string, ghost n: nat)
      requires Valid() && Settled(leaves) && n < Pow2(depth) && path == PathOf(n, depth)
      modifies this
      ensures Valid() && Settled(leaves) && depth == old(depth) && params == old(params)
      ensures old(Placed(depth, leaves)) && leaves == SetLeaf(keccak, depth, old(leaves), n, account.data)
      ensures pending == Filter(KeptBy(account.accountID), old(pending))
    {
      ValPathOf(n, depth);
      SetLeafStaysSettled(keccak, depth, leaves, n, account.data);
      var acc := account.(status := STATUS_ACTIVE).UpdatePath(path).CreateAccountHash(keccak);
      var out := UpdateState(acc);
      DeletePendingAccount(acc.accountID);
    }

    method FinaliseDeposits(pathToDepositSubTree: uint64, depositRoot: ByteArray) returns (out: Outcome)
      requires Valid() && Settled(leaves)
      modifies this
      ensures Valid() && Settled(leaves) && depth == old(depth) && params == old(params)
      ensures params.None? ==> out == Failed(RecordNotFound) && leaves == old(leaves) && pending == old(pending)
      ensures params.Some? ==> old(Placed(depth, leaves))
      ensures params.Some? ==>
        out == FinaliseOutcome(depth, old(Ledger(leaves, pending)), pathToDepositSubTree, depositRoot)
      ensures params.None?
        || Ledger(leaves, pending)
           == Finalise(keccak, depth, old(Ledger(leaves, pending)), pathToDepositSubTree, depositRoot)
    {
      hide TreeRows, Filter, Vacant, First, PathOf, NodePath, Placed, Waiting, Moved, Room, SetLeaf, UpdatedTable,
        HasSiblings, IsPath;
      if params.None? {
        return Failed(RecordNotFound);
      }
      ghost var before := Ledger(leaves, pending);
      var accounts := Filter(Stamped(depositRoot), states);
      StampedSkipsTree(keccak, depth, leaves, pending, depositRoot);
      var height := (params.value.maxDepth - 1) % UINT64;
      var sub := SolidityPathToNodePath(pathToDepositSubTree, height);
      SubtreePath(depth, pathToDepositSubTree);
      var terminals;
      terminals, out := GetAllTerminalNodes(sub);
      if out != Done {
        return;
      }
      ghost var accs := Taken(depth, before, pathToDepositSubTree, depositRoot);
      ghost var first := FirstLeaf(depth, pathToDepositSubTree);
      MovedNothing(keccak, depth, before, first);
      assert accs[..0] == [] && accs[..|accs|] == accs;
      for i := 0 to |accounts|
        invariant i <= |accs|
        invariant Valid() && Settled(leaves) && depth == old(depth) && params == old(params)
        invariant Ledger(leaves, pending) == Moved(keccak, depth, before, first, accs[..i])
      {
        if i >= |terminals| {
          return Panicked;
        }
        MovedStep(keccak, depth, before, first, accs, i);
        FinaliseOne(accounts[i], terminals[i], first + i);
      }
      out := Done;
    }

    /** The root after finalising: where deposits were moved, their subtree's root folded with the old siblings. */
    method FinaliseDepositsAndAddBatch(depositRoot: ByteArray, pathToDepositSubTree: uint64)
      returns (root: Option<ByteArray>, out: Outcome)
      requires Valid() && Settled(leaves)
      modifies this
      ensures Valid() && Settled(leaves) && depth == old(depth) && params == old(params) && old(Placed(depth, leaves))
      ensures params.None? ==> out == Failed(RecordNotFound) && leaves == old(leaves) && pending == old(pending)
      ensures params.Some? ==>
        out == FinaliseOutcome(depth, old(Ledger(leaves, pending)), pathToDepositSubTree, depositRoot)
      ensures params.None?
        || Ledger(leaves, pending)
           == Finalise(keccak, depth, old(Ledger(leaves, pending)), pathToDepositSubTree, depositRoot)
      ensures root.Some? <==> out == Done
      ensures out == Done ==> root.value == NodeHash(keccak, depth, Hashes(leaves), "")
      ensures out == Done && Room(depth, pathToDepositSubTree) > 0 ==>
        var accs := Taken(depth, old(Ledger(leaves, pending)), pathToDepositSubTree, depositRoot);
        var sub := PathOf(pathToDepositSubTree, depth - 1);
        root.value == FoldRoot(keccak, sub, MerkleRoot(keccak, 1, DepositHashes(keccak, 1, accs)),
                               Witness(keccak, depth, old(Hashes(leaves)), sub))
    {
      ghost var before := Ledger(leaves, pending);
      root := None;
      out := FinaliseDeposits(pathToDepositSubTree, depositRoot);
      if out != Done {
        return;
      }
      var row := GetRoot();
      root := Some(row.value.hash);
      if Room(depth, pathToDepositSubTree) > 0 {
        RootAfterFinalise(keccak, depth, before, pathToDepositSubTree, depositRoot);
      }
    }
  }

  // ---- Building ----

  const INT_MIN := -0x8000_0000_0000_0000

  /** The number of leaves, a float converted to int: out of range, conversion gives the smallest integer. */
  function LeafCount(d: uint64): int {
    if d <= 62 then Pow2(d) else INT_MIN
  }

  datatype Build = Build(rows: seq<UserState>, out: Outcome)

  /** What the level loop makes of any table. */
  function BuildFrom(k: Keccak, rows: seq<UserState>, level: nat): Build
    decreases level
  {
    if level == 0 then Build(rows, Done)
    else
      var accs := Filter(LevelIs(level), rows);
      if |accs| % 2 == 1 then Build(rows, Panicked)
      else BuildFrom(k, rows + ParentRows(k, accs), level - 1)
  }

  function ParentRow(k: Keccak, accs: seq<UserState>, i: nat): UserState
    requires 2 * i + 1 < |accs|
  {
    NewStateNode(GetParentPath(accs[2 * i].path), GetParent(k, accs[2 * i].hash, accs[2 * i + 1].hash))
  }

  function ParentRows(k: Keccak, accs: seq<UserState>): (parents: seq<UserState>)
    ensures |parents| == |accs| / 2
  {
    seq(|accs| / 2, i requires 0 <= i < |accs| / 2 => ParentRow(k, accs, i))
  }

  /** Rows carry the length of their path as level, as every row the code inserts does. */
  predicate Levelled(rows: seq<UserState>) {
    forall r :: r in rows ==> r.level == |r.path|
  }

  predicate UsesLevels(rows: seq<UserState>, lo: nat, hi: nat) {
    exists r :: r in rows && lo <= r.level <= hi
  }

  lemma OneLevelBuilt(k: Keccak, rows: seq<UserState>, level: nat)
    requires level > 0
    ensures var accs := Filter(LevelIs(level), rows);
      BuildFrom(k, rows, level)
      == if |accs| % 2 == 0 then BuildFrom(k, rows + ParentRows(k, accs), level - 1) else Build(rows, Panicked)
  {
  }

  /** Rows on none of the levels read are not selected. */
  lemma OthersNotSelected(k: Keccak, d: nat, rows: seq<UserState>, leaves: seq<UserState>, level: nat)
    requires Placed(d, leaves) && 1 <= level <= d && !UsesLevels(rows, 1, d)
    ensures Filter(LevelIs(level), rows + RowsDown(k, d, leaves, level)) == LevelRows(k, d, leaves, level)
    ensures ParentRows(k, LevelRows(k, d, leaves, level)) == LevelRows(k, d, leaves, level - 1)
    ensures (rows + RowsDown(k, d, leaves, level)) + LevelRows(k, d, leaves, level - 1)
      == rows + RowsDown(k, d, leaves, level - 1)
    ensures |LevelRows(k, d, leaves, level)| % 2 == 0
  {
    hide RowsDown, LevelRows, Filter;
    LevelStep(k, d, leaves, level);
    FilterConcat(LevelIs(level), rows, RowsDown(k, d, leaves, level));
    FilterAll(LevelIs(level), rows);
    assert [] + LevelRows(k, d, leaves, level) == LevelRows(k, d, leaves, level);
  }

  /** On a table whose rows are on no level read, the tree is added behind them. */
  lemma {:induction false} BuildAdds(k: Keccak, d: nat, rows: seq<UserState>, leaves: seq<UserState>, level: nat)
    requires Placed(d, leaves) && level <= d && !UsesLevels(rows, 1, d)
    ensures BuildFrom(k, rows + RowsDown(k, d, leaves, level), level) == Build(rows + TreeRows(k, d, leaves), Done)
  {
    TreeIsRowsDown(k, d, leaves);
    hide RowsDown, LevelRows, TreeRows, Filter, ParentRows, Placed, UsesLevels;
    if level > 0 {
      hide BuildFrom;
      OthersNotSelected(k, d, rows, leaves, level);
      OneLevelBuilt(k, rows + RowsDown(k, d, leaves, level), level);
      BuildAdds(k, d, rows, leaves, level - 1);
    }
  }

  lemma ParentsAreAbove(k: Keccak, rows: seq<UserState>, level: nat)
    requires Levelled(rows) && level >= 1
    ensures var accs := Filter(LevelIs(level), rows);
      var parents := ParentRows(k, accs);
      && Levelled(rows + parents)
      && Filter(LevelIs(level - 1), rows + parents) == Filter(LevelIs(level - 1), rows) + parents
  {
    var accs := Filter(LevelIs(level), rows);
    var parents := ParentRows(k, accs);
    forall i | 0 <= i < |parents| ensures parents[i].level == |parents[i].path| == level - 1 {
      assert accs[2 * i] in accs;
    }
    hide ParentRows;
    assert forall r :: r in parents ==> r.level == |r.path| == level - 1;
    FilterConcat(LevelIs(level - 1), rows, parents);
    FilterAll(LevelIs(level - 1), parents);
  }

  /** Every level read adds at least half of what is expected there; one row more on any level is never lost. */
  lemma {:induction false} BuildGrows(k: Keccak, rows: seq<UserState>, level: nat, more: bool)
    requires Levelled(rows) && |Filter(LevelIs(level), rows)| >= Pow2(level)
    requires more ==> level > 0 && (|Filter(LevelIs(level), rows)| > Pow2(level) || UsesLevels(rows, 1, level - 1))
    ensures var b := BuildFrom(k, rows, level);
      b.out == Done ==> |b.rows| >= |rows| + Pow2(level) - if more then 0 else 1
    decreases level
  {
    hide Filter, ParentRows, Levelled, UsesLevels, LevelIs;
    var accs := Filter(LevelIs(level), rows);
    if level > 0 && |accs| % 2 == 0 {
      OneLevelBuilt(k, rows, level);
      hide BuildFrom;
      ParentsAreAbove(k, rows, level);
      var stillMore := more && |accs| == Pow2(level);
      if stillMore { NextLevelHasMore(rows, ParentRows(k, accs), level); }
      BuildGrows(k, rows + ParentRows(k, accs), level - 1, stillMore);
    }
  }

  lemma NextLevelHasMore(rows: seq<UserState>, parents: seq<UserState>, level: nat)
    requires level > 0 && UsesLevels(rows, 1, level - 1)
    ensures level > 1 && (|Filter(LevelIs(level - 1), rows)| > 0 || UsesLevels(rows + parents, 1, level - 2))
  {
    var r :| r in rows && 1 <= r.level <= level - 1;
    if r.level == level - 1 {
      assert r in Filter(LevelIs(level - 1), rows);
    } else {
      assert r in rows + parents;
    }
  }

  /**
    Building on a table that is not empty gives the old rows and the tree exactly
    when no old row is on one of the levels 1 to d: not on a tree of positive depth
    built before, nor, from depth 2 on, while deposits are pending on level 2.
   */
  lemma BuildIsTreeIff(k: Keccak, d: nat, rows: seq<UserState>, leaves: seq<UserState>)
    requires Placed(d, leaves) && Levelled(rows)
    ensures BuildFrom(k, rows + leaves, d) == Build(rows + TreeRows(k, d, leaves), Done) <==> !UsesLevels(rows, 1, d)
  {
    LeafLevel(k, d, leaves);
    TreeIsRowsDown(k, d, leaves);
    if UsesLevels(rows, 1, d) {
      var r :| r in rows && 1 <= r.level <= d;
      assert r in rows + leaves;
      LeavesAtDepth(d, rows, leaves);
      if r.level == d { assert r in Filter(LevelIs(d), rows); }
      BuildGrows(k, rows + leaves, d, true);
    } else {
      BuildAdds(k, d, rows, leaves, d);
    }
  }

  lemma BuiltOnNothing(k: Keccak, d: nat, leaves: seq<UserState>)
    requires Placed(d, leaves)
    ensures BuildFrom(k, leaves, d) == Build(TreeRows(k, d, leaves), Done)
  {
    assert Levelled([]) && !UsesLevels([], 1, d);
    hide *;
    BuildIsTreeIff(k, d, [], leaves);
    assert [] + leaves == leaves && [] + TreeRows(k, d, leaves) == TreeRows(k, d, leaves);
  }

  lemma LeavesAtDepth(d: nat, rows: seq<UserState>, leaves: seq<UserState>)
    requires Placed(d, leaves) && Levelled(rows)
    ensures Levelled(rows + leaves)
    ensures Filter(LevelIs(d), rows + leaves) == Filter(LevelIs(d), rows) + leaves
  {
    assert forall r :: r in leaves ==> r.level == |r.path| == d;
    FilterConcat(LevelIs(d), rows, leaves);
    FilterAll(LevelIs(d), leaves);
  }

  // ---- Facts used above ----

  lemma NextPath(d: uint64, i: nat)
    requires d <= 62 && 1 <= i < Pow2(d)
    ensures GetAdjacentNodePath(PathOf(i - 1, d)) == Some(PathOf(i, d))
  {
    WidthLimit(d);
    AdjacentIsSuccessor(i - 1, d);
  }

  lemma LevelSelected(k: Keccak, d: nat, leaves: seq<UserState>, l: nat)
    requires Placed(d, leaves) && l <= d
    ensures Filter(LevelIs(l), RowsDown(k, d, leaves, l)) == LevelRows(k, d, leaves, l)
  {
    var here := LevelRows(k, d, leaves, l);
    FilterAll(LevelIs(l), here);
    if l < d {
      var above := RowsDown(k, d, leaves, l + 1);
      NextLevelDown(k, d, leaves, l);
      FilterAll(LevelIs(l), above);
      FilterConcat(LevelIs(l), above, here);
    }
  }

  lemma LevelStep(k: Keccak, d: nat, leaves: seq<UserState>, level: nat)
    requires Placed(d, leaves) && 1 <= level <= d
    ensures Filter(LevelIs(level), RowsDown(k, d, leaves, level)) == LevelRows(k, d, leaves, level)
    ensures ParentRows(k, LevelRows(k, d, leaves, level)) == LevelRows(k, d, leaves, level - 1)
    ensures RowsDown(k, d, leaves, level - 1) == RowsDown(k, d, leaves, level) + LevelRows(k, d, leaves, level - 1)
  {
    hide *;
    LevelSelected(k, d, leaves, level);
    ParentsOfPairs(k, d, leaves, level);
    NextLevelDown(k, d, leaves, level - 1);
  }

  lemma TreeIsRowsDown(k: Keccak, d: nat, leaves: seq<UserState>)
    requires Placed(d, leaves)
    ensures RowsDown(k, d, leaves, 0) == TreeRows(k, d, leaves)
    ensures RowsDown(k, d, leaves, d) == LevelRows(k, d, leaves, d)
  {
  }

  lemma ParentsOfPairs(k: Keccak, d: nat, leaves: seq<UserState>, level: nat)
    requires Placed(d, leaves) && 1 <= level <= d
    ensures ParentRows(k, LevelRows(k, d, leaves, level)) == LevelRows(k, d, leaves, level - 1)
  {
    assert Pow2(level) == 2 * Pow2(level - 1);
    var here, above := LevelRows(k, d, leaves, level), LevelRows(k, d, leaves, level - 1);
    LevelRowsAt(k, d, leaves, level);
    LevelRowsAt(k, d, leaves, level - 1);
    hide RowAt, PathOf, LevelRows, Placed;
    forall i: nat | i < Pow2(level - 1) ensures above[i] == ParentRow(k, here, i) {
      ParentOfPair(k, d, leaves, level, i);
    }
  }

  lemma LevelRowsAt(k: Keccak, d: nat, leaves: seq<UserState>, l: nat)
    requires Placed(d, leaves) && l <= d
    ensures forall i: nat :: i < Pow2(l) ==> LevelRows(k, d, leaves, l)[i] == RowAt(k, d, leaves, PathOf(i, l))
  {
  }

  lemma ParentOfPair(k: Keccak, d: nat, leaves: seq<UserState>, level: nat, i: nat)
    requires Placed(d, leaves) && 1 <= level <= d && i < Pow2(level - 1)
    ensures var l, r := RowAt(k, d, leaves, PathOf(2 * i, level)), RowAt(k, d, leaves, PathOf(2 * i + 1, level));
      RowAt(k, d, leaves, PathOf(i, level - 1)) == NewStateNode(GetParentPath(l.path), GetParent(k, l.hash, r.hash))
  {
    assert PathOf(2 * i, level) == Child(PathOf(i, level - 1), 0);
    assert PathOf(2 * i + 1, level) == Child(PathOf(i, level - 1), 1);
  }

  /** One step of StoreLeaf, row by row. */
  lemma StoreStep(k: Keccak, rows: seq<UserState>, path: Path, data: seq<byte>, leaf: ByteArray, wit: seq<ByteArray>,
                  i: nat, nodeData: seq<byte>)
    requires i < |wit| == |path| && nodeData == if i == 0 then data else []
    ensures UpdateWherePath(
        UpdateWherePath(Patch(k, rows, path, data, leaf, wit, Top(path, i)),
                        Ancestor(path, i), nodeData, Climb(k, path, leaf, wit, i)),
        Ancestor(path, i + 1), [], Climb(k, path, leaf, wit, i + 1))
      == Patch(k, rows, path, data, leaf, wit, Top(path, i + 1))
  {
    forall j | 0 <= j < |rows|
      ensures UpdateRow(UpdateRow(PatchRow(k, path, data, leaf, wit, Top(path, i), rows[j]),
                          Ancestor(path, i), nodeData, Climb(k, path, leaf, wit, i)),
                Ancestor(path, i + 1), [], Climb(k, path, leaf, wit, i + 1))
           == PatchRow(k, path, data, leaf, wit, Top(path, i + 1), rows[j])
    {
      StoreStepOnRow(k, path, data, leaf, wit, i, nodeData, rows[j]);
    }
  }

  lemma StoreStepOnRow(k: Keccak, path: Path, data: seq<byte>, leaf: ByteArray, wit: seq<ByteArray>,
                       i: nat, nodeData: seq<byte>, r: UserState)
    requires i < |wit| == |path| && nodeData == if i == 0 then data else []
    ensures UpdateRow(UpdateRow(PatchRow(k, path, data, leaf, wit, Top(path, i), r),
                        Ancestor(path, i), nodeData, Climb(k, path, leaf, wit, i)),
              Ancestor(path, i + 1), [], Climb(k, path, leaf, wit, i + 1))
         == PatchRow(k, path, data, leaf, wit, Top(path, i + 1), r)
  {
    if r.path <= path { assert r.path == Ancestor(path, |path| - |r.path|); }
  }

  lemma StoreStart(k: Keccak, rows: seq<UserState>, path: Path, data: seq<byte>, leaf: ByteArray, wit: seq<ByteArray>)
    requires |wit| == |path|
    ensures Ancestor(path, 0) == path && Climb(k, path, leaf, wit, 0) == leaf
    ensures rows == Patch(k, rows, path, data, leaf, wit, Top(path, 0))
    ensures forall i | 0 <= i < |path| :: GetParentPath(Ancestor(path, i)) == Ancestor(path, i + 1)
  {
    forall i | 0 <= i < |rows| ensures PatchRow(k, path, data, leaf, wit, Top(path, 0), rows[i]) == rows[i] {}
  }

  lemma StoreRoot(k: Keccak, rows: seq<UserState>, path: Path, data: seq<byte>, leaf: ByteArray, wit: seq<ByteArray>)
    requires |wit| == |path|
    ensures UpdateWherePath(Patch(k, rows, path, data, leaf, wit, Top(path, |path|)), "", [],
                            Climb(k, path, leaf, wit, |path|))
      == Patch(k, rows, path, data, leaf, wit, 0)
  {
  }

  /** The parent row read back in StoreLeaf carries the hash just written. */
  lemma PatchedInnerRow(k: Keccak, d: nat, leaves: seq<UserState>, pending: seq<UserState>,
                        path: Path, data: seq<byte>, leaf: ByteArray, wit: seq<ByteArray>, i: nat)
    requires Placed(d, leaves) && Waiting(pending) && 1 <= i <= |path| == |wit| <= d
    ensures var rows := Patch(k, TreeRows(k, d, leaves) + pending, path, data, leaf, wit, Top(path, i));
      var r := Lookup(rows, Ancestor(path, i));
      r.Some? && r.value.path == Ancestor(path, i) && r.value.data == [] && r.value.hash == Climb(k, path, leaf, wit, i)
  {
    var rows, q := TreeRows(k, d, leaves) + pending, Ancestor(path, i);
    PathHasRow(k, d, leaves, pending, q);
    var m := LookupPatched(k, rows, path, data, leaf, wit, Top(path, i), q);
    RowOfPath(k, d, leaves, pending, rows[m]);
    InnerRowHasNoData(k, d, leaves, q);
    PatchAncestor(k, path, data, leaf, wit, i, rows[m]);
  }

  lemma InnerRowHasNoData(k: Keccak, d: nat, leaves: seq<UserState>, q: Path)
    requires Placed(d, leaves) && |q| < d
    ensures RowAt(k, d, leaves, q).data == []
  {
  }

  lemma PatchAncestor(k: Keccak, path: Path, data: seq<byte>, leaf: ByteArray, wit: seq<ByteArray>, i: nat,
                      r: UserState)
    requires 1 <= i <= |path| == |wit| && r.path == Ancestor(path, i)
    ensures PatchRow(k, path, data, leaf, wit, Top(path, i), r) == r.(hash := Climb(k, path, leaf, wit, i))
  {
  }

  lemma LookupPatched(k: Keccak, rows: seq<UserState>, path: string, data: seq<byte>, leaf: ByteArray,
                      wit: seq<ByteArray>,
                      top: nat, q: string) returns (m: nat)
    requires |wit| == |path| && exists r :: r in rows && r.path == q
    ensures m < |rows| && rows[m] in rows && rows[m].path == q
    ensures Lookup(Patch(k, rows, path, data, leaf, wit, top), q)
      == Some(PatchRow(k, path, data, leaf, wit, top, rows[m]))
  {
    var rows' := Patch(k, rows, path, data, leaf, wit, top);
    var j :| 0 <= j < |rows| && rows[j].path == q;
    assert rows'[j] in rows' && rows'[j].path == q;
    var r := Lookup(rows', q).value;
    m :| 0 <= m < |rows'| && rows'[m] == r;
    assert rows[m] in rows;
    assert r == PatchRow(k, path, data, leaf, wit, top, rows[m]);
    assert r.path == rows[m].path;
  }

  lemma NoSiblingsBelow(k: Keccak, d: nat, leaves: seq<UserState>, pending: seq<UserState>, path: Path)
    requires Placed(d, leaves) && Waiting(pending) && |path| > d
    ensures !HasSiblings(TreeRows(k, d, leaves) + pending, path)
  {
    var p := GetOtherChild(Ancestor(path, 0));
    assert UNINITIALIZED_PATH[0] == '-' && IsPath(p);
    LookupTree(k, d, leaves, pending, p);
  }

  /** Where an index leads in the table. */
  lemma IndexLookup(k: Keccak, d: nat, leaves: seq<UserState>, pending: seq<UserState>, params: Option<Params>,
                    index: uint64)
    requires Placed(d, leaves) && Waiting(pending) && (params.Some? ==> params.value.maxDepth == d)
    ensures params.None?
      || Lookup(TreeRows(k, d, leaves) + pending, NodePath(index, params.value.maxDepth))
         == if d >= 1 && index < Pow2(d) then Some(leaves[index]) else None
    ensures d >= 1 && index < Pow2(d) ==> leaves[index].path == PathOf(index, d) && Val(PathOf(index, d)) == index
  {
    if index < Pow2(d) { ValPathOf(index, d); }
    if params.Some? {
      var p := NodePath(index, d);
      NodePathIsPath(index, d);
      PendingPathIsNotPath();
      LookupTree(k, d, leaves, pending, p);
    }
  }

  lemma RootSelected(k: Keccak, d: nat, leaves: seq<UserState>, pending: seq<UserState>)
    requires Placed(d, leaves) && Waiting(pending)
    ensures Filter(LevelIs(0), TreeRows(k, d, leaves) + pending) == [RowAt(k, d, leaves, "")]
  {
    LevelSelected(k, d, leaves, 0);
    TreeIsRowsDown(k, d, leaves);
    RootLevel(k, d, leaves);
    PendingNotAtRoot(pending);
    hide *;
    FilterConcat(LevelIs(0), TreeRows(k, d, leaves), pending);
  }

  lemma RootLevel(k: Keccak, d: nat, leaves: seq<UserState>)
    requires Placed(d, leaves)
    ensures LevelRows(k, d, leaves, 0) == [RowAt(k, d, leaves, "")]
  {
    assert LevelPaths(0) == [PathOf(0, 0)];
  }

  lemma PendingNotAtRoot(pending: seq<UserState>)
    requires Waiting(pending)
    ensures Filter(LevelIs(0), pending) == []
  {
    FilterAll(LevelIs(0), pending);
  }

  // ---- Crashes between writes ----

  lemma NextWrites(k: Keccak, path: string, data: seq<byte>, leaf: ByteArray, wit: seq<ByteArray>, i: nat)
    requires i < |path| == |wit|
    ensures var writes := StoreWrites(k, path, data, leaf, wit);
      writes[..2 * (i + 1)] == writes[..2 * i]
        + [Write(Ancestor(path, i), if i == 0 then data else [], Climb(k, path, leaf, wit, i)),
           Write(Ancestor(path, i + 1), [], Climb(k, path, leaf, wit, i + 1))]
  {
    var writes := StoreWrites(k, path, data, leaf, wit);
    assert (2 * i + 1) / 2 == i && (2 * i + 1 + 1) / 2 == i + 1;
    assert writes[2 * i] == WriteAt(k, path, data, leaf, wit, 2 * i);
    assert writes[2 * i + 1] == WriteAt(k, path, data, leaf, wit, 2 * i + 1);
    hide StoreWrites, Climb, Ancestor;
  }

  lemma LastWrite(k: Keccak, path: string, data: seq<byte>, leaf: ByteArray, wit: seq<ByteArray>)
    requires |path| == |wit|
    ensures var writes := StoreWrites(k, path, data, leaf, wit);
      writes == writes[..2 * |path|] + [Write("", [], Climb(k, path, leaf, wit, |path|))]
  {
    assert (2 * |path| + 1) / 2 == |path|;
  }

  /** The length down to which nodes are rewritten after n writes. */
  function TopAfter(path: string, n: nat): nat
    requires n <= 2 * |path| + 1
  {
    if n == 0 then |path| + 1 else |path| - n / 2
  }

  lemma WriteOnRow(k: Keccak, path: string, data: seq<byte>, leaf: ByteArray, wit: seq<ByteArray>, n: nat, r: UserState)
    requires |wit| == |path| && n <= 2 * |path|
    ensures var w := WriteAt(k, path, data, leaf, wit, n);
      UpdateRow(PatchRow(k, path, data, leaf, wit, TopAfter(path, n), r), w.path, w.data, w.hash)
      == PatchRow(k, path, data, leaf, wit, TopAfter(path, n + 1), r)
  {
    hide Climb;
    var i := (n + 1) / 2;
    if r.path <= path { assert r.path == Ancestor(path, |path| - |r.path|); }
    assert n > 0 ==> i == |path| - TopAfter(path, n + 1);
  }

  /** After any number of writes of an update the table is rewritten down from the leaf to some length. */
  lemma {:induction false} PrefixIsPatch(k: Keccak, rows: seq<UserState>, path: string, data: seq<byte>,
                                         leaf: ByteArray, wit: seq<ByteArray>, n: nat)
    requires |wit| == |path| && n <= 2 * |path| + 1
    ensures ApplyWrites(rows, StoreWrites(k, path, data, leaf, wit)[..n])
      == Patch(k, rows, path, data, leaf, wit, TopAfter(path, n))
  {
    var writes := StoreWrites(k, path, data, leaf, wit);
    if n == 0 {
      StartOfWrites(k, rows, path, data, leaf, wit);
    } else {
      PrefixIsPatch(k, rows, path, data, leaf, wit, n - 1);
      assert writes[..n][..n - 1] == writes[..n - 1];
      assert writes[..n][n - 1] == WriteAt(k, path, data, leaf, wit, n - 1);
      hide StoreWrites, WriteAt, TopAfter, Patch;
      OneWrite(k, rows, path, data, leaf, wit, n - 1);
    }
  }

  lemma StartOfWrites(k: Keccak, rows: seq<UserState>, path: string, data: seq<byte>, leaf: ByteArray,
                      wit: seq<ByteArray>)
    requires |wit| == |path|
    ensures Patch(k, rows, path, data, leaf, wit, TopAfter(path, 0)) == rows
  {
    forall j | 0 <= j < |rows| ensures PatchRow(k, path, data, leaf, wit, TopAfter(path, 0), rows[j]) == rows[j] {
    }
  }

  lemma OneWrite(k: Keccak, rows: seq<UserState>, path: string, data: seq<byte>, leaf: ByteArray,
                 wit: seq<ByteArray>, n: nat)
    requires |wit| == |path| && n <= 2 * |path|
    ensures var w := WriteAt(k, path, data, leaf, wit, n);
      UpdateWherePath(Patch(k, rows, path, data, leaf, wit, TopAfter(path, n)), w.path, w.data, w.hash)
      == Patch(k, rows, path, data, leaf, wit, TopAfter(path, n + 1))
  {
    hide PatchRow, WriteAt, TopAfter, UpdateRow;
    var w := WriteAt(k, path, data, leaf, wit, n);
    forall j | 0 <= j < |rows|
      ensures UpdateRow(PatchRow(k, path, data, leaf, wit, TopAfter(path, n), rows[j]), w.path, w.data, w.hash)
        == PatchRow(k, path, data, leaf, wit, TopAfter(path, n + 1), rows[j])
    {
      WriteOnRow(k, path, data, leaf, wit, n, rows[j]);
    }
  }

  /** What a crash after n writes of an update leaves. */
  function Crashed(k: Keccak, rows: seq<UserState>, path: string, data: seq<byte>, n: nat): seq<UserState>
    requires HasSiblings(rows, path) && n <= 2 * |path| + 1
  {
    ApplyWrites(rows, UpdateWrites(k, rows, path, data)[..n])
  }

  lemma CrashedIsPatch(k: Keccak, d: nat, leaves: seq<UserState>, pending: seq<UserState>, path: Path, data: seq<byte>,
                       n: nat)
    requires Placed(d, leaves) && Waiting(pending) && |path| == d && n <= 2 * d + 1
    ensures var rows := TreeRows(k, d, leaves) + pending;
      && HasSiblings(rows, path)
      && Crashed(k, rows, path, data, n)
         == Patch(k, rows, path, data, k(data), Witness(k, d, Hashes(leaves), path), TopAfter(path, n))
  {
    TreeHasSiblings(k, d, leaves, pending, path);
    hide TreeRows, Patch, Witness, StoreWrites, ApplyWrites, HasSiblings, SiblingRows, TopAfter;
    PrefixIsPatch(k, TreeRows(k, d, leaves) + pending, path, data, k(data), Witness(k, d, Hashes(leaves), path), n);
  }

  /** Patching down from the leaf again completes an interrupted patch. */
  lemma PatchedAgain(k: Keccak, rows: seq<UserState>, path: string, data: seq<byte>, leaf: ByteArray,
                     wit: seq<ByteArray>, top: nat)
    requires |wit| == |path|
    ensures Patch(k, Patch(k, rows, path, data, leaf, wit, top), path, data, leaf, wit, 0)
      == Patch(k, rows, path, data, leaf, wit, 0)
  {
    hide Climb;
    forall j | 0 <= j < |rows|
      ensures PatchRow(k, path, data, leaf, wit, 0, PatchRow(k, path, data, leaf, wit, top, rows[j]))
        == PatchRow(k, path, data, leaf, wit, 0, rows[j])
    {
    }
  }

  /** A sibling of the path is never written, so it is read back as it was. */
  lemma SiblingInPatch(k: Keccak, d: nat, leaves: seq<UserState>, pending: seq<UserState>, path: Path, data: seq<byte>,
                       wit: seq<ByteArray>, top: nat, i: nat)
    requires Placed(d, leaves) && Waiting(pending) && i < |path| == |wit| <= d
    ensures Lookup(Patch(k, TreeRows(k, d, leaves) + pending, path, data, k(data), wit, top),
                   GetOtherChild(Ancestor(path, i)))
      == Some(RowAt(k, d, leaves, GetOtherChild(Ancestor(path, i))))
  {
    var rows, s := TreeRows(k, d, leaves) + pending, GetOtherChild(Ancestor(path, i));
    SiblingIsUnrelated(path, i);
    PathHasRow(k, d, leaves, pending, s);
    var m := LookupPatched(k, rows, path, data, k(data), wit, top, s);
    RowOfPath(k, d, leaves, pending, rows[m]);
    hide Patch, TreeRows, Lookup, RowAt;
  }

  lemma SiblingsInPatch(k: Keccak, d: nat, leaves: seq<UserState>, pending: seq<UserState>, path: Path,
                        data: seq<byte>, top: nat)
    requires Placed(d, leaves) && Waiting(pending) && |path| == d
    ensures var wit := Witness(k, d, Hashes(leaves), path);
      var table := Patch(k, TreeRows(k, d, leaves) + pending, path, data, k(data), wit, top);
      HasSiblings(table, path) && Hashes(SiblingRows(table, path)) == wit
  {
    var wit := Witness(k, d, Hashes(leaves), path);
    hide TreeRows, Patch, NodeHash, Waiting, Lookup;
    var table := Patch(k, TreeRows(k, d, leaves) + pending, path, data, k(data), wit, top);
    forall i | 0 <= i < |path|
      ensures Lookup(table, GetOtherChild(Ancestor(path, i)))
        == Some(RowAt(k, d, leaves, GetOtherChild(Ancestor(path, i))))
    {
      SiblingInPatch(k, d, leaves, pending, path, data, wit, top, i);
    }
  }

  /**
    A crash after any number of the row writes of an update is repaired by repeating
    the update: the siblings read are still those of before, and the table is the
    one rebuilt with the leaf replaced.
   */
  lemma RepeatedUpdateRepairs(k: Keccak, d: nat, leaves: seq<UserState>, pending: seq<UserState>, path: Path,
                              data: seq<byte>, n: nat)
    requires Placed(d, leaves) && Waiting(pending) && |path| == d && n <= 2 * d + 1
    ensures HasSiblings(TreeRows(k, d, leaves) + pending, path)
    ensures var crashed := Crashed(k, TreeRows(k, d, leaves) + pending, path, data, n);
      && HasSiblings(crashed, path)
      && UpdatedTable(k, crashed, path, data) == TreeRows(k, d, SetLeaf(k, d, leaves, Val(path), data)) + pending
  {
    var rows, wit := TreeRows(k, d, leaves) + pending, Witness(k, d, Hashes(leaves), path);
    CrashedIsPatch(k, d, leaves, pending, path, data, n);
    TreeHasSiblings(k, d, leaves, pending, path);
    IncrementalIsRebuild(k, d, leaves, pending, path, data);
    var crashed := Crashed(k, rows, path, data, n);
    assert UpdatedTable(k, rows, path, data) == Patch(k, rows, path, data, k(data), wit, 0);
    hide TreeRows, Patch, TopAfter, Crashed, SetLeaf, NodeHash, Placed, Waiting, HasSiblings, SiblingRows, Witness;
    SiblingsInPatch(k, d, leaves, pending, path, data, TopAfter(path, n));
    PatchedAgain(k, rows, path, data, k(data), wit, TopAfter(path, n));
  }

  /** Equal hashes at one node of the path are equal all the way up. */
  lemma {:induction false} EqualAbove(k: Keccak, d: nat, a: seq<ByteArray>, b: seq<ByteArray>, path: Path,
                                      i: nat, j: nat)
    requires |a| == |b| == Pow2(d) && AgreeOutside(d, a, b, path) && i <= j <= |path| <= d
    requires NodeHash(k, d, a, Ancestor(path, i)) == NodeHash(k, d, b, Ancestor(path, i))
    ensures NodeHash(k, d, a, Ancestor(path, j)) == NodeHash(k, d, b, Ancestor(path, j))
  {
    if i < j {
      EqualAbove(k, d, a, b, path, i, j - 1);
      SiblingIsUnrelated(path, j - 1);
      UnrelatedNodeKeepsHash(k, d, a, b, path, GetOtherChild(Ancestor(path, j - 1)));
      ChildrenOfAncestor(path, j);
    }
  }

  /** The first node on the way up that a crash after n writes leaves unwritten. */
  function FirstStale(path: Path, n: nat): Path
    requires n < 2 * |path|
  {
    Ancestor(path, n / 2 + 1)
  }

  lemma CrashedRow(k: Keccak, d: nat, leaves: seq<UserState>, path: Path, data: seq<byte>, n: nat, q: Path)
    requires Placed(d, leaves) && |path| == d && 1 <= n < 2 * d && |q| <= d
    requires var stale := FirstStale(path, n);
      NodeHash(k, d, Hashes(leaves), stale) == NodeHash(k, d, Hashes(SetLeaf(k, d, leaves, Val(path), data)), stale)
    ensures PatchRow(k, path, data, k(data), Witness(k, d, Hashes(leaves), path), TopAfter(path, n),
                     RowAt(k, d, leaves, q))
      == RowAt(k, d, SetLeaf(k, d, leaves, Val(path), data), q)
  {
    PatchedTreeRow(k, d, leaves, path, data, q);
    SetLeafHashes(k, d, leaves, path, data);
    if q <= path && |q| < TopAfter(path, n) {
      assert Ancestor(path, |path| - |q|) == q;
      EqualAbove(k, d, Hashes(leaves), Hashes(SetLeaf(k, d, leaves, Val(path), data)), path, n / 2 + 1, |path| - |q|);
    }
  }

  lemma CrashedLooksComplete(k: Keccak, d: nat, leaves: seq<UserState>, pending: seq<UserState>, path: Path,
                             data: seq<byte>, n: nat)
    requires Placed(d, leaves) && Waiting(pending) && |path| == d && 1 <= n < 2 * d
    requires var stale := FirstStale(path, n);
      NodeHash(k, d, Hashes(leaves), stale) == NodeHash(k, d, Hashes(SetLeaf(k, d, leaves, Val(path), data)), stale)
    ensures var wit := Witness(k, d, Hashes(leaves), path);
      Patch(k, TreeRows(k, d, leaves) + pending, path, data, k(data), wit, TopAfter(path, n))
      == TreeRows(k, d, SetLeaf(k, d, leaves, Val(path), data)) + pending
  {
    var leaves', wit := SetLeaf(k, d, leaves, Val(path), data), Witness(k, d, Hashes(leaves), path);
    var tree, top := TreeRows(k, d, leaves), TopAfter(path, n);
    CrashedTree(k, d, leaves, path, data, n);
    forall i | 0 <= i < |pending| ensures PatchRow(k, path, data, k(data), wit, top, pending[i]) == pending[i] {
      PendingNotPatched(k, path, data, k(data), wit, top, pending, pending[i]);
    }
    assert Patch(k, pending, path, data, k(data), wit, top) == pending;
    hide *;
    PatchBoth(k, tree, pending, path, data, k(data), wit, top);
  }

  lemma PatchBoth(k: Keccak, a: seq<UserState>, b: seq<UserState>, path: string, data: seq<byte>, leaf: ByteArray,
                  wit: seq<ByteArray>, top: nat)
    requires |wit| == |path|
    ensures Patch(k, a + b, path, data, leaf, wit, top)
      == Patch(k, a, path, data, leaf, wit, top) + Patch(k, b, path, data, leaf, wit, top)
  {
    hide PatchRow;
  }

  lemma CrashedTree(k: Keccak, d: nat, leaves: seq<UserState>, path: Path, data: seq<byte>, n: nat)
    requires Placed(d, leaves) && |path| == d && 1 <= n < 2 * d
    requires var stale := FirstStale(path, n);
      NodeHash(k, d, Hashes(leaves), stale) == NodeHash(k, d, Hashes(SetLeaf(k, d, leaves, Val(path), data)), stale)
    ensures Patch(k, TreeRows(k, d, leaves), path, data, k(data), Witness(k, d, Hashes(leaves), path),
                  TopAfter(path, n))
      == TreeRows(k, d, SetLeaf(k, d, leaves, Val(path), data))
  {
    hide PatchRow, RowAt, Witness, TopAfter, FirstStale, NodeHash;
    forall q | q in TreePaths(d)
      ensures PatchRow(k, path, data, k(data), Witness(k, d, Hashes(leaves), path), TopAfter(path, n),
                       RowAt(k, d, leaves, q))
        == RowAt(k, d, SetLeaf(k, d, leaves, Val(path), data), q)
    {
      CrashedRow(k, d, leaves, path, data, n, q);
    }
  }

  lemma PendingNotPatched(k: Keccak, path: Path, data: seq<byte>, leaf: ByteArray, wit: seq<ByteArray>, top: nat,
                          pending: seq<UserState>, r: UserState)
    requires |wit| == |path| && Waiting(pending) && r in pending
    ensures PatchRow(k, path, data, leaf, wit, top, r) == r
  {
    assert UNINITIALIZED_PATH[0] == '-';
  }

  /** The leaf rows tell which tree it would be, and then the first unwritten row which hash it would need. */
  lemma CrashedNeedsEqual(k: Keccak, d: nat, leaves: seq<UserState>, pending: seq<UserState>, path: Path,
                          data: seq<byte>, n: nat, leaves': seq<UserState>, pending': seq<UserState>)
    requires Placed(d, leaves) && Placed(d, leaves') && |path| == d && 1 <= n < 2 * d
    requires var wit := Witness(k, d, Hashes(leaves), path);
      Patch(k, TreeRows(k, d, leaves) + pending, path, data, k(data), wit, TopAfter(path, n))
      == TreeRows(k, d, leaves') + pending'
    ensures leaves' == SetLeaf(k, d, leaves, Val(path), data)
    ensures NodeHash(k, d, Hashes(leaves), FirstStale(path, n)) == NodeHash(k, d, Hashes(leaves'), FirstStale(path, n))
  {
    var wit, top := Witness(k, d, Hashes(leaves), path), TopAfter(path, n);
    var tree, tree' := TreeRows(k, d, leaves), TreeRows(k, d, leaves');
    SplitTree(k, d, leaves);
    SplitTree(k, d, leaves');
    PathOfVal(path);
    var stale := FirstStale(path, n);
    PathAtPosition(d, 0, stale);
    var m := Position(d, stale);
    assert tree[m] == RowAt(k, d, leaves, stale) && tree'[m] == RowAt(k, d, leaves', stale);
    hide TreeRows, Witness, RowAt, NodeHash, Position;
    assert PatchRow(k, path, data, k(data), wit, top, tree[m]) == tree[m];
    assert (tree + pending)[m] == tree[m] && (tree' + pending')[m] == tree'[m];
    forall i | 0 <= i < Pow2(d) ensures leaves'[i] == SetLeaf(k, d, leaves, Val(path), data)[i] {
      assert (tree + pending)[i] == leaves[i] && (tree' + pending')[i] == leaves'[i];
      CrashedLeafRow(k, d, leaves, path, data, wit, top, i);
    }
  }

  lemma CrashedLeafRow(k: Keccak, d: nat, leaves: seq<UserState>, path: Path, data: seq<byte>, wit: seq<ByteArray>,
                       top: nat, i: nat)
    requires Placed(d, leaves) && |path| == |wit| == d && 1 <= top <= d && i < Pow2(d)
    ensures PatchRow(k, path, data, k(data), wit, top, leaves[i]) == SetLeaf(k, d, leaves, Val(path), data)[i]
  {
    hide Pow2, Climb;
    PathOfVal(path);
    ValPathOf(i, d);
    assert leaves[i].path == PathOf(i, d);
    if leaves[i].path <= path {
      assert leaves[i].path == path;
      assert Climb(k, path, k(data), wit, 0) == k(data) by { ClimbNothing(k, path, k(data), wit); }
    }
  }

  lemma ClimbNothing(k: Keccak, path: string, leaf: ByteArray, wit: seq<ByteArray>)
    ensures Climb(k, path, leaf, wit, 0) == leaf
  {
  }

  /**
    What a crash leaves between the first and the last write is the tree of some
    leaves exactly when the first unwritten node would have kept its hash.
   */
  lemma CrashedIsTreeIff(k: Keccak, d: nat, leaves: seq<UserState>, pending: seq<UserState>, path: Path,
                         data: seq<byte>, n: nat)
    requires Placed(d, leaves) && Waiting(pending) && |path| == d && 1 <= n < 2 * d
    ensures HasSiblings(TreeRows(k, d, leaves) + pending, path)
    ensures var stale := FirstStale(path, n);
      IsTreeTable(k, d, Crashed(k, TreeRows(k, d, leaves) + pending, path, data, n)) <==>
      NodeHash(k, d, Hashes(leaves), stale) == NodeHash(k, d, Hashes(SetLeaf(k, d, leaves, Val(path), data)), stale)
  {
    CrashedIsPatch(k, d, leaves, pending, path, data, n);
    var rows, stale := TreeRows(k, d, leaves) + pending, FirstStale(path, n);
    var crashed := Crashed(k, rows, path, data, n);
    hide TreeRows, Crashed, Patch, NodeHash, Placed, SetLeaf, FirstStale, TopAfter, Waiting;
    if IsTreeTable(k, d, crashed) {
      var leaves', pending' :| Placed(d, leaves') && Waiting(pending') && crashed == TreeRows(k, d, leaves') + pending';
      CrashedNeedsEqual(k, d, leaves, pending, path, data, n, leaves', pending');
    }
    var leaves' := SetLeaf(k, d, leaves, Val(path), data);
    if NodeHash(k, d, Hashes(leaves), stale) == NodeHash(k, d, Hashes(leaves'), stale) {
      CrashedLooksComplete(k, d, leaves, pending, path, data, n);
    }
  }

  /**
    But a finalisation that crashed in the middle is not repeated: as soon as the
    first row write is done, the leaf is no longer empty and the same
    finalisation, delivered again, is refused by the query for empty leaves.
   */
  lemma CrashedFinalisationIsRefused(k: Keccak, d: nat, leaves: seq<UserState>, pending: seq<UserState>, path: Path,
                                     data: seq<byte>, n: nat, node: Path)
    requires Placed(d, leaves) && Waiting(pending) && Settled(leaves) && |path| == d && 1 <= n <= 2 * d + 1
    requires node <= path && k(data) != ZERO_VALUE_LEAF
    ensures HasSiblings(TreeRows(k, d, leaves) + pending, path)
    ensures !AllZero(Filter(TerminalUnder(node), Crashed(k, TreeRows(k, d, leaves) + pending, path, data, n)))
  {
    var rows, wit := TreeRows(k, d, leaves) + pending, Witness(k, d, Hashes(leaves), path);
    CrashedIsPatch(k, d, leaves, pending, path, data, n);
    var crashed := Crashed(k, rows, path, data, n);
    PathOfVal(path);
    SplitTree(k, d, leaves);
    var m := Val(path);
    assert rows[m] == leaves[m] && leaves[m] in leaves;
    hide TreeRows, Crashed, Filter, Placed;
    assert crashed[m] == PatchRow(k, path, data, k(data), wit, TopAfter(path, n), leaves[m]);
    assert crashed[m].hash == k(data) && TerminalUnder(node)(crashed[m]);
    var found := Filter(TerminalUnder(node), crashed);
    assert crashed[m] in found;
    var j :| 0 <= j < |found| && found[j] == crashed[m];
  }

  // ---- Updating an inner node ----

  /** A table that is the tree of some leaves, followed by pending rows. */
  ghost predicate IsTreeTable(k: Keccak, d: nat, rows: seq<UserState>) {
    exists leaves, pending :: Placed(d, leaves) && Waiting(pending) && rows == TreeRows(k, d, leaves) + pending
  }

  /** The update writes the hash that is there; data is skipped if empty, and at the root always. */
  predicate ChangesNothing(k: Keccak, d: nat, leaves: seq<UserState>, path: Path, data: seq<byte>)
    requires Placed(d, leaves) && |path| <= d
  {
    (data == [] || path == "") && k(data) == NodeHash(k, d, Hashes(leaves), path)
  }

  lemma UnchangedRow(k: Keccak, d: nat, leaves: seq<UserState>, pending: seq<UserState>, path: Path, data: seq<byte>,
                     r: UserState)
    requires Placed(d, leaves) && Waiting(pending) && |path| <= d && ChangesNothing(k, d, leaves, path, data)
    requires r in TreeRows(k, d, leaves) + pending
    ensures PatchRow(k, path, data, k(data), Witness(k, d, Hashes(leaves), path), 0, r) == r
  {
    RowOfPath(k, d, leaves, pending, r);
    if IsPath(r.path) {
      UnchangedNode(k, d, leaves, path, data, r.path);
    } else {
      assert r.path == UNINITIALIZED_PATH && UNINITIALIZED_PATH[0] == '-';
    }
  }

  lemma UnchangedNode(k: Keccak, d: nat, leaves: seq<UserState>, path: Path, data: seq<byte>, q: Path)
    requires Placed(d, leaves) && |path| <= d && |q| <= d && ChangesNothing(k, d, leaves, path, data)
    ensures PatchRow(k, path, data, k(data), Witness(k, d, Hashes(leaves), path), 0, RowAt(k, d, leaves, q))
      == RowAt(k, d, leaves, q)
  {
    assert AgreeOutside(d, Hashes(leaves), Hashes(leaves), path);
    hide Placed, NodeHash, Witness, Climb, RowAt, Pow2, AgreeOutside;
    if q <= path {
      assert Ancestor(path, |path| - |q|) == q;
      ClimbReachesAncestor(k, d, Hashes(leaves), Hashes(leaves), path, |path| - |q|);
    }
  }

  lemma UnchangedTable(k: Keccak, d: nat, leaves: seq<UserState>, pending: seq<UserState>, path: Path, data: seq<byte>)
    requires Placed(d, leaves) && Waiting(pending) && |path| <= d && ChangesNothing(k, d, leaves, path, data)
    ensures var rows := TreeRows(k, d, leaves) + pending;
      Patch(k, rows, path, data, k(data), Witness(k, d, Hashes(leaves), path), 0) == rows
  {
    var rows := TreeRows(k, d, leaves) + pending;
    hide TreeRows, PatchRow, Waiting, ChangesNothing, Witness;
    forall i | 0 <= i < |rows|
      ensures PatchRow(k, path, data, k(data), Witness(k, d, Hashes(leaves), path), 0, rows[i]) == rows[i]
    {
      assert rows[i] in rows;
      UnchangedRow(k, d, leaves, pending, path, data, rows[i]);
    }
  }

  /** The leaf rows are not rewritten, so the only tree the result can be is the old one. */
  lemma SameLeaves(k: Keccak, d: nat, leaves: seq<UserState>, pending: seq<UserState>, path: Path, data: seq<byte>,
                   wit: seq<ByteArray>, leaves': seq<UserState>, pending': seq<UserState>)
    requires Placed(d, leaves) && Placed(d, leaves') && |path| < d && |wit| == |path|
    requires Patch(k, TreeRows(k, d, leaves) + pending, path, data, k(data), wit, 0)
      == TreeRows(k, d, leaves') + pending'
    ensures leaves' == leaves
  {
    var rows, rows' := TreeRows(k, d, leaves) + pending, TreeRows(k, d, leaves') + pending';
    SplitTree(k, d, leaves);
    SplitTree(k, d, leaves');
    hide TreeRows, Climb;
    forall i | 0 <= i < Pow2(d) ensures leaves'[i] == leaves[i] {
      assert rows[i] == leaves[i] && rows'[i] == leaves'[i];
      assert rows'[i] == PatchRow(k, path, data, k(data), wit, 0, rows[i]);
    }
  }

  /** Updating an inner node leaves a tree, of whatever leaves, exactly when it changes nothing. */
  lemma InnerUpdateIsTreeIff(k: Keccak, d: nat, leaves: seq<UserState>, pending: seq<UserState>, path: Path,
                             data: seq<byte>)
    requires Placed(d, leaves) && Waiting(pending) && |path| < d
    ensures HasSiblings(TreeRows(k, d, leaves) + pending, path)
    ensures var rows := TreeRows(k, d, leaves) + pending;
      var table := UpdatedTable(k, rows, path, data);
      && (IsTreeTable(k, d, table) <==> ChangesNothing(k, d, leaves, path, data))
      && (ChangesNothing(k, d, leaves, path, data) ==> table == rows)
  {
    var rows, wit := TreeRows(k, d, leaves) + pending, Witness(k, d, Hashes(leaves), path);
    TreeHasSiblings(k, d, leaves, pending, path);
    var table := Patch(k, rows, path, data, k(data), wit, 0);
    assert table == UpdatedTable(k, rows, path, data);
    hide TreeRows, Patch, Witness, NodeHash, Climb, Waiting;
    if ChangesNothing(k, d, leaves, path, data) {
      UnchangedTable(k, d, leaves, pending, path, data);
    } else if IsTreeTable(k, d, table) {
      var leaves', pending' :| Placed(d, leaves') && Waiting(pending') && table == TreeRows(k, d, leaves') + pending';
      SameLeaves(k, d, leaves, pending, path, data, wit, leaves', pending');
      RewrittenNode(k, d, leaves, pending, path, data, wit, pending');
    }
  }

  /** The row of the path itself shows the new hash and data. */
  lemma RewrittenNode(k: Keccak, d: nat, leaves: seq<UserState>, pending: seq<UserState>, path: Path, data: seq<byte>,
                      wit: seq<ByteArray>, pending': seq<UserState>)
    requires Placed(d, leaves) && |path| < d && |wit| == |path|
    requires Patch(k, TreeRows(k, d, leaves) + pending, path, data, k(data), wit, 0)
      == TreeRows(k, d, leaves) + pending'
    ensures ChangesNothing(k, d, leaves, path, data)
  {
    var tree := TreeRows(k, d, leaves);
    PathAtPosition(d, 0, path);
    var i := Position(d, path);
    assert tree[i] == RowAt(k, d, leaves, path);
    assert (tree + pending)[i] == tree[i] == (tree + pending')[i];
    assert Patch(k, tree + pending, path, data, k(data), wit, 0)[i]
      == PatchRow(k, path, data, k(data), wit, 0, tree[i]);
    InnerRowHasNoData(k, d, leaves, path);
  }

  // ---- Choosing a vacant subtree ----

  predicate DefaultAt(k: Keccak, d: nat, leaves: seq<UserState>, h: nat, q: Path)
    requires Placed(d, leaves)
  {
    h <= d && |q| == d - h && NodeHash(k, d, Hashes(leaves), q) == DefaultHash(k, h)
  }

  function VacantCandidate(level: nat, hash: ByteArray): UserState -> bool {
    (r: UserState) => r.level == level && r.hash == hash
  }

  /** Where a node's row is in the table. */
  function Position(d: nat, q: Path): nat
    requires |q| <= d
  {
    Pow2Monotonic(|q|, d);
    2 * Pow2(d) - 2 * Pow2(|q|) + Val(q)
  }

  lemma {:induction false} PathAtPosition(d: nat, l: nat, q: Path)
    requires l <= |q| <= d
    ensures Position(d, q) < |PathsDown(d, l)| && PathsDown(d, l)[Position(d, q)] == q
    decreases d - l
  {
    PathOfVal(q);
    if l < |q| { PathAtPosition(d, l + 1, q); }
  }

  lemma PositionOfPath(d: nat, i: nat)
    requires i < |TreePaths(d)|
    ensures |TreePaths(d)[i]| <= d && Position(d, TreePaths(d)[i]) == i
  {
    var q := TreePaths(d)[i];
    assert q in TreePaths(d);
    PathAtPosition(d, 0, q);
    var j := Position(d, q);
    if i < j { PathsDownDistinct(d, 0, i, j); }
    if j < i { PathsDownDistinct(d, 0, j, i); }
  }

  ghost predicate LeftmostDefault(k: Keccak, d: nat, leaves: seq<UserState>, h: nat, p: string)
    requires Placed(d, leaves)
  {
    && IsPath(p) && DefaultAt(k, d, leaves, h, p)
    && forall q: Path | DefaultAt(k, d, leaves, h, q) :: Val(p) <= Val(q)
  }

  lemma DefaultIsCandidate(k: Keccak, d: nat, leaves: seq<UserState>, pending: seq<UserState>, h: nat, q: Path)
    requires Placed(d, leaves) && DefaultAt(k, d, leaves, h, q)
    ensures var i := Position(d, q);
      i < |TreeRows(k, d, leaves)| && VacantCandidate(d - h, DefaultHash(k, h))((TreeRows(k, d, leaves) + pending)[i])
  {
    PathAtPosition(d, 0, q);
    assert TreeRows(k, d, leaves)[Position(d, q)] == RowAt(k, d, leaves, q);
  }

  lemma TreeRowAt(k: Keccak, d: nat, leaves: seq<UserState>, i: nat)
    requires Placed(d, leaves) && i < |TreeRows(k, d, leaves)|
    ensures var r := TreeRows(k, d, leaves)[i];
      IsPath(r.path) && |r.path| <= d && Position(d, r.path) == i && r == RowAt(k, d, leaves, r.path)
  {
    PositionOfPath(d, i);
  }

  lemma LevelOfHeight(d: uint64, h: nat)
    requires h < 100
    ensures (d - h) % UINT64 == if h <= d then d - h else d - h + UINT64
  {
  }

  lemma CandidateIsLeftmost(k: Keccak, d: uint64, leaves: seq<UserState>, pending: seq<UserState>, h: nat, level: nat,
                            first: Option<nat>)
    requires Placed(d, leaves) && Waiting(pending) && h < 100 && level == (d - h) % UINT64
    requires first == FirstMatch(VacantCandidate(level, DefaultHash(k, h)), TreeRows(k, d, leaves) + pending)
    ensures first.None? ==> forall q: Path :: !DefaultAt(k, d, leaves, h, q)
    ensures first.Some? ==>
      var p := (TreeRows(k, d, leaves) + pending)[first.value].path;
      (LeftmostDefault(k, d, leaves, h, p) && IsPath(p) && DefaultAt(k, d, leaves, h, p) && |p| <= d
        && (TreeRows(k, d, leaves) + pending)[first.value] == RowAt(k, d, leaves, p))
      || (p == UNINITIALIZED_PATH && forall q: Path :: !DefaultAt(k, d, leaves, h, q))
  {
    hide TreeRows, RowAt, NodeHash, DefaultHash;
    LevelOfHeight(d, h);
    forall q: Path | DefaultAt(k, d, leaves, h, q)
      ensures first.Some? && first.value <= Position(d, q) < |TreeRows(k, d, leaves)|
    {
      DefaultIsCandidate(k, d, leaves, pending, h, q);
    }
    if first.Some? {
      var i := first.value;
      if i < |TreeRows(k, d, leaves)| {
        TreeRowAt(k, d, leaves, i);
      } else {
        assert (TreeRows(k, d, leaves) + pending)[i] == pending[i - |TreeRows(k, d, leaves)|];
      }
    }
  }

  lemma CandidateHasSiblings(k: Keccak, d: nat, leaves: seq<UserState>, pending: seq<UserState>, p: string)
    requires Placed(d, leaves) && Waiting(pending)
    ensures var rows := TreeRows(k, d, leaves) + pending;
      && (IsPath(p) && |p| <= d ==>
            HasSiblings(rows, p) && Hashes(SiblingRows(rows, p)) == Witness(k, d, Hashes(leaves), p))
      && !IsPath(UNINITIALIZED_PATH) && !HasSiblings(rows, UNINITIALIZED_PATH)
  {
    if IsPath(p) && |p| <= d { TreeHasSiblings(k, d, leaves, pending, p); }
    PendingPathIsNotPath();
    PendingHasNoSiblings(k, d, leaves, pending);
  }

  lemma PendingPathIsNotPath()
    ensures !IsPath(UNINITIALIZED_PATH)
  {
    assert UNINITIALIZED_PATH[0] == '-';
  }

  lemma PendingHasNoSiblings(k: Keccak, d: nat, leaves: seq<UserState>, pending: seq<UserState>)
    requires Placed(d, leaves) && Waiting(pending)
    ensures !HasSiblings(TreeRows(k, d, leaves) + pending, UNINITIALIZED_PATH)
  {
    var p := GetOtherChild(Ancestor(UNINITIALIZED_PATH, 0));
    assert p == "-0" && !IsPath(p) by { assert p[0] == '-'; }
    LookupTree(k, d, leaves, pending, p);
  }

  // ---- Moving deposits ----

  predicate AllZero(rows: seq<UserState>) {
    forall i :: 0 <= i < |rows| ==> rows[i].hash == ZERO_VALUE_LEAF
  }

  lemma VacantSpan(d: nat, leaves: seq<UserState>, q: Path)
    requires Placed(d, leaves) && |q| <= d
    ensures First(d, q) + Pow2(d - |q|) <= Pow2(d)
    ensures Vacant(d, Hashes(leaves), q) <==> AllZero(leaves[First(d, q)..First(d, q) + Pow2(d - |q|)])
  {
    assert |leaves| == Pow2(d);
    hide *;
    VacantLeaves(d, leaves, q);
    AllZeroSlice(leaves, First(d, q), Pow2(d - |q|));
  }

  lemma AllZeroSlice(leaves: seq<UserState>, first: nat, w: nat)
    requires first + w <= |leaves|
    ensures AllZero(leaves[first..first + w]) <==> EmptyFrom(leaves, first, w)
  {
    var span := leaves[first..first + w];
    assert forall n | first <= n < first + w :: leaves[n] == span[n - first];
    assert forall i | 0 <= i < w :: EmptyAt(leaves, first + i) ==> span[i].hash == ZERO_VALUE_LEAF;
  }

  /** How many leaves there are below a path. */
  function LeavesBelow(d: nat, q: string): nat {
    if |q| <= d then Pow2(d - |q|) else 0
  }

  /** Path i of those the query for a prefix finds: the leaves in order, then pending rows. */
  function PathUnder(d: nat, q: string, i: nat): string {
    if |q| <= d && i < LeavesBelow(d, q) then PathOf(First(d, q) + i, d) else UNINITIALIZED_PATH
  }

  lemma TerminalFacts(k: Keccak, d: nat, leaves: seq<UserState>, pending: seq<UserState>, q: Path)
    requires Placed(d, leaves) && Settled(leaves) && Waiting(pending)
    ensures var rows, n := Filter(TerminalUnder(q), TreeRows(k, d, leaves) + pending), LeavesBelow(d, q);
      && |rows| == n + |WaitingUnder(q, pending)|
      && (forall i :: 0 <= i < |rows| ==> rows[i].path == PathUnder(d, q, i))
      && (AllZero(rows) <==> (|q| <= d ==> Vacant(d, Hashes(leaves), q)) && AllZero(WaitingUnder(q, pending)))
  {
    hide TreeRows, Filter, TerminalUnder, Vacant, First, PathOf, WaitingUnder, AllZero, Waiting, Settled, Pow2;
    var rest := WaitingUnder(q, pending);
    WaitingPaths(pending, q);
    TerminalsUnder(k, d, leaves, pending, q);
    if |q| <= d {
      VacantSpan(d, leaves, q);
      AllZeroConcat(leaves[First(d, q)..First(d, q) + Pow2(d - |q|)], rest);
    } else {
      assert [] + rest == rest;
    }
  }

  lemma WaitingPaths(pending: seq<UserState>, q: Path)
    requires Waiting(pending)
    ensures forall i :: 0 <= i < |WaitingUnder(q, pending)| ==> WaitingUnder(q, pending)[i].path == UNINITIALIZED_PATH
  {
    var rest := WaitingUnder(q, pending);
    assert forall i :: 0 <= i < |rest| ==> rest[i] in rest;
  }

  lemma AllZeroConcat(a: seq<UserState>, b: seq<UserState>)
    ensures AllZero(a + b) <==> AllZero(a) && AllZero(b)
  {
    assert forall i :: 0 <= i < |a| ==> (a + b)[i] == a[i];
    assert forall i :: 0 <= i < |b| ==> (a + b)[|a| + i] == b[i];
  }

  /** The subtree an index addresses: two leaves, or no rows at all. */
  lemma SubtreePath(d: uint64, idx: uint64)
    ensures var sub := NodePath(idx, (d - 1) % UINT64);
      && IsPath(sub) && sub != ""
      && (Room(d, idx) > 0 ==> sub == PathOf(idx, d - 1) && |sub| == d - 1 && First(d, sub) == FirstLeaf(d, idx))
      && (Room(d, idx) > 0 ==> Room(d, idx) == 2 == Pow2(d - |sub|))
      && (Room(d, idx) == 0 ==> |sub| > d)
  {
    var height := (d - 1) % UINT64;
    assert height == if d == 0 then UINT64 - 1 else d - 1;
    NodePathIsPath(idx, height);
    if Room(d, idx) > 0 { TwoLeavesBelow(d, idx); }
  }

  lemma TwoLeavesBelow(d: nat, idx: nat)
    requires d >= 2 && idx < Pow2(d - 1)
    ensures First(d, PathOf(idx, d - 1)) == 2 * idx && Pow2(d - (d - 1)) == 2
  {
    ValPathOf(idx, d - 1);
    assert d - (d - 1) == 1 && Pow2(1) == 2;
  }

  lemma RootAfterFinalise(k: Keccak, d: nat, l: Ledger, idx: nat, root: ByteArray)
    requires Placed(d, l.leaves) && !Refused(d, l, idx) && Room(d, idx) > 0
    ensures var accs, sub := Taken(d, l, idx, root), PathOf(idx, d - 1);
      NodeHash(k, d, Hashes(Finalise(k, d, l, idx, root).leaves), "")
      == FoldRoot(k, sub, MerkleRoot(k, 1, DepositHashes(k, 1, accs)), Witness(k, d, Hashes(l.leaves), sub))
  {
    var accs, sub := Taken(d, l, idx, root), PathOf(idx, d - 1);
    TwoLeavesBelow(d, idx);
    RootAfterDeposits(k, d, l.leaves, sub, accs);
  }

  /**
    From locating to finalising, at height 1: the node GetDepositNodeAndSiblings
    chose is refused exactly when its block collides with that of two empty
    leaves. Otherwise up to two stamped deposits are finalised, and the new root is
    the deposit subtree's root folded with the siblings returned back then.
   */
  lemma LocatedThenFinalised(k: Keccak, d: nat, l: Ledger, node: Path, root: ByteArray)
    requires Placed(d, l.leaves) && d >= 2 && DefaultAt(k, d, l.leaves, 1, node)
    ensures Val(node) < Pow2(d - 1) && |node| == d - 1
    ensures Refused(d, l, Val(node)) <==> Collision(k, NodeBlock(k, d, Hashes(l.leaves), node), DefaultBlock(k, 1))
    ensures var stamped := Filter(Stamped(root), l.pending);
      !Refused(d, l, Val(node)) && |stamped| <= 2 ==>
        && FinaliseOutcome(d, l, Val(node), root) == Done
        && NodeHash(k, d, Hashes(Finalise(k, d, l, Val(node), root).leaves), "")
           == FoldRoot(k, node, MerkleRoot(k, 1, DepositHashes(k, 1, stamped)), Witness(k, d, Hashes(l.leaves), node))
  {
    var idx, stamped := Val(node), Filter(Stamped(root), l.pending);
    PathOfVal(node);
    DefaultHashMeansVacant(k, d, Hashes(l.leaves), node);
    OnlyInnerNode(d, node);
    assert Pow2(1) == 2;
    hide NodeHash, Vacant, Witness, FoldRoot, MerkleRoot, DepositHashes, Collision, NodeBlock, DefaultBlock, Filter,
      Finalise, DefaultHash, PathOf;
    if !Refused(d, l, idx) && |stamped| <= 2 {
      RootAfterFinalise(k, d, l, idx, root);
      assert Taken(d, l, idx, root) == stamped;
    }
  }

  lemma OnlyInnerNode(d: nat, q: Path)
    requires |q| == d - 1
    ensures forall p: Path :: q <= p && |p| < d <==> p == q
  {
  }
}
