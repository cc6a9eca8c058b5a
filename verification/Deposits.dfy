/**
  Deposits (core/DepositTree.go, listener/processors.go): pending rows are queued,
  stamped with the root of a ready subtree and moved into a vacant subtree. Here
  is what each step does to the leaves and the pending rows, what moving leaf by
  leaf means for the tree, and what is kept over whole runs.
 */
module Deposits {
  import opened Bytes
  import opened Paths
  import opened MerkleTree
  import opened Queries
  import opened StateTable

  /** Genesis leaves are terminal rows that are not pending. */
  predicate Settled(leaves: seq<UserState>) {
    forall r :: r in leaves ==> r.status != STATUS_PENDING && r.typ == TYPE_TERMINAL
  }

  lemma SetLeafStaysSettled(k: Keccak, d: nat, leaves: seq<UserState>, n: nat, data: seq<byte>)
    requires Placed(d, leaves) && n < Pow2(d) && Settled(leaves)
    ensures Settled(SetLeaf(k, d, leaves, n, data))
  {
  }

  // ---- The queries and updates of the deposit code ----

  function Stamped(root: ByteArray): UserState -> bool {
    (r: UserState) => r.createdBy == Some(root) && r.status == STATUS_PENDING
  }

  function KeptBy(id: nat): UserState -> bool {
    (r: UserState) => !(r.accountID == id && r.status == STATUS_PENDING)
  }

  function TerminalUnder(prefix: string): UserState -> bool {
    (r: UserState) => prefix <= r.path && r.typ == TYPE_TERMINAL
  }

  function AttachRow(r: UserState, root: ByteArray): UserState {
    if r.status == STATUS_PENDING then r.(createdBy := Some(root)) else r
  }

  /** Stamps EVERY pending row, also those stamped before. */
  function Attach(rows: seq<UserState>, root: ByteArray): (t: seq<UserState>)
    ensures |t| == |rows|
  {
    seq(|rows|, i requires 0 <= i < |rows| => AttachRow(rows[i], root))
  }

  lemma TreeRowsAreNotPending(k: Keccak, d: nat, leaves: seq<UserState>, r: UserState)
    requires Placed(d, leaves) && Settled(leaves) && r in TreeRows(k, d, leaves)
    ensures r.status != STATUS_PENDING && |r.path| <= d && IsPath(r.path)
    ensures r.typ == if |r.path| == d then TYPE_TERMINAL else TYPE_NON_TERMINAL
  {
    var i :| 0 <= i < |TreePaths(d)| && r == RowAt(k, d, leaves, TreePaths(d)[i]);
    assert TreePaths(d)[i] in TreePaths(d);
    if |r.path| == d { assert r in leaves; }
  }

  lemma AttachSkipsTree(k: Keccak, d: nat, leaves: seq<UserState>, pending: seq<UserState>, root: ByteArray)
    requires Placed(d, leaves) && Settled(leaves)
    ensures Attach(TreeRows(k, d, leaves) + pending, root) == TreeRows(k, d, leaves) + Attach(pending, root)
  {
    var tree := TreeRows(k, d, leaves);
    var all := Attach(tree + pending, root);
    forall i | 0 <= i < |all| ensures all[i] == (tree + Attach(pending, root))[i] {
      if i < |tree| {
        assert tree[i] in tree;
        TreeRowsAreNotPending(k, d, leaves, tree[i]);
      }
    }
  }

  lemma StampedSkipsTree(k: Keccak, d: nat, leaves: seq<UserState>, pending: seq<UserState>, root: ByteArray)
    requires Placed(d, leaves) && Settled(leaves)
    ensures Filter(Stamped(root), TreeRows(k, d, leaves) + pending) == Filter(Stamped(root), pending)
  {
    var tree := TreeRows(k, d, leaves);
    forall r | r in tree ensures !Stamped(root)(r) { TreeRowsAreNotPending(k, d, leaves, r); }
    FilterConcat(Stamped(root), tree, pending);
    FilterAll(Stamped(root), tree);
  }

  lemma DeleteSkipsTree(k: Keccak, d: nat, leaves: seq<UserState>, pending: seq<UserState>, id: nat)
    requires Placed(d, leaves) && Settled(leaves)
    ensures Filter(KeptBy(id), TreeRows(k, d, leaves) + pending) == TreeRows(k, d, leaves) + Filter(KeptBy(id), pending)
  {
    var tree := TreeRows(k, d, leaves);
    forall r | r in tree ensures KeptBy(id)(r) { TreeRowsAreNotPending(k, d, leaves, r); }
    FilterConcat(KeptBy(id), tree, pending);
    FilterAll(KeptBy(id), tree);
  }

  // ---- The leaves below a node are an interval ----

  lemma {:induction false} BelowIsInterval(d: nat, q: Path, n: nat)
    requires |q| <= d && n < Pow2(d)
    ensures Below(d, q, n) <==> First(d, q) <= n < First(d, q) + Pow2(d - |q|)
    decreases d
  {
    if |q| == d {
      ValPathOf(n, d);
      PathOfVal(q);
      assert q <= PathOf(n, d) <==> q == PathOf(n, d);
    } else {
      BelowIsInterval(d - 1, q, n / 2);
      assert PathOf(n, d)[..d - 1] == PathOf(n / 2, d - 1);
      assert Below(d, q, n) <==> Below(d - 1, q, n / 2);
      FirstDoubles(d, q);
      HalfInInterval(n, First(d - 1, q), Pow2(d - 1 - |q|));
    }
  }

  lemma FirstDoubles(d: nat, q: Path)
    requires |q| < d
    ensures First(d, q) == 2 * First(d - 1, q)
  {
    var w := Pow2(d - 1 - |q|);
    assert Val(q) * (2 * w) == 2 * (Val(q) * w);
  }

  lemma HalfInInterval(n: nat, a: nat, w: nat)
    ensures a <= n / 2 < a + w <==> 2 * a <= n < 2 * a + 2 * w
  {
  }

  lemma {:induction false} LeavesListedFirst(d: nat, l: nat)
    requires l <= d
    ensures Pow2(d) <= |PathsDown(d, l)| && PathsDown(d, l)[..Pow2(d)] == LevelPaths(d)
    ensures forall i :: Pow2(d) <= i < |PathsDown(d, l)| ==> |PathsDown(d, l)[i]| < d
    decreases d - l
  {
    if l < d { LeavesListedFirst(d, l + 1); }
  }

  /** The inner rows of the table. */
  function InnerRows(k: Keccak, d: nat, leaves: seq<UserState>): (rows: seq<UserState>)
    requires Placed(d, leaves)
    ensures TreeRows(k, d, leaves) == leaves + rows
    ensures forall r :: r in rows ==> r.typ == TYPE_NON_TERMINAL
  {
    SplitTree(k, d, leaves);
    TreeRows(k, d, leaves)[Pow2(d)..]
  }

  lemma SplitTree(k: Keccak, d: nat, leaves: seq<UserState>)
    requires Placed(d, leaves)
    ensures |TreeRows(k, d, leaves)| >= Pow2(d)
    ensures TreeRows(k, d, leaves) == leaves + TreeRows(k, d, leaves)[Pow2(d)..]
    ensures forall r :: r in TreeRows(k, d, leaves)[Pow2(d)..] ==> r.typ == TYPE_NON_TERMINAL
  {
    LeavesListedFirst(d, 0);
    var tree := TreeRows(k, d, leaves);
    forall i | 0 <= i < Pow2(d) ensures tree[i] == leaves[i] {
      assert TreePaths(d)[i] == PathsDown(d, 0)[..Pow2(d)][i] == PathOf(i, d);
      ValPathOf(i, d);
    }
  }

  lemma PendingPathIsNoNode(q: Path)
    requires q != ""
    ensures !(q <= UNINITIALIZED_PATH)
  {
    assert UNINITIALIZED_PATH[0] == '-' && IsPath(q) && (q[0] == '0' || q[0] == '1');
  }

  /** The pending rows a prefix query finds: only the empty prefix finds any. */
  function WaitingUnder(q: Path, pending: seq<UserState>): seq<UserState> {
    if q == "" then Filter(TerminalUnder(q), pending) else []
  }

  lemma OnlyLeavesMatch(leaves: seq<UserState>, inner: seq<UserState>, pending: seq<UserState>, q: Path)
    requires Waiting(pending) && forall r :: r in inner ==> r.typ == TYPE_NON_TERMINAL
    ensures Filter(TerminalUnder(q), (leaves + inner) + pending)
      == Filter(TerminalUnder(q), leaves) + WaitingUnder(q, pending)
  {
    var f := TerminalUnder(q);
    if q != "" { PendingPathIsNoNode(q); }
    hide Filter;
    FilterConcat(f, leaves + inner, pending);
    FilterConcat(f, leaves, inner);
    FilterAll(f, inner);
    if q != "" { FilterAll(f, pending); }
    assert Filter(f, leaves) + [] == Filter(f, leaves);
  }

  lemma LeavesUnder(d: nat, leaves: seq<UserState>, q: Path)
    requires Placed(d, leaves) && Settled(leaves)
    ensures |q| <= d ==> First(d, q) + Pow2(d - |q|) <= Pow2(d)
    ensures Filter(TerminalUnder(q), leaves)
      == if |q| <= d then leaves[First(d, q)..First(d, q) + Pow2(d - |q|)] else []
  {
    var f := TerminalUnder(q);
    if |q| <= d {
      SpanFits(d, q);
      forall i | 0 <= i < |leaves| ensures f(leaves[i]) <==> First(d, q) <= i < First(d, q) + Pow2(d - |q|) {
        assert leaves[i] in leaves;
        BelowIsInterval(d, q, i);
      }
      FilterInterval(f, leaves, First(d, q), First(d, q) + Pow2(d - |q|));
    } else {
      FilterAll(f, leaves);
    }
  }

  /** Terminal rows with a node's path as prefix: the leaves below it, in order. */
  lemma TerminalsUnder(k: Keccak, d: nat, leaves: seq<UserState>, pending: seq<UserState>, q: Path)
    requires Placed(d, leaves) && Settled(leaves) && Waiting(pending)
    ensures |q| <= d ==> First(d, q) + Pow2(d - |q|) <= Pow2(d)
    ensures Filter(TerminalUnder(q), TreeRows(k, d, leaves) + pending)
      == (if |q| <= d then leaves[First(d, q)..First(d, q) + Pow2(d - |q|)] else []) + WaitingUnder(q, pending)
  {
    OnlyLeavesMatch(leaves, InnerRows(k, d, leaves), pending, q);
    LeavesUnder(d, leaves, q);
  }

  // ---- Moving deposits into the tree ----

  /** Deposits written one after the other from leaf first on. */
  function PlaceAll(k: Keccak, d: nat, leaves: seq<UserState>, first: nat, accs: seq<UserState>): (t: seq<UserState>)
    requires Placed(d, leaves) && first + |accs| <= Pow2(d)
    ensures Placed(d, t)
  {
    if accs == [] then leaves
    else
      var m := |accs| - 1;
      SetLeaf(k, d, PlaceAll(k, d, leaves, first, accs[..m]), first + m, accs[m].data)
  }

  function DeleteAll(rows: seq<UserState>, accs: seq<UserState>): seq<UserState> {
    if accs == [] then rows
    else Filter(KeptBy(accs[|accs| - 1].accountID), DeleteAll(rows, accs[..|accs| - 1]))
  }

  lemma {:induction false} PlaceAllHashes(k: Keccak, d: nat, leaves: seq<UserState>, first: nat, accs: seq<UserState>,
                                          n: nat)
    requires Placed(d, leaves) && first + |accs| <= Pow2(d) && n < Pow2(d)
    ensures PlaceAll(k, d, leaves, first, accs)[n].hash ==
      if first <= n < first + |accs| then k(accs[n - first].data) else leaves[n].hash
    ensures !(first <= n < first + |accs|) ==> PlaceAll(k, d, leaves, first, accs)[n] == leaves[n]
    ensures PlaceAll(k, d, leaves, first, accs)[n].status == leaves[n].status
    ensures PlaceAll(k, d, leaves, first, accs)[n].typ == leaves[n].typ
  {
    if accs != [] {
      PlaceAllHashes(k, d, leaves, first, accs[..|accs| - 1], n);
    }
  }

  /** The hashes of a deposit subtree of height h: the deposits, then empty leaves. */
  function DepositHashes(k: Keccak, h: nat, accs: seq<UserState>): (hs: seq<ByteArray>)
    requires |accs| <= Pow2(h)
    ensures |hs| == Pow2(h)
  {
    seq(Pow2(h), i requires 0 <= i => DepositHash(k, accs, i))
  }

  function DepositHash(k: Keccak, accs: seq<UserState>, i: nat): ByteArray {
    if i < |accs| then k(accs[i].data) else ZERO_VALUE_LEAF
  }

  lemma PlacedLength(k: Keccak, d: nat, leaves: seq<UserState>, first: nat, accs: seq<UserState>)
    requires Placed(d, leaves) && first + |accs| <= Pow2(d)
    ensures |PlaceAll(k, d, leaves, first, accs)| == |leaves| == Pow2(d)
  {
  }

  lemma DepositHashesAre(k: Keccak, h: nat, accs: seq<UserState>)
    requires |accs| <= Pow2(h)
    ensures forall i: nat :: i < Pow2(h) ==> DepositHashes(k, h, accs)[i] == DepositHash(k, accs, i)
  {
  }

  lemma PlacedSpan(k: Keccak, d: nat, leaves: seq<UserState>, q: Path, accs: seq<UserState>)
    requires Placed(d, leaves) && |q| <= d && |accs| <= Pow2(d - |q|)
    requires Vacant(d, Hashes(leaves), q)
    ensures First(d, q) + |accs| <= Pow2(d)
    ensures var a, b := Hashes(leaves), Hashes(PlaceAll(k, d, leaves, First(d, q), accs));
      AgreeOutside(d, a, b, q) && Span(d, b, q) == DepositHashes(k, d - |q|, accs)
  {
    hide *;
    SpanFits(d, q);
    PlacedLength(k, d, leaves, First(d, q), accs);
    var leaves' := PlaceAll(k, d, leaves, First(d, q), accs);
    PlacedOutside(k, d, leaves, q, accs);
    forall i: nat | i < Pow2(d - |q|) ensures leaves'[First(d, q) + i].hash == DepositHash(k, accs, i) {
      PlacedLeaf(k, d, leaves, q, accs, i);
    }
    DepositHashesAre(k, d - |q|, accs);
    SpanIs(d, leaves', q, DepositHashes(k, d - |q|, accs));
  }

  lemma SpanIs(d: nat, leaves: seq<UserState>, q: Path, hashes: seq<ByteArray>)
    requires |leaves| == Pow2(d) && |q| <= d && |hashes| == Pow2(d - |q|) && First(d, q) + Pow2(d - |q|) <= Pow2(d)
    requires forall i: nat :: i < Pow2(d - |q|) ==> leaves[First(d, q) + i].hash == hashes[i]
    ensures Span(d, Hashes(leaves), q) == hashes
  {
    hide Pow2, First;
  }

  lemma PlacedOutside(k: Keccak, d: nat, leaves: seq<UserState>, q: Path, accs: seq<UserState>)
    requires Placed(d, leaves) && |q| <= d && |accs| <= Pow2(d - |q|) && First(d, q) + Pow2(d - |q|) <= Pow2(d)
    ensures AgreeOutside(d, Hashes(leaves), Hashes(PlaceAll(k, d, leaves, First(d, q), accs)), q)
  {
    forall n: nat | n < Pow2(d) && !Below(d, q, n)
      ensures PlaceAll(k, d, leaves, First(d, q), accs)[n].hash == leaves[n].hash
    {
      BelowIsInterval(d, q, n);
      PlaceAllHashes(k, d, leaves, First(d, q), accs, n);
    }
  }

  lemma PlacedLeaf(k: Keccak, d: nat, leaves: seq<UserState>, q: Path, accs: seq<UserState>, i: nat)
    requires Placed(d, leaves) && |q| <= d && |accs| <= Pow2(d - |q|) && i < Pow2(d - |q|)
    requires Vacant(d, Hashes(leaves), q) && First(d, q) + Pow2(d - |q|) <= Pow2(d)
    ensures PlaceAll(k, d, leaves, First(d, q), accs)[First(d, q) + i].hash == DepositHash(k, accs, i)
  {
    hide PlaceAll, Pow2, First, Below, PathOf;
    BelowIsInterval(d, q, First(d, q) + i);
    PlaceAllHashes(k, d, leaves, First(d, q), accs, First(d, q) + i);
    assert i >= |accs| ==> Hashes(leaves)[First(d, q) + i] == ZERO_VALUE_LEAF;
  }

  /** The data the replacement writes to the top node itself: only a leaf carries data. */
  function NodeData(d: nat, q: Path, accs: seq<UserState>): seq<byte> {
    if |q| == d && accs != [] then accs[0].data else []
  }

  /**
    Moving deposits leaf by leaf into a vacant subtree is one replacement of that
    subtree by the root of its padded deposit list: every row not below the
    subtree is what a single root-ward rewrite from its top node, with the
    siblings stored before, makes of it.
   */
  lemma LeafByLeafIsOneReplacement(k: Keccak, d: nat, leaves: seq<UserState>, q: Path, accs: seq<UserState>, p: Path)
    requires Placed(d, leaves) && |q| <= d && |accs| <= Pow2(d - |q|) && |p| <= d
    requires Vacant(d, Hashes(leaves), q)
    requires q <= p ==> p == q
    ensures First(d, q) + |accs| <= Pow2(d)
    ensures RowAt(k, d, PlaceAll(k, d, leaves, First(d, q), accs), p)
      == PatchRow(k, q, NodeData(d, q, accs), MerkleRoot(k, d - |q|, DepositHashes(k, d - |q|, accs)),
                  Witness(k, d, Hashes(leaves), q), 0, RowAt(k, d, leaves, p))
  {
    PlacedSpan(k, d, leaves, q, accs);
    var leaves' := PlaceAll(k, d, leaves, First(d, q), accs);
    NodeHashIsMerkleRoot(k, d, Hashes(leaves'), q);
    if p <= q {
      assert Ancestor(q, |q| - |p|) == p;
      ClimbReachesAncestor(k, d, Hashes(leaves), Hashes(leaves'), q, |q| - |p|);
    } else {
      UnrelatedNodeKeepsHash(k, d, Hashes(leaves), Hashes(leaves'), q, p);
      if |p| == d {
        PathOfVal(p);
        BelowIsInterval(d, q, Val(p));
        PlaceAllHashes(k, d, leaves, First(d, q), accs, Val(p));
      }
    }
  }

  /** The root after the move is the subtree root folded with the stored siblings. */
  lemma RootAfterDeposits(k: Keccak, d: nat, leaves: seq<UserState>, q: Path, accs: seq<UserState>)
    requires Placed(d, leaves) && |q| <= d && |accs| <= Pow2(d - |q|)
    requires Vacant(d, Hashes(leaves), q)
    ensures First(d, q) + |accs| <= Pow2(d)
    ensures NodeHash(k, d, Hashes(PlaceAll(k, d, leaves, First(d, q), accs)), "")
      == FoldRoot(k, q, MerkleRoot(k, d - |q|, DepositHashes(k, d - |q|, accs)), Witness(k, d, Hashes(leaves), q))
  {
    hide *;
    SpanFits(d, q);
    PlacedLength(k, d, leaves, First(d, q), accs);
    var leaves' := PlaceAll(k, d, leaves, First(d, q), accs);
    PlacedSpan(k, d, leaves, q, accs);
    RootAfterReplacement(k, d, Hashes(leaves), Hashes(leaves'), q, DepositHashes(k, d - |q|, accs));
  }

  lemma RootAfterReplacement(k: Keccak, d: nat, a: seq<ByteArray>, b: seq<ByteArray>, q: Path, hashes: seq<ByteArray>)
    requires |a| == |b| == Pow2(d) && |q| <= d && |hashes| == Pow2(d - |q|)
    requires AgreeOutside(d, a, b, q) && Span(d, b, q) == hashes
    ensures NodeHash(k, d, b, "") == FoldRoot(k, q, MerkleRoot(k, d - |q|, hashes), Witness(k, d, a, q))
  {
    assert Ancestor(q, |q|) == "";
    hide NodeHash, Climb, MerkleRoot, Span, Witness, Pow2, AgreeOutside, Ancestor;
    NodeHashIsMerkleRoot(k, d, b, q);
    ClimbReachesAncestor(k, d, a, b, q, |q|);
  }

  // ---- The steps on leaves and pending rows ----

  datatype Ledger = Ledger(leaves: seq<UserState>, pending: seq<UserState>)

  predicate Sound(d: nat, l: Ledger) {
    Placed(d, l.leaves) && Settled(l.leaves) && Waiting(l.pending)
  }

  function Queue(k: Keccak, l: Ledger, id: nat, data: seq<byte>): Ledger {
    l.(pending := l.pending + [NewPendingUserState(k, id, data)])
  }

  function Ready(l: Ledger, root: ByteArray): Ledger {
    l.(pending := Attach(l.pending, root))
  }

  /** The source looks two leaves deep: at the node of index idx one level above the leaves. */
  function Room(d: nat, idx: nat): nat {
    if d >= 2 && idx < Pow2(d - 1) then 2 else 0
  }

  function Taken(d: nat, l: Ledger, idx: nat, root: ByteArray): (accs: seq<UserState>)
    ensures |accs| <= Room(d, idx)
  {
    var stamped := Filter(Stamped(root), l.pending);
    if |stamped| <= Room(d, idx) then stamped else stamped[..Room(d, idx)]
  }

  predicate Refused(d: nat, l: Ledger, idx: nat)
    requires Placed(d, l.leaves)
  {
    Room(d, idx) > 0 && !Vacant(d, Hashes(l.leaves), PathOf(idx, d - 1))
  }

  /** Deposits written to the leaves from first on, and their pending rows deleted. */
  function Moved(k: Keccak, d: nat, l: Ledger, first: nat, accs: seq<UserState>): (t: Ledger)
    requires Placed(d, l.leaves) && first + |accs| <= Pow2(d)
    ensures Placed(d, t.leaves)
  {
    Ledger(PlaceAll(k, d, l.leaves, first, accs), DeleteAll(l.pending, accs))
  }

  lemma MovedNothing(k: Keccak, d: nat, l: Ledger, first: nat)
    requires Placed(d, l.leaves) && first <= Pow2(d)
    ensures Moved(k, d, l, first, []) == l
  {
  }

  lemma MovedStep(k: Keccak, d: nat, l: Ledger, first: nat, accs: seq<UserState>, i: nat)
    requires Placed(d, l.leaves) && i < |accs| && first + |accs| <= Pow2(d)
    ensures var t := Moved(k, d, l, first, accs[..i]);
      Moved(k, d, l, first, accs[..i + 1])
      == Ledger(SetLeaf(k, d, t.leaves, first + i, accs[i].data), Filter(KeptBy(accs[i].accountID), t.pending))
  {
    assert accs[..i + 1][..i] == accs[..i];
  }

  function FirstLeaf(d: nat, idx: nat): (n: nat)
    ensures n + Room(d, idx) <= Pow2(d)
  {
    if Room(d, idx) > 0 then 2 * idx else 0
  }

  function Finalise(k: Keccak, d: nat, l: Ledger, idx: nat, root: ByteArray): (t: Ledger)
    requires Placed(d, l.leaves)
    ensures Placed(d, t.leaves)
  {
    if Refused(d, l, idx) then l
    else Moved(k, d, l, FirstLeaf(d, idx), Taken(d, l, idx, root))
  }

  function FinaliseOutcome(d: nat, l: Ledger, idx: nat, root: ByteArray): Outcome
    requires Placed(d, l.leaves)
  {
    if Refused(d, l, idx) then Failed(NotVacant)
    else if |Filter(Stamped(root), l.pending)| <= Room(d, idx) then Done
    else Panicked
  }

  /** The stamped deposits end up, in order, in the leaves below the node of index idx and height h. */
  predicate FinalisedBelow(k: Keccak, d: nat, l: Ledger, idx: nat, root: ByteArray, h: nat)
    requires Placed(d, l.leaves)
  {
    var stamped := Filter(Stamped(root), l.pending);
    && FinaliseOutcome(d, l, idx, root) == Done
    && idx * Pow2(h) + |stamped| <= Pow2(d)
    && Finalise(k, d, l, idx, root).leaves == PlaceAll(k, d, l.leaves, idx * Pow2(h), stamped)
  }

  predicate EmptyAt(leaves: seq<UserState>, n: nat) {
    n < |leaves| && leaves[n].hash == ZERO_VALUE_LEAF
  }

  predicate EmptyFrom(leaves: seq<UserState>, first: nat, count: nat) {
    forall n | first <= n < first + count :: EmptyAt(leaves, n)
  }

  lemma LocatedSpan(d: nat, idx: nat, h: nat)
    requires h <= d && idx < Pow2(d - h)
    ensures First(d, PathOf(idx, d - h)) == idx * Pow2(h)
    ensures idx * Pow2(h) + Pow2(h) <= Pow2(d)
  {
    ValPathOf(idx, d - h);
    SpanFits(d, PathOf(idx, d - h));
  }

  /** Whether the two leaves the code looks at are empty. */
  lemma AddressedLeaves(d: nat, l: Ledger, idx: nat)
    requires Placed(d, l.leaves) && Room(d, idx) > 0
    ensures 2 * idx + 1 < Pow2(d)
    ensures Refused(d, l, idx) <==> !EmptyAt(l.leaves, 2 * idx) || !EmptyAt(l.leaves, 2 * idx + 1)
  {
    var q := PathOf(idx, d - 1);
    assert Pow2(1) == 2 && d - |q| == 1;
    LocatedSpan(d, idx, 1);
    assert idx * Pow2(1) == 2 * idx;
    hide Placed, PathOf, First, Pow2, Vacant, EmptyAt, EmptyFrom;
    VacantLeaves(d, l.leaves, q);
    TwoLeaves(l.leaves, 2 * idx);
  }

  lemma TwoLeaves(leaves: seq<UserState>, first: nat)
    ensures EmptyFrom(leaves, first, 2) <==> EmptyAt(leaves, first) && EmptyAt(leaves, first + 1)
  {
    hide EmptyAt;
  }

  lemma VacantLeaves(d: nat, leaves: seq<UserState>, q: Path)
    requires Placed(d, leaves) && |q| <= d
    ensures First(d, q) + Pow2(d - |q|) <= Pow2(d)
    ensures Vacant(d, Hashes(leaves), q) <==> EmptyFrom(leaves, First(d, q), Pow2(d - |q|))
  {
    SpanFits(d, q);
    hide PathOf, Val, First, Pow2, Below;
    forall n: nat | n < Pow2(d)
      ensures Below(d, q, n) <==> First(d, q) <= n < First(d, q) + Pow2(d - |q|)
      ensures EmptyAt(leaves, n) <==> Hashes(leaves)[n] == ZERO_VALUE_LEAF
    {
      BelowIsInterval(d, q, n);
    }
  }

  /**
    The vacant node is located at the configured height, but the code inserts one
    level above the leaves. A full subtree for a vacant node is finalised below
    that node exactly when the height is 1, or when it is 0, the node is the first
    leaf and its neighbour is empty too; never in a tree of depth 0 or 1.
   */
  lemma FinalisedBelowIff(k: Keccak, d: nat, l: Ledger, idx: nat, root: ByteArray, h: nat)
    requires Placed(d, l.leaves) && h <= d && idx < Pow2(d - h)
    requires Vacant(d, Hashes(l.leaves), PathOf(idx, d - h))
    requires |Filter(Stamped(root), l.pending)| == Pow2(h)
    requires forall r :: r in Filter(Stamped(root), l.pending) ==> k(r.data) != ZERO_VALUE_LEAF
    ensures FinalisedBelow(k, d, l, idx, root, h) <==>
      d >= 2 && (h == 1 || (h == 0 && idx == 0 && EmptyAt(l.leaves, 1)))
  {
    assert Pow2(1) == 2 && Pow2(0) == 1;
    hide *;
    if h >= 2 {
      TallSubtree(k, d, l, idx, root, h);
    } else if h == 1 {
      PairSubtree(k, d, l, idx, root);
    } else {
      LeafSubtree(k, d, l, idx, root);
    }
  }

  /** A height above 1: after two deposits there is no leaf for the third. */
  lemma TallSubtree(k: Keccak, d: nat, l: Ledger, idx: nat, root: ByteArray, h: nat)
    requires Placed(d, l.leaves) && h >= 2 && |Filter(Stamped(root), l.pending)| == Pow2(h)
    ensures !FinalisedBelow(k, d, l, idx, root, h)
  {
    assert Pow2(2) == 4 by { assert Pow2(1) == 2; }
    Pow2Monotonic(2, h);
    hide Refused, Finalise, PlaceAll, Filter, Stamped, Pow2, Placed;
  }

  /** Height 1: the two leaves the code looks at are those of the node. */
  lemma PairSubtree(k: Keccak, d: nat, l: Ledger, idx: nat, root: ByteArray)
    requires Placed(d, l.leaves) && d >= 1 && idx < Pow2(d - 1) && Vacant(d, Hashes(l.leaves), PathOf(idx, d - 1))
    requires |Filter(Stamped(root), l.pending)| == 2
    ensures FinalisedBelow(k, d, l, idx, root, 1) <==> d >= 2
  {
    LocatedSpan(d, idx, 1);
    assert Pow2(1) == 2 && idx * Pow2(1) == 2 * idx;
    hide Vacant, PathOf, PlaceAll, Stamped, First, Placed, Filter, Pow2;
  }

  /** Height 0: the deposit goes to leaf 2 * idx, which is its own only for the first leaf. */
  lemma LeafSubtree(k: Keccak, d: nat, l: Ledger, idx: nat, root: ByteArray)
    requires Placed(d, l.leaves) && idx < Pow2(d) && Vacant(d, Hashes(l.leaves), PathOf(idx, d))
    requires |Filter(Stamped(root), l.pending)| == 1
    requires forall r :: r in Filter(Stamped(root), l.pending) ==> k(r.data) != ZERO_VALUE_LEAF
    ensures FinalisedBelow(k, d, l, idx, root, 0) <==> d >= 2 && idx == 0 && EmptyAt(l.leaves, 1)
  {
    var stamped := Filter(Stamped(root), l.pending);
    VacantLeaf(d, l.leaves, idx);
    assert stamped[0] in stamped && Pow2(0) == 1 && idx * 1 == idx;
    hide Vacant, PathOf, PlaceAll, Stamped, First, Filter, Placed, Pow2;
    if Room(d, idx) > 0 {
      AddressedLeaves(d, l, idx);
      hide Refused;
      assert Taken(d, l, idx, root) == stamped;
      if idx > 0 {
        PlaceAllHashes(k, d, l.leaves, idx, stamped, idx);
        PlaceAllHashes(k, d, l.leaves, 2 * idx, stamped, idx);
      }
    }
  }

  lemma VacantLeaf(d: nat, leaves: seq<UserState>, idx: nat)
    requires Placed(d, leaves) && idx < Pow2(d) && Vacant(d, Hashes(leaves), PathOf(idx, d))
    ensures EmptyAt(leaves, idx)
  {
    assert Below(d, PathOf(idx, d), idx);
    assert Hashes(leaves)[idx] == leaves[idx].hash;
  }

  /** Depth 2, height 0, leaf 1: the call succeeds, but the deposit is in leaf 2. */
  lemma MisplacedAtHeightZero(k: Keccak, leaves: seq<UserState>, id: nat, data: seq<byte>, root: ByteArray)
    requires Placed(2, leaves) && data != [] && k(data) != ZERO_VALUE_LEAF
    requires forall n: nat :: n < 4 ==> EmptyAt(leaves, n)
    ensures var l := Ready(Queue(k, Ledger(leaves, []), id, data), root);
      && FinaliseOutcome(2, l, 1, root) == Done
      && |leaves| == 4
      && Finalise(k, 2, l, 1, root).leaves == leaves[2 := leaves[2].(hash := k(data), data := data)]
      && !FinalisedBelow(k, 2, l, 1, root, 0)
  {
    var l := Ready(Queue(k, Ledger(leaves, []), id, data), root);
    assert Pow2(1) == 2 && Pow2(2) == 4;
    var row := NewPendingUserState(k, id, data).(createdBy := Some(root));
    assert l.pending == [row];
    FilterAll(Stamped(root), l.pending);
    AddressedLeaves(2, l, 1);
    hide Refused, Filter;
    assert Taken(2, l, 1, root) == [row] && [row][..0] == [];
    assert PlaceAll(k, 2, leaves, 2, []) == leaves;
    assert PlaceAll(k, 2, leaves, 2, [row]) == SetLeaf(k, 2, leaves, 2, data);
    assert Pow2(0) == 1;
    assert SetLeaf(k, 2, leaves, 2, data)[1] == leaves[1];
    PlaceAllHashes(k, 2, leaves, 1, [row], 1);
  }
}
