/**
  The user_states table (core/state.go, core/constants.go): its rows, the queries
  and updates run on it, and the table a list of leaves determines.

  A table is a sequence of rows in insertion order. Queries return rows in that
  order; where a query scans into a single row, the last match is kept.
 */
module StateTable {
  import opened Bytes
  import opened Paths
  import opened MerkleTree
  import opened Queries

  const STATUS_PENDING := 0
  const STATUS_ACTIVE := 1
  const STATUS_INACTIVE := 2
  const TYPE_TERMINAL := 1
  const TYPE_NON_TERMINAL := 2
  const UNINITIALIZED_PATH := "-1"

  datatype Error = RecordNotFound | LeafCountMismatch | NotVacant

  /** Panicked: the call does not return, what it has written stays. */
  datatype Outcome = Done | Failed(error: Error) | Panicked

  datatype UserState = UserState(
    accountID: nat, data: seq<byte>, path: string, status: nat, typ: nat,
    hash: ByteArray, level: nat, createdBy: Option<ByteArray>)
  {
    function UpdatePath(p: string): UserState {
      this.(path := p, level := |p|)
    }

    function CreateAccountHash(k: Keccak): UserState {
      this.(hash := k(data))
    }
  }

  function NewUserState(k: Keccak, id: nat, status: nat, path: string, data: seq<byte>): UserState {
    UserState(id, data, path, status, TYPE_TERMINAL, BytesToByteArray([]), 0, None)
      .UpdatePath(path).CreateAccountHash(k)
  }

  function NewStateNode(path: string, hash: ByteArray): UserState {
    UserState(0, [], path, STATUS_ACTIVE, TYPE_NON_TERMINAL, hash, 0, None).UpdatePath(path)
  }

  function NewPendingUserState(k: Keccak, id: nat, data: seq<byte>): UserState {
    UserState(id, data, UNINITIALIZED_PATH, STATUS_PENDING, TYPE_TERMINAL, BytesToByteArray([]), 0, None)
      .UpdatePath(UNINITIALIZED_PATH).CreateAccountHash(k)
  }

  // ---- Queries and updates ----

  function LevelIs(level: nat): UserState -> bool {
    (r: UserState) => r.level == level
  }

  /** SELECT ... WHERE path = ?, scanned into one row. */
  function Lookup(rows: seq<UserState>, path: string): (r: Option<UserState>)
    ensures r.Some? ==> r.value in rows && r.value.path == path
    ensures r.None? ==> forall x :: x in rows ==> x.path != path
  {
    LastMatch((r: UserState) => r.path == path, rows)
  }

  function UpdateRow(r: UserState, path: string, data: seq<byte>, hash: ByteArray): UserState {
    if r.path != path then r else r.(hash := hash, data := if data == [] then r.data else data)
  }

  /** UPDATE ... SET data, hash WHERE path = ?; an empty data field is left out of the update. */
  function UpdateWherePath(rows: seq<UserState>, path: string, data: seq<byte>, hash: ByteArray): (t: seq<UserState>)
    ensures |t| == |rows|
  {
    seq(|rows|, i requires 0 <= i < |rows| => UpdateRow(rows[i], path, data, hash))
  }

  // ---- The table of a list of leaves ----

  function Hashes(rows: seq<UserState>): (h: seq<ByteArray>)
    ensures |h| == |rows|
  {
    seq(|rows|, i requires 0 <= i < |rows| => rows[i].hash)
  }

  function LevelPaths(l: nat): (ps: seq<Path>)
    ensures |ps| == Pow2(l)
  {
    seq(Pow2(l), i requires 0 <= i < Pow2(l) => PathOf(i, l))
  }

  /** The paths of levels d, d-1, .., l: the order in which the rows are inserted. */
  function PathsDown(d: nat, l: nat): (ps: seq<Path>)
    requires l <= d
    ensures |ps| == 2 * Pow2(d) - Pow2(l)
    decreases d - l
  {
    if l == d then LevelPaths(d) else PathsDown(d, l + 1) + LevelPaths(l)
  }

  lemma {:induction false} PathInPathsDown(d: nat, l: nat, p: Path)
    requires l <= d
    ensures p in PathsDown(d, l) <==> l <= |p| <= d
    decreases d - l
  {
    if l <= |p| {
      PathOfVal(p);
      assert LevelPaths(|p|)[Val(p)] == p;
    }
    if l < d { PathInPathsDown(d, l + 1, p); }
  }

  /** No path occurs twice. */
  lemma {:induction false} PathsDownDistinct(d: nat, l: nat, i: nat, j: nat)
    requires l <= d && i < j < |PathsDown(d, l)|
    ensures PathsDown(d, l)[i] != PathsDown(d, l)[j]
    decreases d - l
  {
    if l == d {
      LevelPathsDistinct(d, i, j);
    } else {
      var upper := PathsDown(d, l + 1);
      assert forall m :: |upper| <= m < |PathsDown(d, l)| ==> PathsDown(d, l)[m] == LevelPaths(l)[m - |upper|];
      if i >= |upper| {
        LevelPathsDistinct(l, i - |upper|, j - |upper|);
      } else if j < |upper| {
        PathsDownDistinct(d, l + 1, i, j);
      } else {
        assert upper[i] in upper;
        PathInPathsDown(d, l + 1, upper[i]);
      }
    }
  }

  lemma LevelPathsDistinct(l: nat, i: nat, j: nat)
    requires i < j < Pow2(l)
    ensures LevelPaths(l)[i] != LevelPaths(l)[j]
  {
    ValPathOf(i, l);
    ValPathOf(j, l);
  }

  predicate Placed(d: nat, leaves: seq<UserState>) {
    && |leaves| == Pow2(d)
    && forall i :: 0 <= i < |leaves| ==> leaves[i].path == PathOf(i, d) && leaves[i].level == d
  }

  /** The row of path q: a leaf, or an inner node whose hash is the reference one. */
  function RowAt(k: Keccak, d: nat, leaves: seq<UserState>, q: Path): (r: UserState)
    requires Placed(d, leaves) && |q| <= d
    ensures r.path == q && r.level == |q|
    ensures r.hash == NodeHash(k, d, Hashes(leaves), q)
  {
    PathOfVal(q);
    if |q| == d then leaves[Val(q)] else NewStateNode(q, NodeHash(k, d, Hashes(leaves), q))
  }

  /** An inner row, field by field: active, not terminal, without data, and with the hash of its two children. */
  lemma InnerRowFields(k: Keccak, d: nat, leaves: seq<UserState>, q: Path)
    requires Placed(d, leaves) && |q| < d
    ensures var r := RowAt(k, d, leaves, q);
      && r.accountID == 0 && r.data == [] && r.path == q && r.status == 1 && r.typ == 2 && r.level == |q|
      && r.createdBy == None
      && r.hash == k(RowAt(k, d, leaves, q + ['0']).hash + RowAt(k, d, leaves, q + ['1']).hash)
  {
    assert Child(q, 0) == q + ['0'] && Child(q, 1) == q + ['1'];
  }

  function RowsOf(k: Keccak, d: nat, leaves: seq<UserState>, paths: seq<Path>): (rows: seq<UserState>)
    requires Placed(d, leaves) && forall p :: p in paths ==> |p| <= d
    ensures |rows| == |paths|
  {
    seq(|paths|, i requires 0 <= i < |paths| => RowAt(k, d, leaves, paths[i]))
  }

  lemma RowsOfConcat(k: Keccak, d: nat, leaves: seq<UserState>, a: seq<Path>, b: seq<Path>)
    requires Placed(d, leaves) && forall p :: p in a + b ==> |p| <= d
    ensures (forall p :: p in a ==> |p| <= d) && forall p :: p in b ==> |p| <= d
    ensures RowsOf(k, d, leaves, a + b) == RowsOf(k, d, leaves, a) + RowsOf(k, d, leaves, b)
  {
    assert forall p :: p in a ==> p in a + b;
    assert forall p :: p in b ==> p in a + b;
    var rows, x, y := RowsOf(k, d, leaves, a + b), RowsOf(k, d, leaves, a), RowsOf(k, d, leaves, b);
    forall i | 0 <= i < |rows| ensures rows[i] == (x + y)[i] {
      if i < |a| { assert (a + b)[i] == a[i]; } else { assert (a + b)[i] == b[i - |a|]; }
    }
  }

  function LevelRows(k: Keccak, d: nat, leaves: seq<UserState>, l: nat): (rows: seq<UserState>)
    requires Placed(d, leaves) && l <= d
    ensures |rows| == Pow2(l)
    ensures forall r :: r in rows ==> r.level == l
  {
    RowsOf(k, d, leaves, LevelPaths(l))
  }

  /** The rows of levels d down to l. */
  function RowsDown(k: Keccak, d: nat, leaves: seq<UserState>, l: nat): (rows: seq<UserState>)
    requires Placed(d, leaves) && l <= d
    ensures forall r :: r in rows ==> r.level >= l
  {
    LevelsDown(d, l);
    RowsOf(k, d, leaves, PathsDown(d, l))
  }

  lemma LevelsDown(d: nat, l: nat)
    requires l <= d
    ensures forall p: Path :: p in PathsDown(d, l) <==> l <= |p| <= d
  {
    forall p: Path ensures p in PathsDown(d, l) <==> l <= |p| <= d { PathInPathsDown(d, l, p); }
  }

  lemma NextLevelDown(k: Keccak, d: nat, leaves: seq<UserState>, l: nat)
    requires Placed(d, leaves) && l < d
    ensures RowsDown(k, d, leaves, l) == RowsDown(k, d, leaves, l + 1) + LevelRows(k, d, leaves, l)
  {
    LevelsDown(d, l);
    RowsOfConcat(k, d, leaves, PathsDown(d, l + 1), LevelPaths(l));
  }

  lemma LeafLevel(k: Keccak, d: nat, leaves: seq<UserState>)
    requires Placed(d, leaves)
    ensures LevelRows(k, d, leaves, d) == leaves
  {
    forall i | 0 <= i < Pow2(d) ensures RowAt(k, d, leaves, PathOf(i, d)) == leaves[i] {
      ValPathOf(i, d);
    }
  }

  function TreePaths(d: nat): (ps: seq<Path>)
    ensures |ps| == 2 * Pow2(d) - 1
    ensures forall p: Path :: p in ps <==> |p| <= d
  {
    LevelsDown(d, 0);
    PathsDown(d, 0)
  }

  /** The whole tree: the table a rebuild from these leaves produces. */
  function TreeRows(k: Keccak, d: nat, leaves: seq<UserState>): (rows: seq<UserState>)
    requires Placed(d, leaves)
    ensures |rows| == 2 * Pow2(d) - 1
  {
    RowsOf(k, d, leaves, TreePaths(d))
  }

  /** One row for every path up to the depth, no two rows for one path, and no other row. */
  lemma TreeHasOneRowPerPath(k: Keccak, d: nat, leaves: seq<UserState>, q: string)
    requires Placed(d, leaves)
    ensures (exists i :: 0 <= i < |TreeRows(k, d, leaves)| && TreeRows(k, d, leaves)[i].path == q)
      <==> IsPath(q) && |q| <= d
    ensures forall i, j :: 0 <= i < j < |TreeRows(k, d, leaves)| ==>
      TreeRows(k, d, leaves)[i].path != TreeRows(k, d, leaves)[j].path
  {
    var ps, rows := TreePaths(d), TreeRows(k, d, leaves);
    forall i, j | 0 <= i < j < |rows| ensures rows[i].path != rows[j].path {
      PathsDownDistinct(d, 0, i, j);
    }
    if IsPath(q) && |q| <= d {
      var i :| 0 <= i < |ps| && ps[i] == q;
      assert rows[i].path == q;
    }
    if i :| 0 <= i < |rows| && rows[i].path == q {
      assert ps[i] in ps;
    }
  }

  /** Pending rows carry a path no tree node has. */
  predicate Waiting(pending: seq<UserState>) {
    forall r :: r in pending ==>
      r.path == UNINITIALIZED_PATH && r.status == STATUS_PENDING && r.level == |UNINITIALIZED_PATH|
  }

  /** Every row of the table is the tree's row of its path, or pending. */
  lemma RowOfPath(k: Keccak, d: nat, leaves: seq<UserState>, pending: seq<UserState>, r: UserState)
    requires Placed(d, leaves) && Waiting(pending) && r in TreeRows(k, d, leaves) + pending
    ensures IsPath(r.path) ==> |r.path| <= d && r == RowAt(k, d, leaves, r.path)
    ensures !IsPath(r.path) ==> r.path == UNINITIALIZED_PATH
  {
    assert UNINITIALIZED_PATH[0] == '-';
    if r in TreeRows(k, d, leaves) {
      var i :| 0 <= i < |TreePaths(d)| && r == RowAt(k, d, leaves, TreePaths(d)[i]);
      assert TreePaths(d)[i] in TreePaths(d);
    }
  }

  lemma PathHasRow(k: Keccak, d: nat, leaves: seq<UserState>, pending: seq<UserState>, q: Path)
    requires Placed(d, leaves) && |q| <= d
    ensures RowAt(k, d, leaves, q) in TreeRows(k, d, leaves) + pending
  {
    var i :| 0 <= i < |TreePaths(d)| && TreePaths(d)[i] == q;
    assert TreeRows(k, d, leaves)[i] == RowAt(k, d, leaves, q);
  }

  /** Lookups see the tree, whatever is pending. */
  lemma LookupTree(k: Keccak, d: nat, leaves: seq<UserState>, pending: seq<UserState>, q: string)
    requires Placed(d, leaves) && Waiting(pending)
    ensures IsPath(q) && |q| <= d ==> Lookup(TreeRows(k, d, leaves) + pending, q) == Some(RowAt(k, d, leaves, q))
    ensures !(IsPath(q) && |q| <= d) && q != UNINITIALIZED_PATH ==>
      Lookup(TreeRows(k, d, leaves) + pending, q) == None
  {
    var r := Lookup(TreeRows(k, d, leaves) + pending, q);
    if r.Some? { RowOfPath(k, d, leaves, pending, r.value); }
    if IsPath(q) && |q| <= d { PathHasRow(k, d, leaves, pending, q); }
  }

  // ---- What storing a leaf does to a table ----

  /** Row r after the nodes from path up to length top have been rewritten. */
  function PatchRow(k: Keccak, path: string, data: seq<byte>, leaf: ByteArray, wit: seq<ByteArray>, top: nat,
                    r: UserState): (t: UserState)
    requires |wit| == |path|
    ensures t.path == r.path && t.status == r.status && t.typ == r.typ && t.level == r.level
  {
    if top <= |r.path| && r.path <= path then
      r.(hash := Climb(k, path, leaf, wit, |path| - |r.path|),
         data := if r.path == path && path != "" && data != [] then data else r.data)
    else r
  }

  function Patch(k: Keccak, rows: seq<UserState>, path: string, data: seq<byte>, leaf: ByteArray, wit: seq<ByteArray>,
                 top: nat): (t: seq<UserState>)
    requires |wit| == |path|
    ensures |t| == |rows|
  {
    seq(|rows|, i requires 0 <= i < |rows| => PatchRow(k, path, data, leaf, wit, top, rows[i]))
  }

  predicate HasSiblings(rows: seq<UserState>, path: string) {
    forall i | 0 <= i < |path| :: Lookup(rows, GetOtherChild(Ancestor(path, i))).Some?
  }

  function SiblingRows(rows: seq<UserState>, path: string): (s: seq<UserState>)
    requires HasSiblings(rows, path)
    ensures |s| == |path|
  {
    seq(|path|, i requires 0 <= i < |path| => Lookup(rows, GetOtherChild(Ancestor(path, i))).value)
  }

  /** The table after UpdateState: one root-ward path rewritten with the siblings stored before. */
  function UpdatedTable(k: Keccak, rows: seq<UserState>, path: string, data: seq<byte>): seq<UserState>
    requires HasSiblings(rows, path)
  {
    Patch(k, rows, path, data, k(data), Hashes(SiblingRows(rows, path)), 0)
  }

  lemma TreeHasSiblings(k: Keccak, d: nat, leaves: seq<UserState>, pending: seq<UserState>, path: Path)
    requires Placed(d, leaves) && Waiting(pending) && |path| <= d
    ensures var rows := TreeRows(k, d, leaves) + pending;
      HasSiblings(rows, path) && Hashes(SiblingRows(rows, path)) == Witness(k, d, Hashes(leaves), path)
  {
    forall i | 0 <= i < |path|
      ensures Lookup(TreeRows(k, d, leaves) + pending, GetOtherChild(Ancestor(path, i)))
           == Some(RowAt(k, d, leaves, GetOtherChild(Ancestor(path, i))))
    {
      LookupTree(k, d, leaves, pending, GetOtherChild(Ancestor(path, i)));
    }
  }

  /**
    What an update makes of leaf n. Only data and hash are written, so the account
    id and status stay; empty data is skipped, and so is the data of a lone root.
   */
  function SetLeaf(k: Keccak, d: nat, leaves: seq<UserState>, n: nat, data: seq<byte>): (t: seq<UserState>)
    requires Placed(d, leaves) && n < Pow2(d)
    ensures Placed(d, t)
  {
    leaves[n := leaves[n].(hash := k(data), data := if data == [] || d == 0 then leaves[n].data else data)]
  }

  lemma SetLeafHashes(k: Keccak, d: nat, leaves: seq<UserState>, path: Path, data: seq<byte>)
    requires Placed(d, leaves) && |path| == d
    ensures var a, b := Hashes(leaves), Hashes(SetLeaf(k, d, leaves, Val(path), data));
      AgreeOutside(d, a, b, path) && NodeHash(k, d, b, path) == k(data)
  {
    PathOfVal(path);
  }

  /**
    The fast form agrees with the rebuild: rewriting one path of the table of
    some leaves gives the table of the leaves with that one replaced. Pending
    rows stay as they are.
   */
  lemma IncrementalIsRebuild(k: Keccak, d: nat, leaves: seq<UserState>, pending: seq<UserState>, path: Path,
                             data: seq<byte>)
    requires Placed(d, leaves) && Waiting(pending) && |path| == d
    ensures HasSiblings(TreeRows(k, d, leaves) + pending, path)
    ensures UpdatedTable(k, TreeRows(k, d, leaves) + pending, path, data)
         == TreeRows(k, d, SetLeaf(k, d, leaves, Val(path), data)) + pending
  {
    TreeHasSiblings(k, d, leaves, pending, path);
    PatchedTree(k, d, leaves, path, data);
    var tree, wit := TreeRows(k, d, leaves), Witness(k, d, Hashes(leaves), path);
    PatchedPending(k, path, data, k(data), wit, pending);
    hide *;
    PatchConcat(k, tree, pending, path, data, k(data), wit);
    UpdatedTableIs(k, tree + pending, path, data);
  }

  lemma UpdatedTableIs(k: Keccak, rows: seq<UserState>, path: string, data: seq<byte>)
    requires HasSiblings(rows, path)
    ensures UpdatedTable(k, rows, path, data) == Patch(k, rows, path, data, k(data), Hashes(SiblingRows(rows, path)), 0)
  {
  }

  lemma PatchConcat(k: Keccak, a: seq<UserState>, b: seq<UserState>, path: string, data: seq<byte>, leaf: ByteArray,
                    wit: seq<ByteArray>)
    requires |wit| == |path|
    ensures Patch(k, a + b, path, data, leaf, wit, 0)
      == Patch(k, a, path, data, leaf, wit, 0) + Patch(k, b, path, data, leaf, wit, 0)
  {
    hide PatchRow;
  }

  lemma PatchedTree(k: Keccak, d: nat, leaves: seq<UserState>, path: Path, data: seq<byte>)
    requires Placed(d, leaves) && |path| == d
    ensures Patch(k, TreeRows(k, d, leaves), path, data, k(data), Witness(k, d, Hashes(leaves), path), 0)
      == TreeRows(k, d, SetLeaf(k, d, leaves, Val(path), data))
  {
    hide PatchRow, RowAt, Witness;
    forall q | q in TreePaths(d)
      ensures PatchRow(k, path, data, k(data), Witness(k, d, Hashes(leaves), path), 0, RowAt(k, d, leaves, q))
        == RowAt(k, d, SetLeaf(k, d, leaves, Val(path), data), q)
    {
      PatchedTreeRow(k, d, leaves, path, data, q);
    }
  }

  lemma PatchedPending(k: Keccak, path: Path, data: seq<byte>, leaf: ByteArray, wit: seq<ByteArray>,
                       pending: seq<UserState>)
    requires |wit| == |path| && Waiting(pending)
    ensures Patch(k, pending, path, data, leaf, wit, 0) == pending
  {
    forall i | 0 <= i < |pending| ensures PatchRow(k, path, data, leaf, wit, 0, pending[i]) == pending[i] {
      PatchedPendingRow(k, path, data, leaf, wit, pending, pending[i]);
    }
  }

  lemma PatchedPendingRow(k: Keccak, path: Path, data: seq<byte>, leaf: ByteArray, wit: seq<ByteArray>,
                          pending: seq<UserState>, r: UserState)
    requires |wit| == |path| && Waiting(pending) && r in pending
    ensures PatchRow(k, path, data, leaf, wit, 0, r) == r
  {
    assert UNINITIALIZED_PATH[0] == '-';
  }

  lemma PatchedTreeRow(k: Keccak, d: nat, leaves: seq<UserState>, path: Path, data: seq<byte>, q: Path)
    requires Placed(d, leaves) && |path| == d && |q| <= d
    ensures PatchRow(k, path, data, k(data), Witness(k, d, Hashes(leaves), path), 0, RowAt(k, d, leaves, q))
         == RowAt(k, d, SetLeaf(k, d, leaves, Val(path), data), q)
  {
    SetLeafHashes(k, d, leaves, path, data);
    if q <= path {
      PatchedAncestor(k, d, leaves, path, data, |path| - |q|);
      assert Ancestor(path, |path| - |q|) == q;
    } else {
      var leaves' := SetLeaf(k, d, leaves, Val(path), data);
      assert path <= q ==> q == path;
      UnrelatedNodeKeepsHash(k, d, Hashes(leaves), Hashes(leaves'), path, q);
      if |q| == d { PathOfVal(q); PathOfVal(path); }
    }
  }

  lemma ClimbIsNewHash(k: Keccak, d: nat, leaves: seq<UserState>, path: Path, data: seq<byte>, i: nat)
    requires Placed(d, leaves) && i <= |path| == d
    ensures Climb(k, path, k(data), Witness(k, d, Hashes(leaves), path), i)
      == NodeHash(k, d, Hashes(SetLeaf(k, d, leaves, Val(path), data)), Ancestor(path, i))
  {
    SetLeafHashes(k, d, leaves, path, data);
    ClimbReachesAncestor(k, d, Hashes(leaves), Hashes(SetLeaf(k, d, leaves, Val(path), data)), path, i);
  }

  lemma PatchedLeaf(k: Keccak, d: nat, leaves: seq<UserState>, path: Path, data: seq<byte>)
    requires Placed(d, leaves) && |path| == d
    ensures PatchRow(k, path, data, k(data), Witness(k, d, Hashes(leaves), path), 0, RowAt(k, d, leaves, path))
      == RowAt(k, d, SetLeaf(k, d, leaves, Val(path), data), path)
  {
    ClimbIsNewHash(k, d, leaves, path, data, 0);
    PathOfVal(path);
    hide NodeHash, Witness, Pow2, PathOf;
  }

  lemma PatchedAncestor(k: Keccak, d: nat, leaves: seq<UserState>, path: Path, data: seq<byte>, i: nat)
    requires Placed(d, leaves) && i <= |path| == d
    ensures var q := Ancestor(path, i);
      PatchRow(k, path, data, k(data), Witness(k, d, Hashes(leaves), path), 0, RowAt(k, d, leaves, q))
      == RowAt(k, d, SetLeaf(k, d, leaves, Val(path), data), q)
  {
    if i == 0 {
      assert Ancestor(path, i) == path;
      PatchedLeaf(k, d, leaves, path, data);
      hide *;
    } else {
      ClimbIsNewHash(k, d, leaves, path, data, i);
      hide NodeHash, Climb, Witness, Pow2, PathOf, SetLeaf;
    }
  }

  // ---- Runs of updates ----

  datatype Update = Update(leaf: nat, data: seq<byte>)

  predicate InRange(d: nat, run: seq<Update>) {
    forall i :: 0 <= i < |run| ==> run[i].leaf < Pow2(d)
  }

  /** The same updates on the list of leaves. */
  function SetLeaves(k: Keccak, d: nat, leaves: seq<UserState>, run: seq<Update>): (t: seq<UserState>)
    requires Placed(d, leaves) && InRange(d, run)
    ensures Placed(d, t)
    decreases |run|
  {
    if run == [] then leaves
    else SetLeaves(k, d, SetLeaf(k, d, leaves, run[0].leaf, run[0].data), run[1..])
  }

  /** table is reached from rows by these updates, each on the table the one before left. */
  predicate UpdateRun(k: Keccak, d: nat, rows: seq<UserState>, run: seq<Update>, table: seq<UserState>)
    decreases |run|
  {
    if run == [] then table == rows
    else
      && HasSiblings(rows, PathOf(run[0].leaf, d))
      && UpdateRun(k, d, UpdatedTable(k, rows, PathOf(run[0].leaf, d), run[0].data), run[1..], table)
  }

  /** After any run of updates the table is the one rebuilt from the final leaves. */
  lemma {:induction false} AnyRunIsRebuild(k: Keccak, d: nat, leaves: seq<UserState>, pending: seq<UserState>,
                                           run: seq<Update>, table: seq<UserState>)
    requires Placed(d, leaves) && Waiting(pending) && InRange(d, run)
    ensures UpdateRun(k, d, TreeRows(k, d, leaves) + pending, run, table) <==>
      table == TreeRows(k, d, SetLeaves(k, d, leaves, run)) + pending
    decreases |run|
  {
    if run != [] {
      var Update(n, data) := run[0];
      ValPathOf(n, d);
      IncrementalIsRebuild(k, d, leaves, pending, PathOf(n, d), data);
      AnyRunIsRebuild(k, d, SetLeaf(k, d, leaves, n, data), pending, run[1..], table);
    }
  }

  /**
    Updates of different leaves commute on the table, although each rewrites the
    ancestors the other one reads and the second uses the hashes the first left.
   */
  lemma UpdatesCommute(k: Keccak, d: nat, leaves: seq<UserState>, pending: seq<UserState>,
                       p: Path, a: seq<byte>, q: Path, b: seq<byte>)
    requires Placed(d, leaves) && Waiting(pending) && |p| == |q| == d && p != q
    ensures var rows := TreeRows(k, d, leaves) + pending;
      && HasSiblings(rows, p) && HasSiblings(UpdatedTable(k, rows, p, a), q)
      && HasSiblings(rows, q) && HasSiblings(UpdatedTable(k, rows, q, b), p)
      && UpdatedTable(k, UpdatedTable(k, rows, p, a), q, b) == UpdatedTable(k, UpdatedTable(k, rows, q, b), p, a)
  {
    PathOfVal(p);
    PathOfVal(q);
    IncrementalIsRebuild(k, d, leaves, pending, p, a);
    IncrementalIsRebuild(k, d, leaves, pending, q, b);
    IncrementalIsRebuild(k, d, SetLeaf(k, d, leaves, Val(p), a), pending, q, b);
    IncrementalIsRebuild(k, d, SetLeaf(k, d, leaves, Val(q), b), pending, p, a);
    assert SetLeaf(k, d, SetLeaf(k, d, leaves, Val(p), a), Val(q), b)
        == SetLeaf(k, d, SetLeaf(k, d, leaves, Val(q), b), Val(p), a);
  }

  /** A leaf and its stored siblings fold to the stored root; the new leaf and the same siblings to the next root. */
  lemma SiblingsProveLeaf(k: Keccak, d: nat, leaves: seq<UserState>, pending: seq<UserState>, path: Path,
                          data: seq<byte>)
    requires Placed(d, leaves) && Waiting(pending) && |path| == d
    ensures var rows := TreeRows(k, d, leaves) + pending;
      && HasSiblings(rows, path) && Lookup(rows, path).Some? && Lookup(rows, "").Some?
      && FoldRoot(k, path, Lookup(rows, path).value.hash, Hashes(SiblingRows(rows, path)))
        == Lookup(rows, "").value.hash
      && Lookup(UpdatedTable(k, rows, path, data), "").Some?
      && FoldRoot(k, path, k(data), Hashes(SiblingRows(rows, path)))
        == Lookup(UpdatedTable(k, rows, path, data), "").value.hash
  {
    var leaves' := SetLeaf(k, d, leaves, Val(path), data);
    TreeHasSiblings(k, d, leaves, pending, path);
    LookupTree(k, d, leaves, pending, path);
    LookupTree(k, d, leaves, pending, "");
    LookupTree(k, d, leaves', pending, "");
    IncrementalIsRebuild(k, d, leaves, pending, path, data);
    ClimbReachesAncestor(k, d, Hashes(leaves), Hashes(leaves), path, d);
    ClimbIsNewHash(k, d, leaves, path, data, d);
    assert Ancestor(path, d) == "";
  }
}
