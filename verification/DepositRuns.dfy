/**
  Runs of deposit events (listener/processors.go): queueing, stamping when a
  subtree is ready, finalising. No deposit is lost or placed twice, and when
  exactly the code's deletes and stamps would break this.
 */
module DepositRuns {
  import opened Bytes
  import opened Paths
  import opened MerkleTree
  import opened Queries
  import opened StateTable
  import opened Deposits

  datatype Step =
    | DepositQueued(id: nat, data: seq<byte>)
    | SubtreeReady(root: ByteArray)
    | DepositsFinalised(idx: nat, depositRoot: ByteArray)

  datatype Deposit = Deposit(id: nat, data: seq<byte>)

  /** deposits: all that were queued, in order; settled: by number, the leaf a moved deposit went to. */
  datatype World = World(ledger: Ledger, deposits: seq<Deposit>, settled: map<nat, nat>)

  /** The number of the last deposit with this account id. */
  function Latest(deposits: seq<Deposit>, id: nat): (n: Option<nat>)
    ensures n.Some? ==> n.value < |deposits| && deposits[n.value].id == id
  {
    if deposits == [] then None
    else
      var m := |deposits| - 1;
      if deposits[m].id == id then Some(m) else Latest(deposits[..m], id)
  }

  function SettleNumber(settled: map<nat, nat>, n: Option<nat>, leaf: nat): map<nat, nat> {
    if n.Some? then settled[n.value := leaf] else settled
  }

  function SettleAll(deposits: seq<Deposit>, settled: map<nat, nat>, first: nat, accs: seq<UserState>): map<nat, nat> {
    if accs == [] then settled
    else
      var m := |accs| - 1;
      SettleNumber(SettleAll(deposits, settled, first, accs[..m]), Latest(deposits, accs[m].accountID), first + m)
  }

  function Next(k: Keccak, d: nat, w: World, step: Step): (t: World)
    requires Placed(d, w.ledger.leaves)
    ensures Placed(d, t.ledger.leaves)
  {
    match step
    case DepositQueued(id, data) =>
      w.(ledger := Queue(k, w.ledger, id, data), deposits := w.deposits + [Deposit(id, data)])
    case SubtreeReady(root) => w.(ledger := Ready(w.ledger, root))
    case DepositsFinalised(idx, root) =>
      var settled :=
        if Refused(d, w.ledger, idx) then w.settled
        else SettleAll(w.deposits, w.settled, FirstLeaf(d, idx), Taken(d, w.ledger, idx, root));
      World(Finalise(k, d, w.ledger, idx, root), w.deposits, settled)
  }

  predicate HasPendingId(l: Ledger, id: nat) {
    exists i :: 0 <= i < |l.pending| && l.pending[i].accountID == id
  }

  /** No two deposits of one account wait at the same time, and no deposit looks like an empty leaf. */
  predicate Allowed(k: Keccak, w: World, step: Step) {
    step.DepositQueued? ==>
      !HasPendingId(w.ledger, step.id) && step.data != [] && k(step.data) != ZERO_VALUE_LEAF
  }

  predicate AllowedRun(k: Keccak, d: nat, w: World, steps: seq<Step>)
    requires Placed(d, w.ledger.leaves)
    decreases |steps|
  {
    steps != [] ==> Allowed(k, w, steps[0]) && AllowedRun(k, d, Next(k, d, w, steps[0]), steps[1..])
  }

  function Run(k: Keccak, d: nat, w: World, steps: seq<Step>): (t: World)
    requires Placed(d, w.ledger.leaves)
    decreases |steps|
  {
    if steps == [] then w else Run(k, d, Next(k, d, w, steps[0]), steps[1..])
  }

  // ---- What is kept ----

  predicate DistinctIds(rows: seq<UserState>) {
    forall i, j :: 0 <= i < j < |rows| ==> rows[i].accountID != rows[j].accountID
  }

  /** Deposit n waits in some pending row. */
  predicate IsPending(w: World, n: nat) {
    exists i :: 0 <= i < |w.ledger.pending| && Latest(w.deposits, w.ledger.pending[i].accountID) == Some(n)
  }

  /** Every pending row is that of a deposit that is not settled. */
  predicate PendingKnown(w: World) {
    forall i :: 0 <= i < |w.ledger.pending| ==>
      var r := w.ledger.pending[i];
      var n := Latest(w.deposits, r.accountID);
      n.Some? && r.data == w.deposits[n.value].data && n.value !in w.settled
  }

  /** What a starting leaf becomes when it takes a deposit. */
  function Holding(k: Keccak, leaf: UserState, deposit: Deposit): UserState {
    leaf.(hash := k(deposit.data), data := deposit.data)
  }

  /**
    Each settled deposit is in a leaf of its own that was empty at the start, and
    every leaf that took no deposit is as it was at the start.
   */
  predicate Held(k: Keccak, start: seq<UserState>, leaves: seq<UserState>, deposits: seq<Deposit>,
                 settled: map<nat, nat>)
    requires |leaves| == |start|
  {
    && (forall n :: n in settled ==>
          n < |deposits| && settled[n] < |start| && start[settled[n]].hash == ZERO_VALUE_LEAF
          && leaves[settled[n]] == Holding(k, start[settled[n]], deposits[n]))
    && (forall a, b :: a in settled && b in settled && settled[a] == settled[b] ==> a == b)
    && forall m :: 0 <= m < |start| && m !in settled.Values ==> leaves[m] == start[m]
  }

  predicate SettledHeld(k: Keccak, d: nat, start: seq<UserState>, w: World)
    requires Placed(d, w.ledger.leaves) && Placed(d, start)
  {
    Held(k, start, w.ledger.leaves, w.deposits, w.settled)
  }

  /** Pending rows are terminal rows on level 2 that carry the hash of their data. */
  predicate PendingHashed(k: Keccak, rows: seq<UserState>) {
    forall r :: r in rows ==> r.hash == k(r.data) && r.typ == 1 && r.status == 0 && r.path == "-1" && r.level == 2
  }

  predicate RealDeposits(k: Keccak, w: World) {
    forall n :: 0 <= n < |w.deposits| ==> w.deposits[n].data != [] && k(w.deposits[n].data) != ZERO_VALUE_LEAF
  }

  /**
    Every queued deposit is pending or in exactly one leaf, never both; no leaf
    holds two, and every other leaf is what it was at the start.
   */
  predicate Conserved(k: Keccak, d: nat, start: seq<UserState>, w: World) {
    && Placed(d, start) && Sound(d, w.ledger) && DistinctIds(w.ledger.pending)
    && RealDeposits(k, w) && PendingKnown(w) && PendingHashed(k, w.ledger.pending) && SettledHeld(k, d, start, w)
    && forall n :: 0 <= n < |w.deposits| ==> n in w.settled || IsPending(w, n)
  }

  lemma LatestAfter(deposits: seq<Deposit>, deposit: Deposit, id: nat)
    ensures Latest(deposits + [deposit], id) == if id == deposit.id then Some(|deposits|) else Latest(deposits, id)
  {
    assert (deposits + [deposit])[..|deposits|] == deposits;
  }

  lemma QueueKeepsPending(k: Keccak, d: nat, start: seq<UserState>, w: World, id: nat, data: seq<byte>)
    requires Conserved(k, d, start, w) && Allowed(k, w, DepositQueued(id, data))
    ensures var t := Next(k, d, w, DepositQueued(id, data));
      && Waiting(t.ledger.pending) && DistinctIds(t.ledger.pending) && PendingKnown(t)
      && forall n :: n == |w.deposits| || IsPending(w, n) ==> IsPending(t, n)
  {
    hide Placed, Settled, RealDeposits, SettledHeld;
    var t := Next(k, d, w, DepositQueued(id, data));
    var p, p' := w.ledger.pending, t.ledger.pending;
    assert |w.deposits| !in w.settled by { QueueNumberIsNew(k, d, start, w); }
    assert p'[|p|].accountID == id && p'[|p|].data == data;
    forall x { LatestAfter(w.deposits, Deposit(id, data), x); }
    hide Latest;
    assert forall i :: 0 <= i < |p| ==> p'[i] == p[i] && p'[i].accountID != id;
  }

  lemma QueueNumberIsNew(k: Keccak, d: nat, start: seq<UserState>, w: World)
    requires Placed(d, start) && Placed(d, w.ledger.leaves) && SettledHeld(k, d, start, w)
    ensures |w.deposits| !in w.settled
  {
  }

  lemma QueueConserves(k: Keccak, d: nat, start: seq<UserState>, w: World, id: nat, data: seq<byte>)
    requires Conserved(k, d, start, w) && Allowed(k, w, DepositQueued(id, data))
    ensures Conserved(k, d, start, Next(k, d, w, DepositQueued(id, data)))
  {
    QueueKeepsPending(k, d, start, w, id, data);
    hide PendingKnown, IsPending, DistinctIds, Waiting, Placed, Settled, HasPendingId;
    var t := Next(k, d, w, DepositQueued(id, data));
    assert forall n :: 0 <= n < |w.deposits| ==> t.deposits[n] == w.deposits[n];
  }

  lemma AttachKeepsPending(w: World, root: ByteArray)
    requires Waiting(w.ledger.pending) && DistinctIds(w.ledger.pending) && PendingKnown(w)
    ensures var t := w.(ledger := Ready(w.ledger, root));
      && Waiting(t.ledger.pending) && DistinctIds(t.ledger.pending) && PendingKnown(t)
      && forall n :: IsPending(w, n) ==> IsPending(t, n)
  {
    hide Latest;
    var p, p' := w.ledger.pending, Attach(w.ledger.pending, root);
    assert forall i :: 0 <= i < |p| ==> p'[i] == p[i].(createdBy := p'[i].createdBy) && p[i] in p;
  }

  lemma ReadyConserves(k: Keccak, d: nat, start: seq<UserState>, w: World, root: ByteArray)
    requires Conserved(k, d, start, w)
    ensures Conserved(k, d, start, Next(k, d, w, SubtreeReady(root)))
  {
    AttachKeepsPending(w, root);
    hide PendingKnown, IsPending, DistinctIds, Waiting, Attach;
  }

  /** The pending row of one deposit goes and its data arrives in a leaf. */
  function SettleOne(k: Keccak, d: nat, w: World, leaf: nat, acc: UserState): World
    requires Placed(d, w.ledger.leaves) && leaf < Pow2(d)
  {
    World(Ledger(SetLeaf(k, d, w.ledger.leaves, leaf, acc.data), Filter(KeptBy(acc.accountID), w.ledger.pending)),
          w.deposits, SettleNumber(w.settled, Latest(w.deposits, acc.accountID), leaf))
  }

  lemma {:induction false} FilterKeepsDistinct(f: UserState -> bool, rows: seq<UserState>)
    requires DistinctIds(rows)
    ensures DistinctIds(Filter(f, rows))
  {
    if rows != [] {
      var init, last := rows[..|rows| - 1], rows[|rows| - 1];
      FilterKeepsDistinct(f, init);
      forall i | 0 <= i < |Filter(f, init)| ensures Filter(f, init)[i].accountID != last.accountID {
        assert Filter(f, init)[i] in init;
      }
    }
  }

  /** A settled deposit's leaf does not look empty, so an empty leaf is as at the start. */
  lemma EmptyLeafIsUnused(k: Keccak, d: nat, start: seq<UserState>, w: World, leaf: nat)
    requires Placed(d, start) && Placed(d, w.ledger.leaves) && leaf < Pow2(d)
    requires RealDeposits(k, w) && SettledHeld(k, d, start, w)
    requires w.ledger.leaves[leaf].hash == ZERO_VALUE_LEAF
    ensures leaf !in w.settled.Values && w.ledger.leaves[leaf] == start[leaf]
  {
    assert forall n :: n in w.settled ==> k(w.deposits[n].data) != ZERO_VALUE_LEAF;
  }

  lemma HeldAfter(k: Keccak, start: seq<UserState>, leaves: seq<UserState>, deposits: seq<Deposit>,
                  settled: map<nat, nat>, n: nat, leaf: nat)
    requires |leaves| == |start| && Held(k, start, leaves, deposits, settled)
    requires n < |deposits| && n !in settled && leaf < |start| && leaf !in settled.Values
    requires start[leaf].hash == ZERO_VALUE_LEAF
    ensures Held(k, start, leaves[leaf := Holding(k, start[leaf], deposits[n])], deposits, settled[n := leaf])
  {
    hide Holding;
    var t := settled[n := leaf];
    assert t[n] == leaf;
    forall m | m in settled.Values ensures m in t.Values {
      var x :| x in settled && settled[x] == m;
      assert x in t && t[x] == m;
    }
  }

  lemma SettlingKeepsLeaves(k: Keccak, d: nat, start: seq<UserState>, w: World, leaf: nat, acc: UserState)
    requires Conserved(k, d, start, w) && leaf < Pow2(d) && d > 0 && acc in w.ledger.pending
    requires w.ledger.leaves[leaf].hash == ZERO_VALUE_LEAF
    ensures Latest(w.deposits, acc.accountID).Some?
    ensures SettledHeld(k, d, start, SettleOne(k, d, w, leaf, acc))
  {
    EmptyLeafIsUnused(k, d, start, w, leaf);
    var i :| 0 <= i < |w.ledger.pending| && w.ledger.pending[i] == acc;
    var n := Latest(w.deposits, acc.accountID).value;
    assert n !in w.settled && w.deposits[n].data == acc.data && acc.data != [];
    HeldAfter(k, start, w.ledger.leaves, w.deposits, w.settled, n, leaf);
    hide Waiting, Settled, DistinctIds, IsPending, PendingKnown, RealDeposits, Filter, Latest, KeptBy, Placed, Pow2,
      Held;
  }

  lemma SettlingKeepsPending(k: Keccak, d: nat, w: World, leaf: nat, acc: UserState)
    requires Placed(d, w.ledger.leaves) && leaf < Pow2(d)
    requires Waiting(w.ledger.pending) && DistinctIds(w.ledger.pending) && PendingKnown(w)
    ensures var t := SettleOne(k, d, w, leaf, acc);
      && Waiting(t.ledger.pending) && DistinctIds(t.ledger.pending) && PendingKnown(t)
      && (PendingHashed(k, w.ledger.pending) ==> PendingHashed(k, t.ledger.pending))
      && forall n: nat :: Some(n) != Latest(w.deposits, acc.accountID) && IsPending(w, n) ==> IsPending(t, n)
  {
    FilterKeepsDistinct(KeptBy(acc.accountID), w.ledger.pending);
    KeptRows(w.ledger.pending, acc.accountID);
    var t := SettleOne(k, d, w, leaf, acc);
    hide Placed, SetLeaf, Filter, KeptBy, DistinctIds, Waiting, Latest;
    forall n: nat | Some(n) != Latest(w.deposits, acc.accountID) && IsPending(w, n) ensures IsPending(t, n) {
      OthersStayPending(w, t, acc.accountID, n);
    }
    hide IsPending;
    OthersStayKnown(w, t, acc.accountID, leaf);
  }

  lemma OthersStayPending(w: World, t: World, id: nat, n: nat)
    requires t.deposits == w.deposits && IsPending(w, n) && Some(n) != Latest(w.deposits, id)
    requires forall r :: r in t.ledger.pending <==> r in w.ledger.pending && r.accountID != id
    ensures IsPending(t, n)
  {
    hide Latest;
    var i :| 0 <= i < |w.ledger.pending| && Latest(w.deposits, w.ledger.pending[i].accountID) == Some(n);
    var r := w.ledger.pending[i];
    assert r in t.ledger.pending;
    var j :| 0 <= j < |t.ledger.pending| && t.ledger.pending[j] == r;
  }

  lemma OthersStayKnown(w: World, t: World, id: nat, leaf: nat)
    requires PendingKnown(w) && t.deposits == w.deposits
    requires t.settled == SettleNumber(w.settled, Latest(w.deposits, id), leaf)
    requires forall r :: r in t.ledger.pending <==> r in w.ledger.pending && r.accountID != id
    ensures PendingKnown(t)
  {
    KeptAreOthers(w, id);
    hide Latest;
    forall i | 0 <= i < |t.ledger.pending| ensures t.ledger.pending[i] in w.ledger.pending {
      assert t.ledger.pending[i] in t.ledger.pending;
    }
  }

  lemma KeptRows(rows: seq<UserState>, id: nat)
    requires Waiting(rows)
    ensures forall r :: r in Filter(KeptBy(id), rows) <==> r in rows && r.accountID != id
    ensures Waiting(Filter(KeptBy(id), rows))
  {
  }

  /** A row of another account is that of another deposit. */
  lemma KeptAreOthers(w: World, id: nat)
    requires PendingKnown(w)
    ensures forall r :: r in w.ledger.pending && r.accountID != id && Latest(w.deposits, id).Some? ==>
      Latest(w.deposits, r.accountID) != Latest(w.deposits, id)
  {
  }

  lemma SameRealDeposits(k: Keccak, d: nat, w: World, leaf: nat, acc: UserState)
    requires Placed(d, w.ledger.leaves) && leaf < Pow2(d) && RealDeposits(k, w)
    ensures RealDeposits(k, SettleOne(k, d, w, leaf, acc))
  {
  }

  lemma SettleOneConserves(k: Keccak, d: nat, start: seq<UserState>, w: World, leaf: nat, acc: UserState)
    requires Conserved(k, d, start, w) && leaf < Pow2(d) && d > 0 && acc in w.ledger.pending
    requires w.ledger.leaves[leaf].hash == ZERO_VALUE_LEAF
    ensures Conserved(k, d, start, SettleOne(k, d, w, leaf, acc))
  {
    hide SetLeaf, Filter, IsPending, DistinctIds, PendingKnown, PendingHashed, RealDeposits, SettledHeld, Waiting,
      Settled, Placed, Latest;
    SettlingKeepsLeaves(k, d, start, w, leaf, acc);
    SettlingKeepsPending(k, d, w, leaf, acc);
    SetLeafStaysSettled(k, d, w.ledger.leaves, leaf, acc.data);
    assert RealDeposits(k, SettleOne(k, d, w, leaf, acc)) by { SameRealDeposits(k, d, w, leaf, acc); }
  }

  lemma {:induction false} DeleteAllMembers(rows: seq<UserState>, accs: seq<UserState>, r: UserState)
    ensures r in DeleteAll(rows, accs) <==>
      r in rows && (r.status != STATUS_PENDING || forall a :: a in accs ==> a.accountID != r.accountID)
  {
    if accs != [] {
      var m := |accs| - 1;
      DeleteAllMembers(rows, accs[..m], r);
      assert accs == accs[..m] + [accs[m]];
    }
  }

  lemma StillWaiting(k: Keccak, d: nat, l: Ledger, first: nat, accs: seq<UserState>, i: nat)
    requires Placed(d, l.leaves) && i < |accs| && first + |accs| <= Pow2(d)
    requires DistinctIds(accs) && accs[i] in l.pending && l.leaves[first + i].hash == ZERO_VALUE_LEAF
    ensures accs[i] in Moved(k, d, l, first, accs[..i]).pending
    ensures Moved(k, d, l, first, accs[..i]).leaves[first + i].hash == ZERO_VALUE_LEAF
  {
    PlaceAllHashes(k, d, l.leaves, first, accs[..i], first + i);
    DeleteAllMembers(l.pending, accs[..i], accs[i]);
    forall a | a in accs[..i] ensures a.accountID != accs[i].accountID {
      var j :| 0 <= j < i && accs[j] == a;
    }
  }

  lemma SettleAllStep(deposits: seq<Deposit>, settled: map<nat, nat>, first: nat, accs: seq<UserState>, i: nat)
    requires i < |accs|
    ensures SettleAll(deposits, settled, first, accs[..i + 1])
      == SettleNumber(SettleAll(deposits, settled, first, accs[..i]), Latest(deposits, accs[i].accountID), first + i)
  {
    assert accs[..i + 1][..i] == accs[..i];
  }

  /** Deposits still to be moved are still pending, and their leaves still empty. */
  lemma {:induction false} SettlingConserves(k: Keccak, d: nat, start: seq<UserState>, w: World, first: nat,
                                             accs: seq<UserState>, i: nat)
    requires Conserved(k, d, start, w) && Placed(d, w.ledger.leaves)
    requires d > 0 && i <= |accs| && first + |accs| <= Pow2(d)
    requires DistinctIds(accs) && forall a :: a in accs ==> a in w.ledger.pending
    requires forall n :: first <= n < first + |accs| ==> w.ledger.leaves[n].hash == ZERO_VALUE_LEAF
    ensures Conserved(k, d, start, World(Moved(k, d, w.ledger, first, accs[..i]), w.deposits,
                                         SettleAll(w.deposits, w.settled, first, accs[..i])))
  {
    hide Conserved, Placed, Moved, DistinctIds;
    if i == 0 {
      MovedNothing(k, d, w.ledger, first);
    } else {
      var j := i - 1;
      SettlingConserves(k, d, start, w, first, accs, j);
      var t := World(Moved(k, d, w.ledger, first, accs[..j]), w.deposits,
                     SettleAll(w.deposits, w.settled, first, accs[..j]));
      SettleAllStep(w.deposits, w.settled, first, accs, j);
      hide SettleAll, SettleNumber, Latest, KeptBy, Filter, SetLeaf;
      MovedStep(k, d, w.ledger, first, accs, j);
      StillWaiting(k, d, w.ledger, first, accs, j);
      SettleOneConserves(k, d, start, t, first + j, accs[j]);
    }
  }

  lemma FinaliseConserves(k: Keccak, d: nat, start: seq<UserState>, w: World, idx: nat, root: ByteArray)
    requires Conserved(k, d, start, w) && Placed(d, w.ledger.leaves)
    ensures Conserved(k, d, start, Next(k, d, w, DepositsFinalised(idx, root)))
  {
    if !Refused(d, w.ledger, idx) {
      var first, accs := FirstLeaf(d, idx), Taken(d, w.ledger, idx, root);
      assert accs[..|accs|] == accs;
      hide Next, Refused, Taken, FirstLeaf, DistinctIds, IsPending, PendingKnown, PendingHashed, RealDeposits,
        SettledHeld, Waiting, Settled, Placed;
      TakenFacts(d, w.ledger, idx, root);
      TargetIsVacant(d, w.ledger, idx);
      NextMoves(k, d, w, idx, root);
      if d == 0 {
        MovedNothing(k, d, w.ledger, first);
      } else {
        SettlingConserves(k, d, start, w, first, accs, |accs|);
      }
    }
  }

  lemma NextMoves(k: Keccak, d: nat, w: World, idx: nat, root: ByteArray)
    requires Placed(d, w.ledger.leaves) && !Refused(d, w.ledger, idx)
    ensures var first, accs := FirstLeaf(d, idx), Taken(d, w.ledger, idx, root);
      && Next(k, d, w, DepositsFinalised(idx, root))
         == World(Moved(k, d, w.ledger, first, accs), w.deposits, SettleAll(w.deposits, w.settled, first, accs))
      && (accs == [] ==> SettleAll(w.deposits, w.settled, first, accs) == w.settled)
  {
  }

  lemma TakenFacts(d: nat, l: Ledger, idx: nat, root: ByteArray)
    ensures DistinctIds(l.pending) ==> DistinctIds(Taken(d, l, idx, root))
    ensures forall a :: a in Taken(d, l, idx, root) ==> a in l.pending
    ensures Taken(d, l, idx, root) != [] ==> d > 0
  {
    var stamped := Filter(Stamped(root), l.pending);
    if DistinctIds(l.pending) { FilterKeepsDistinct(Stamped(root), l.pending); }
    assert forall a :: a in Taken(d, l, idx, root) ==> a in stamped;
  }

  lemma TargetIsVacant(d: nat, l: Ledger, idx: nat)
    requires Placed(d, l.leaves) && !Refused(d, l, idx)
    ensures forall n :: FirstLeaf(d, idx) <= n < FirstLeaf(d, idx) + Room(d, idx) ==>
      l.leaves[n].hash == ZERO_VALUE_LEAF
  {
    if Room(d, idx) > 0 {
      var q := PathOf(idx, d - 1);
      ValPathOf(idx, d - 1);
      assert Pow2(d - |q|) == 2 by { assert d - |q| == 1 && Pow2(1) == 2; }
      forall n | FirstLeaf(d, idx) <= n < FirstLeaf(d, idx) + 2 ensures l.leaves[n].hash == ZERO_VALUE_LEAF {
        BelowIsInterval(d, q, n);
        assert Hashes(l.leaves)[n] == ZERO_VALUE_LEAF;
      }
    }
  }

  /** Over every allowed run, whatever the order of its events. */
  lemma {:induction false} AnyRunConserves(k: Keccak, d: nat, start: seq<UserState>, w: World, steps: seq<Step>)
    requires Conserved(k, d, start, w) && AllowedRun(k, d, w, steps)
    ensures Conserved(k, d, start, Run(k, d, w, steps))
    decreases |steps|
  {
    if steps != [] {
      match steps[0] {
        case DepositQueued(id, data) => QueueConserves(k, d, start, w, id, data);
        case SubtreeReady(root) => ReadyConserves(k, d, start, w, root);
        case DepositsFinalised(idx, root) => FinaliseConserves(k, d, start, w, idx, root);
      }
      AnyRunConserves(k, d, start, Next(k, d, w, steps[0]), steps[1..]);
    }
  }

  /** A tree without deposits is where runs start. */
  lemma StartIsConserved(k: Keccak, d: nat, start: seq<UserState>)
    requires Placed(d, start) && Settled(start)
    ensures Conserved(k, d, start, NoDeposits(start))
  {
  }

  function NoDeposits(start: seq<UserState>): World {
    World(Ledger(start, []), [], map[])
  }

  /** Over every allowed run from a tree no deposit has reached yet. */
  lemma AnyRunFromStart(k: Keccak, d: nat, start: seq<UserState>, steps: seq<Step>)
    requires Placed(d, start) && Settled(start) && AllowedRun(k, d, NoDeposits(start), steps)
    ensures Conserved(k, d, start, Run(k, d, NoDeposits(start), steps))
  {
    StartIsConserved(k, d, start);
    AnyRunConserves(k, d, start, NoDeposits(start), steps);
  }

  // ---- When the deletes and stamps go wrong ----

  predicate HasId(rows: seq<UserState>, id: nat) {
    exists a :: a in rows && a.accountID == id
  }

  /** The pending rows the deletes of a finalisation remove. */
  function SharesId(accs: seq<UserState>): UserState -> bool {
    (r: UserState) => r.status == STATUS_PENDING && HasId(accs, r.accountID)
  }

  /**
    Rows are deleted by account id alone. What a finalisation deletes without
    moving it is counted by the pending rows that share an id with a moved one,
    and it loses nothing exactly when there are no more of those than moved rows.
   */
  lemma LostExactlyBySharedId(k: Keccak, d: nat, l: Ledger, idx: nat, root: ByteArray)
    requires Sound(d, l) && !Refused(d, l, idx)
    ensures var accs, left := Taken(d, l, idx, root), Finalise(k, d, l, idx, root).pending;
      var sharing := |Filter(SharesId(accs), l.pending)|;
      && |l.pending| - |left| - |accs| == sharing - |accs| >= 0
      && (multiset(l.pending) == multiset(accs) + multiset(left) <==> sharing == |accs|)
  {
    var accs, left := Taken(d, l, idx, root), Finalise(k, d, l, idx, root).pending;
    var shared := Filter(SharesId(accs), l.pending);
    DeleteAllSplits(l.pending, accs);
    TakenIsPart(d, l, idx, root);
    hide *;
    PartIsAllIff(l.pending, shared, accs, left);
  }

  lemma PartIsAllIff<T>(rows: seq<T>, shared: seq<T>, part: seq<T>, left: seq<T>)
    requires multiset(rows) == multiset(shared) + multiset(left) && multiset(part) <= multiset(shared)
    ensures multiset(rows) == multiset(part) + multiset(left) <==> |shared| == |part|
    ensures |shared| >= |part|
  {
    var extra := multiset(shared) - multiset(part);
    assert multiset(shared) == multiset(part) + extra;
    assert |multiset(shared)| == |shared| && |multiset(part)| == |part|;
    if multiset(rows) == multiset(part) + multiset(left) {
      assert |multiset(part) + multiset(left)| == |multiset(shared) + multiset(left)|;
    }
  }

  lemma DeleteAllSplits(rows: seq<UserState>, accs: seq<UserState>)
    ensures multiset(rows) == multiset(Filter(SharesId(accs), rows)) + multiset(DeleteAll(rows, accs))
    ensures |rows| == |Filter(SharesId(accs), rows)| + |DeleteAll(rows, accs)|
  {
    DeleteAllIsFilter(rows, accs);
    FilterSplits(SharesId(accs), Unshared(accs), rows);
  }

  function Unshared(accs: seq<UserState>): UserState -> bool {
    (r: UserState) => !(r.status == STATUS_PENDING && HasId(accs, r.accountID))
  }

  lemma {:induction false} DeleteAllIsFilter(rows: seq<UserState>, accs: seq<UserState>)
    ensures DeleteAll(rows, accs) == Filter(Unshared(accs), rows)
  {
    if accs == [] {
      forall r ensures Unshared(accs)(r) { assert !HasId(accs, r.accountID); }
      FilterAll(Unshared(accs), rows);
    } else {
      var m := |accs| - 1;
      DeleteAllIsFilter(rows, accs[..m]);
      forall r ensures Unshared(accs)(r) <==> KeptBy(accs[m].accountID)(r) && Unshared(accs[..m])(r) {
        OneMoreId(accs, r.accountID);
      }
      FilterTwice(KeptBy(accs[m].accountID), Unshared(accs[..m]), Unshared(accs), rows);
    }
  }

  lemma OneMoreId(accs: seq<UserState>, id: nat)
    requires accs != []
    ensures HasId(accs, id) <==> HasId(accs[..|accs| - 1], id) || accs[|accs| - 1].accountID == id
  {
    assert accs == accs[..|accs| - 1] + [accs[|accs| - 1]];
  }

  lemma TakenIsPart(d: nat, l: Ledger, idx: nat, root: ByteArray)
    ensures var accs := Taken(d, l, idx, root);
      multiset(accs) <= multiset(Filter(SharesId(accs), l.pending))
  {
    var stamped, accs := Filter(Stamped(root), l.pending), Taken(d, l, idx, root);
    assert stamped == accs + stamped[|accs|..];
    forall x | x in accs ensures multiset(accs)[x] <= multiset(Filter(SharesId(accs), l.pending))[x] {
      assert x in stamped;
      FilterCount(Stamped(root), l.pending, x);
      FilterCount(SharesId(accs), l.pending, x);
    }
  }

  lemma TwoPlaced(k: Keccak, d: nat, leaves: seq<UserState>, first: nat, r: UserState, x: UserState)
    requires Placed(d, leaves) && first + 2 <= Pow2(d)
    ensures PlaceAll(k, d, leaves, first, [r, x])
      == SetLeaf(k, d, SetLeaf(k, d, leaves, first, r.data), first + 1, x.data)
  {
    assert [r, x][..1] == [r] && [r][..0] == [];
    hide Placed, Pow2;
    assert PlaceAll(k, d, leaves, first, [r]) == SetLeaf(k, d, leaves, first, r.data);
  }

  /** Two equal deposits of one account, with another in between: the third row goes and is in no leaf. */
  lemma EqualDepositLost(k: Keccak, leaves: seq<UserState>, r: UserState, x: UserState, root: ByteArray)
    requires Placed(2, leaves) && Settled(leaves) && forall n: nat :: n < 2 ==> EmptyAt(leaves, n)
    requires Stamped(root)(r) && Stamped(root)(x) && r.accountID != x.accountID
    ensures var t := Finalise(k, 2, Ledger(leaves, [r, x, r]), 0, root);
      t.pending == [] && t.leaves == SetLeaf(k, 2, SetLeaf(k, 2, leaves, 0, r.data), 1, x.data)
  {
    var l := Ledger(leaves, [r, x, r]);
    assert Pow2(1) == 2;
    AddressedLeaves(2, l, 0);
    FilterAll(Stamped(root), l.pending);
    var accs := Taken(2, l, 0, root);
    assert accs == [r, x];
    if DeleteAll(l.pending, accs) != [] {
      DeleteAllMembers(l.pending, accs, DeleteAll(l.pending, accs)[0]);
    }
    hide Refused, DeleteAll, Filter, Taken, PlaceAll, SetLeaf, Placed, Settled;
    TwoPlaced(k, 2, leaves, 0, r, x);
    assert FirstLeaf(2, 0) == 0;
    assert Finalise(k, 2, l, 0, root).leaves == PlaceAll(k, 2, leaves, 0, [r, x]);
  }

  /** A crash after deposit i has reached its leaf and before its pending row is deleted. */
  function CrashedBeforeDelete(k: Keccak, d: nat, l: Ledger, idx: nat, root: ByteArray, i: nat): (c: Ledger)
    requires Placed(d, l.leaves) && i < |Taken(d, l, idx, root)|
    ensures Placed(d, c.leaves)
  {
    var accs := Taken(d, l, idx, root);
    Ledger(PlaceAll(k, d, l.leaves, FirstLeaf(d, idx), accs[..i + 1]), DeleteAll(l.pending, accs[..i]))
  }

  lemma MidMoveLeavesBoth(k: Keccak, d: nat, l: Ledger, first: nat, accs: seq<UserState>, i: nat)
    requires d > 0 && Placed(d, l.leaves) && i < |accs| && first + |accs| <= Pow2(d)
    requires DistinctIds(accs) && accs[i] in l.pending && l.leaves[first + i].hash == ZERO_VALUE_LEAF
    ensures accs[i] in DeleteAll(l.pending, accs[..i])
    ensures var leaf := PlaceAll(k, d, l.leaves, first, accs[..i + 1])[first + i];
      leaf.hash == k(accs[i].data) && (accs[i].data != [] ==> leaf.data == accs[i].data)
  {
    hide DistinctIds;
    StillWaiting(k, d, l, first, accs, i);
    MovedStep(k, d, l, first, accs, i);
    hide DeleteAll, Filter, PathOf, Pow2;
  }

  /**
    Such a crash leaves the deposit both pending and in a leaf, and for good: the
    same finalisation, delivered again, is refused and changes nothing.
   */
  lemma CrashLeavesBoth(k: Keccak, d: nat, l: Ledger, idx: nat, root: ByteArray, i: nat)
    requires Sound(d, l) && !Refused(d, l, idx) && DistinctIds(l.pending) && i < |Taken(d, l, idx, root)|
    requires k(Taken(d, l, idx, root)[i].data) != ZERO_VALUE_LEAF
    ensures var acc, c := Taken(d, l, idx, root)[i], CrashedBeforeDelete(k, d, l, idx, root, i);
      && acc in c.pending && c.leaves[FirstLeaf(d, idx) + i].hash == k(acc.data)
      && (acc.data != [] ==> c.leaves[FirstLeaf(d, idx) + i].data == acc.data)
      && FinaliseOutcome(d, c, idx, root) == Failed(NotVacant) && Finalise(k, d, c, idx, root) == c
  {
    var accs, first := Taken(d, l, idx, root), FirstLeaf(d, idx);
    var c := CrashedBeforeDelete(k, d, l, idx, root, i);
    assert i < Room(d, idx) == 2 && first == 2 * idx;
    assert accs[i] in accs;
    TakenFacts(d, l, idx, root);
    TargetIsVacant(d, l, idx);
    hide PlaceAll, DeleteAll, DistinctIds, Waiting, Settled, Taken, Refused, Placed, Pow2, Filter, Vacant, PathOf,
      Moved;
    MidMoveLeavesBoth(k, d, l, first, accs, i);
    AddressedLeaves(d, c, idx);
    assert !EmptyAt(c.leaves, first + i);
  }

  /** A ready subtree consists of everything pending at that time and nothing queued later. */
  lemma ReadyCoversPending(waiting: seq<UserState>, later: seq<UserState>, root: ByteArray)
    requires Waiting(waiting) && forall r :: r in later ==> r.createdBy == None
    ensures Filter(Stamped(root), Attach(waiting, root) + later) == Attach(waiting, root)
  {
    FilterConcat(Stamped(root), Attach(waiting, root), later);
    FilterAll(Stamped(root), Attach(waiting, root));
    FilterAll(Stamped(root), later);
  }

  /**
    A second ready subtree takes the deposits of a first one that is not finalised
    yet: nothing is left for the first root exactly when the roots differ or
    nothing was pending.
   */
  lemma SecondReadyTakesAll(waiting: seq<UserState>, root: ByteArray, second: ByteArray)
    requires Waiting(waiting)
    ensures Filter(Stamped(root), Attach(Attach(waiting, root), second)) == [] <==> root != second || waiting == []
  {
    var rows := Attach(Attach(waiting, root), second);
    FilterAll(Stamped(root), rows);
    if waiting != [] {
      assert rows[0] in rows;
    }
  }
}
