/**
  The pool of pending transactions (core/tx.go): inserting, counting per type and
  popping the oldest ones for a batch.
 */
module Mempool {
  import opened Bytes
  import opened Queries

  const TX_STATUS_PENDING := 100
  const TX_STATUS_PROCESSING := 200
  const TX_TRANSFER_TYPE := 1

  datatype Tx = Tx(id: nat, typ: nat, status: nat, createdAt: nat)

  function PendingOf(typ: nat): Tx -> bool {
    (t: Tx) => t.typ == typ && t.status == TX_STATUS_PENDING
  }

  /** The condition built from a struct: a zero type is not part of it. */
  function Selected(typ: nat): Tx -> bool {
    (t: Tx) => t.status == TX_STATUS_PENDING && (typ == 0 || t.typ == typ)
  }

  // ---- ORDER BY created_at ----

  /** A row put behind all rows that are not younger. */
  function InsertByTime(rows: seq<Tx>, t: Tx): seq<Tx> {
    if rows == [] || rows[|rows| - 1].createdAt <= t.createdAt then rows + [t]
    else InsertByTime(rows[..|rows| - 1], t) + [rows[|rows| - 1]]
  }

  function ByTime(rows: seq<Tx>): seq<Tx> {
    if rows == [] then [] else InsertByTime(ByTime(rows[..|rows| - 1]), rows[|rows| - 1])
  }

  predicate InOrder(rows: seq<Tx>) {
    forall i, j :: 0 <= i < j < |rows| ==> rows[i].createdAt <= rows[j].createdAt
  }

  lemma {:induction false} InsertKeepsOrder(rows: seq<Tx>, t: Tx)
    requires InOrder(rows)
    ensures InOrder(InsertByTime(rows, t))
    ensures multiset(InsertByTime(rows, t)) == multiset(rows) + multiset{t}
  {
    if rows != [] && rows[|rows| - 1].createdAt > t.createdAt {
      var init, last := rows[..|rows| - 1], rows[|rows| - 1];
      InsertKeepsOrder(init, t);
      assert rows == init + [last];
      hide InOrder;
      AllOlder(init, InsertByTime(init, t), t, last);
      AppendLast(InsertByTime(init, t), last);
    }
  }

  /** After an insertion all rows are still no younger than the last one. */
  lemma AllOlder(init: seq<Tx>, sorted: seq<Tx>, t: Tx, last: Tx)
    requires InOrder(init + [last]) && t.createdAt <= last.createdAt
    requires multiset(sorted) == multiset(init) + multiset{t}
    ensures forall x :: x in sorted ==> x.createdAt <= last.createdAt
  {
    var rows := init + [last];
    forall x | x in sorted ensures x == t || x in init {
      assert x in multiset(sorted);
    }
    forall x | x in init ensures x.createdAt <= last.createdAt {
      var i :| 0 <= i < |init| && init[i] == x;
      assert rows[i] == x && rows[|init|] == last;
    }
  }

  lemma AppendLast(rows: seq<Tx>, last: Tx)
    requires InOrder(rows) && forall x :: x in rows ==> x.createdAt <= last.createdAt
    ensures InOrder(rows + [last])
  {
  }

  lemma {:induction false} ByTimeSorts(rows: seq<Tx>)
    ensures InOrder(ByTime(rows)) && multiset(ByTime(rows)) == multiset(rows)
  {
    if rows != [] {
      assert rows == rows[..|rows| - 1] + [rows[|rows| - 1]];
      ByTimeSorts(rows[..|rows| - 1]);
      InsertKeepsOrder(ByTime(rows[..|rows| - 1]), rows[|rows| - 1]);
    }
  }

  lemma {:induction false} ByTimeOfOrdered(rows: seq<Tx>)
    requires InOrder(rows)
    ensures ByTime(rows) == rows
  {
    if rows != [] {
      assert rows == rows[..|rows| - 1] + [rows[|rows| - 1]];
      ByTimeOfOrdered(rows[..|rows| - 1]);
    }
  }

  // ---- Popping ----

  function TypeToPop(txs: seq<Tx>): nat {
    if |Filter(PendingOf(TX_TRANSFER_TYPE), txs)| > 0 then TX_TRANSFER_TYPE else 0
  }

  function Popped(txs: seq<Tx>, limit: nat): (p: seq<Tx>)
    ensures |p| <= limit
  {
    var found := ByTime(Filter(Selected(TypeToPop(txs)), txs));
    if |found| <= limit then found else found[..limit]
  }

  predicate HasId(txs: seq<Tx>, id: nat) {
    exists i :: 0 <= i < |txs| && txs[i].id == id
  }

  /** UPDATE ... SET status WHERE id IN (..) */
  function MarkProcessing(txs: seq<Tx>, popped: seq<Tx>): (t: seq<Tx>)
    ensures |t| == |txs|
  {
    seq(|txs|, i requires 0 <= i < |txs| =>
      if HasId(popped, txs[i].id) then txs[i].(status := TX_STATUS_PROCESSING) else txs[i])
  }

  class Pool {
    const txsPerBatch: nat
    var txs: seq<Tx>

    method InsertTx(t: Tx)
      modifies this
      ensures txs == old(txs) + [t]
    {
      txs := txs + [t];
    }

    method GetCountPerTxType(typ: nat) returns (count: nat)
      ensures count == |Filter(PendingOf(typ), txs)|
    {
      count := |Filter(PendingOf(typ), txs)|;
    }

    /** The pending type with the highest count; zero when nothing of a known type is pending. */
    method FetchTxType() returns (txType: nat)
      ensures txType == TypeToPop(txs)
      ensures txType == if exists t :: t in txs && t.typ == 1 && t.status == 100 then 1 else 0
    {
      TypeToPopIs(txs);
      var maxCount := 0;
      txType := 0;
      var txTypes := [TX_TRANSFER_TYPE];
      for i := 0 to |txTypes|
        invariant i == 0 ==> txType == 0 && maxCount == 0
        invariant i == 1 ==> txType == TypeToPop(txs)
      {
        var count := GetCountPerTxType(txTypes[i]);
        if count > maxCount {
          txType, maxCount := txTypes[i], count;
        }
      }
    }

    method PopTxs() returns (popped: seq<Tx>)
      modifies this
      ensures popped == Popped(old(txs), txsPerBatch)
      ensures txs == MarkProcessing(old(txs), popped)
      ensures |txs| == |old(txs)| && forall i :: 0 <= i < |txs| ==>
        txs[i] == if exists p :: p in popped && p.id == old(txs)[i].id then old(txs)[i].(status := 200) else old(txs)[i]
    {
      var txType := FetchTxType();
      var found := ByTime(Filter(Selected(txType), txs));
      popped := if |found| <= txsPerBatch then found else found[..txsPerBatch];
      txs := MarkProcessing(txs, popped);
    }
  }

  /** On every table: the popped ones are selected, and no selected one left behind is older. */
  lemma PopsTheOldest(txs: seq<Tx>, limit: nat, t: Tx)
    requires t in Popped(txs, limit)
    ensures t in txs && Selected(TypeToPop(txs))(t) && t.status == 100
    ensures forall u :: u in txs && Selected(TypeToPop(txs))(u) ==>
      u in Popped(txs, limit) || (t.createdAt <= u.createdAt && |Popped(txs, limit)| == limit)
  {
    var found := Filter(Selected(TypeToPop(txs)), txs);
    var sorted, popped := ByTime(found), Popped(txs, limit);
    ByTimeSorts(found);
    assert forall u :: u in found <==> u in sorted by {
      assert forall u :: u in found <==> u in multiset(found);
      assert forall u :: u in sorted <==> u in multiset(sorted);
    }
    assert t in sorted && popped == if |sorted| <= limit then sorted else sorted[..limit];
    hide Filter, ByTime, Popped, Selected;
    forall u | u in found && u !in popped ensures t.createdAt <= u.createdAt && |popped| == limit {
      EarlierIsOlder(sorted, popped, t, u);
    }
  }

  lemma EarlierIsOlder(sorted: seq<Tx>, front: seq<Tx>, t: Tx, u: Tx)
    requires InOrder(sorted) && front <= sorted && t in front && u in sorted && u !in front
    ensures t.createdAt <= u.createdAt
  {
    var i :| 0 <= i < |front| && front[i] == t;
    var j :| 0 <= j < |sorted| && sorted[j] == u;
    assert front[i] == sorted[i];
    assert j >= |front|;
  }

  lemma TypeToPopIs(txs: seq<Tx>)
    ensures TypeToPop(txs) == if exists t :: t in txs && t.typ == 1 && t.status == 100 then 1 else 0
  {
    var transfers := Filter(PendingOf(TX_TRANSFER_TYPE), txs);
    if transfers != [] { assert transfers[0] in transfers; }
    if t :| t in txs && t.typ == 1 && t.status == 100 { assert t in transfers; }
  }

  // ---- First in, first out ----

  /** Rows are in insertion order: ids are unique, and creation times do not fall. */
  predicate Increasing(txs: seq<Tx>) {
    && InOrder(txs)
    && (forall i, j :: 0 <= i < j < |txs| ==> txs[i].id != txs[j].id)
  }

  /** The two queues of the pool: pending transfers, and pending transactions of other types. */
  function InQueue(transfers: bool): Tx -> bool {
    (t: Tx) => t.status == TX_STATUS_PENDING && (t.typ == TX_TRANSFER_TYPE) == transfers
  }

  function Queue(txs: seq<Tx>, transfers: bool): seq<Tx> {
    Filter(InQueue(transfers), txs)
  }

  lemma {:induction false} FilterKeepsOrder(f: Tx -> bool, txs: seq<Tx>)
    requires InOrder(txs)
    ensures InOrder(Filter(f, txs))
  {
    if txs != [] {
      var init := txs[..|txs| - 1];
      FilterKeepsOrder(f, init);
      forall i | 0 <= i < |Filter(f, init)| ensures Filter(f, init)[i].createdAt <= txs[|txs| - 1].createdAt {
        assert Filter(f, init)[i] in init;
      }
    }
  }

  /** The queue a pop serves: transfers as long as one is pending. */
  function Front(txs: seq<Tx>): bool {
    Queue(txs, true) != []
  }

  function Count(queue: seq<Tx>, limit: nat): (n: nat)
    ensures n <= |queue| && n <= limit
  {
    if |queue| <= limit then |queue| else limit
  }

  /** A pop takes the first ones of the front queue. */
  lemma PopTakesFront(txs: seq<Tx>, limit: nat)
    requires Increasing(txs)
    ensures var queue := Queue(txs, Front(txs)); Popped(txs, limit) == queue[..Count(queue, limit)]
  {
    SelectsFront(txs);
    FilterKeepsOrder(InQueue(Front(txs)), txs);
    hide Filter, Selected, InQueue, Increasing, TypeToPop, Front, InOrder;
    ByTimeOfOrdered(Queue(txs, Front(txs)));
  }

  lemma SelectsFront(txs: seq<Tx>)
    ensures Filter(Selected(TypeToPop(txs)), txs) == Queue(txs, Front(txs))
  {
    var f := Selected(TypeToPop(txs));
    FilterAgree(PendingOf(TX_TRANSFER_TYPE), InQueue(true), txs);
    assert TypeToPop(txs) == if Front(txs) then TX_TRANSFER_TYPE else 0;
    forall t | t in txs ensures f(t) == InQueue(Front(txs))(t) {
      assert InQueue(true)(t) ==> t in Queue(txs, true);
    }
    hide TypeToPop, Front;
    FilterAgree(f, InQueue(Front(txs)), txs);
  }

  lemma MarkConcat(a: seq<Tx>, b: seq<Tx>, popped: seq<Tx>)
    ensures MarkProcessing(a + b, popped) == MarkProcessing(a, popped) + MarkProcessing(b, popped)
  {
  }

  lemma MarkOthers(txs: seq<Tx>, popped: seq<Tx>, last: Tx)
    requires forall t :: t in txs ==> t.id != last.id
    ensures MarkProcessing(txs, popped + [last]) == MarkProcessing(txs, popped)
  {
    forall i | 0 <= i < |txs| ensures HasId(popped + [last], txs[i].id) <==> HasId(popped, txs[i].id) {
      if HasId(popped, txs[i].id) {
        var j :| 0 <= j < |popped| && popped[j].id == txs[i].id;
        assert (popped + [last])[j].id == txs[i].id;
      }
      assert txs[i] in txs;
    }
  }

  lemma MarkLast(popped: seq<Tx>, t: Tx)
    ensures HasId(popped + [t], t.id)
    ensures (forall u :: u in popped ==> u.id != t.id) ==> !HasId(popped, t.id)
  {
    assert (popped + [t])[|popped|].id == t.id;
  }

  /** after has the rest of a queue behind its first n, and the other queue as it was. */
  predicate FrontMarked(txs: seq<Tx>, after: seq<Tx>, transfers: bool, n: nat) {
    n <= |Queue(txs, transfers)| && Queue(after, transfers) == Queue(txs, transfers)[n..]
    && Queue(after, !transfers) == Queue(txs, !transfers)
  }

  lemma {:induction false} MarkFront(txs: seq<Tx>, transfers: bool, n: nat)
    requires Increasing(txs) && n <= |Queue(txs, transfers)|
    ensures FrontMarked(txs, MarkProcessing(txs, Queue(txs, transfers)[..n]), transfers, n)
  {
    if txs == [] {
      assert MarkProcessing(txs, Queue(txs, transfers)[..n]) == [];
    } else {
      var init, last := txs[..|txs| - 1], txs[|txs| - 1];
      var queue := Queue(init, transfers);
      assert txs == init + [last];
      LastIsNew(init, last, transfers);
      LastOfQueue(init, last);
      var m := if n <= |queue| then n else |queue|;
      hide Queue, Increasing, MarkProcessing, HasId, FrontMarked, InQueue;
      MarkFront(init, transfers, m);
      MarkedLast(init, last, queue[..m], n > |queue|);
      JoinMarked(init, last, transfers, n);
    }
  }

  lemma LastIsNew(init: seq<Tx>, last: Tx, transfers: bool)
    requires Increasing(init + [last])
    ensures Increasing(init) && forall t :: t in init ==> t.id != last.id
    ensures forall t :: t in Queue(init, transfers) ==> t.id != last.id
  {
    var txs := init + [last];
    assert txs[|init|] == last && forall i :: 0 <= i < |init| ==> txs[i] == init[i];
  }

  lemma JoinMarked(init: seq<Tx>, last: Tx, transfers: bool, n: nat)
    requires n <= |Queue(init + [last], transfers)|
    requires var queue := Queue(init, transfers);
      var m := if n <= |queue| then n else |queue|;
      var after := MarkProcessing(init, queue[..m]);
      && FrontMarked(init, after, transfers, m)
      && MarksLast(init, last, queue[..m], n > |queue|)
    ensures var txs := init + [last];
      FrontMarked(txs, MarkProcessing(txs, Queue(txs, transfers)[..n]), transfers, n)
  {
    LastOfQueue(init, last);
    var queue, whole := Queue(init, transfers), Queue(init + [last], transfers);
    hide Queue, MarkProcessing;
    if n <= |queue| {
      assert whole[..n] == queue[..n];
    } else {
      assert queue[..|queue|] == queue && whole[..n] == queue + [last];
    }
  }

  /** The last row of a table is marked or not, the others as before. */
  predicate MarksLast(init: seq<Tx>, last: Tx, popped: seq<Tx>, too: bool) {
    var after := MarkProcessing(init + [last], if too then popped + [last] else popped);
    forall transfers ::
      Queue(after, transfers)
      == Queue(MarkProcessing(init, popped), transfers) + if !too && InQueue(transfers)(last) then [last] else []
  }

  lemma MarkedLast(init: seq<Tx>, last: Tx, popped: seq<Tx>, too: bool)
    requires forall t :: t in init ==> t.id != last.id
    requires forall t :: t in popped ==> t.id != last.id
    ensures MarksLast(init, last, popped, too)
  {
    var all := if too then popped + [last] else popped;
    if too { MarkOthers(init, popped, last); }
    MarkLast(popped, last);
    MarkConcat(init, [last], all);
    var t := MarkProcessing([last], all)[0];
    assert MarkProcessing([last], all) == [t];
    hide Queue;
    LastOfQueue(MarkProcessing(init, popped), t);
  }

  lemma LastOfQueue(txs: seq<Tx>, t: Tx)
    ensures forall transfers ::
      Queue(txs + [t], transfers) == Queue(txs, transfers) + if InQueue(transfers)(t) then [t] else []
  {
    assert (txs + [t])[..|txs|] == txs;
  }

  datatype Op = Insert(tx: Tx) | Pop

  /** Inserted rows are new and not older; type and status are free. */
  predicate AllowedOp(txs: seq<Tx>, op: Op) {
    op.Insert? ==> forall i :: 0 <= i < |txs| ==> txs[i].createdAt <= op.tx.createdAt && txs[i].id != op.tx.id
  }

  function After(txs: seq<Tx>, limit: nat, op: Op): seq<Tx> {
    match op
    case Insert(t) => txs + [t]
    case Pop => MarkProcessing(txs, Popped(txs, limit))
  }

  predicate AllowedOps(txs: seq<Tx>, limit: nat, ops: seq<Op>)
    decreases |ops|
  {
    ops != [] ==> AllowedOp(txs, ops[0]) && AllowedOps(After(txs, limit, ops[0]), limit, ops[1..])
  }

  function AfterAll(txs: seq<Tx>, limit: nat, ops: seq<Op>): seq<Tx>
    decreases |ops|
  {
    if ops == [] then txs else AfterAll(After(txs, limit, ops[0]), limit, ops[1..])
  }

  function Returned(txs: seq<Tx>, limit: nat, op: Op): seq<Tx> {
    if op.Pop? then Popped(txs, limit) else []
  }

  /** Everything the pops return, one after the other. */
  function Output(txs: seq<Tx>, limit: nat, ops: seq<Op>): seq<Tx>
    decreases |ops|
  {
    if ops == [] then []
    else Returned(txs, limit, ops[0]) + Output(After(txs, limit, ops[0]), limit, ops[1..])
  }

  /** Everything that is inserted. */
  function Input(ops: seq<Op>): seq<Tx> {
    if ops == [] then [] else (if ops[0].Insert? then [ops[0].tx] else []) + Input(ops[1..])
  }

  function Pops(ops: seq<Op>): nat {
    if ops == [] then 0 else (if ops[0].Pop? then 1 else 0) + Pops(ops[1..])
  }

  /** One pop, on a table that may hold any types and statuses: what leaves a queue are its first rows. */
  lemma PopServesNext(txs: seq<Tx>, limit: nat, transfers: bool)
    requires Increasing(txs)
    ensures var popped, after := Popped(txs, limit), MarkProcessing(txs, Popped(txs, limit));
      && Increasing(after)
      && Queue(popped, transfers) + Queue(after, transfers) == Queue(txs, transfers)
      && Queue(popped, Front(txs)) == Queue(txs, Front(txs))[..Count(Queue(txs, Front(txs)), limit)]
  {
    var front := Front(txs);
    var n := Count(Queue(txs, front), limit);
    hide Queue, Popped, MarkProcessing, Increasing, Front, Count;
    PopTakesFront(txs, limit);
    MarkFront(txs, front, n);
    MarkKeepsIds(txs, Queue(txs, front)[..n]);
    PartOfQueue(txs, front, n);
    if transfers != front {
      assert [] + Queue(txs, transfers) == Queue(txs, transfers);
    }
  }

  lemma PartOfQueue(txs: seq<Tx>, transfers: bool, n: nat)
    requires n <= |Queue(txs, transfers)|
    ensures var part := Queue(txs, transfers)[..n]; Queue(part, transfers) == part && Queue(part, !transfers) == []
  {
    var queue := Queue(txs, transfers);
    assert forall t :: t in queue[..n] ==> t in queue;
    FilterAll(InQueue(transfers), queue[..n]);
    FilterAll(InQueue(!transfers), queue[..n]);
  }

  lemma MarkKeepsIds(txs: seq<Tx>, popped: seq<Tx>)
    requires Increasing(txs)
    ensures Increasing(MarkProcessing(txs, popped))
  {
    var after := MarkProcessing(txs, popped);
    assert forall i :: 0 <= i < |txs| ==> after[i].id == txs[i].id && after[i].createdAt == txs[i].createdAt;
  }

  /** One operation: out of a queue in front, into it at the end. */
  lemma OpServes(txs: seq<Tx>, limit: nat, op: Op, transfers: bool)
    requires Increasing(txs) && AllowedOp(txs, op)
    ensures Increasing(After(txs, limit, op))
    ensures Queue(Returned(txs, limit, op), transfers) + Queue(After(txs, limit, op), transfers)
      == Queue(txs, transfers) + Queue(Input([op]), transfers)
  {
    FilterAll(InQueue(transfers), []);
    match op {
      case Insert(t) =>
        assert Input([op]) == [t];
        InsertServes(txs, t, transfers);
      case Pop =>
        assert Input([op]) == [];
        PopServesNext(txs, limit, transfers);
        hide Filter, Popped, Increasing, MarkProcessing, Front, InQueue, Count;
        assert Queue(txs, transfers) + [] == Queue(txs, transfers);
    }
  }

  lemma InsertServes(txs: seq<Tx>, t: Tx, transfers: bool)
    requires Increasing(txs) && AllowedOp(txs, Insert(t))
    ensures Increasing(txs + [t])
    ensures [] + Queue(txs + [t], transfers) == Queue(txs, transfers) + Queue([t], transfers)
  {
    FilterConcat(InQueue(transfers), txs, [t]);
    hide Filter, InQueue;
    assert [] + Queue(txs + [t], transfers) == Queue(txs + [t], transfers);
  }

  /**
    Over any run of inserts and pops, of any types and statuses, and for either
    queue: what was returned, followed by what still waits, is what waited at the
    start followed by what was inserted. So no transaction is returned twice, none
    is skipped, and each queue is served in the order of creation.
   */
  lemma {:induction false} RunIsFifo(txs: seq<Tx>, limit: nat, ops: seq<Op>, transfers: bool)
    requires Increasing(txs) && AllowedOps(txs, limit, ops)
    ensures Queue(Output(txs, limit, ops), transfers) + Queue(AfterAll(txs, limit, ops), transfers)
      == Queue(txs, transfers) + Queue(Input(ops), transfers)
    decreases |ops|
  {
    hide After, Filter, Increasing, Returned, AllowedOp;
    if ops == [] {
      assert Queue([], transfers) == [] by { FilterAll(InQueue(transfers), []); }
      assert [] + Queue(txs, transfers) == Queue(txs, transfers) + [];
    } else {
      var next, f := After(txs, limit, ops[0]), InQueue(transfers);
      OpServes(txs, limit, ops[0], transfers);
      RunIsFifo(next, limit, ops[1..], transfers);
      FilterConcat(f, Returned(txs, limit, ops[0]), Output(next, limit, ops[1..]));
      InputStep(ops);
      FilterConcat(f, Input([ops[0]]), Input(ops[1..]));
      JoinQueues(Queue(Returned(txs, limit, ops[0]), transfers), Queue(Output(next, limit, ops[1..]), transfers),
                 Queue(txs, transfers), Queue(next, transfers), Queue(AfterAll(next, limit, ops[1..]), transfers),
                 Queue(Input([ops[0]]), transfers), Queue(Input(ops[1..]), transfers));
    }
  }

  lemma InputStep(ops: seq<Op>)
    requires ops != []
    ensures Input(ops) == Input([ops[0]]) + Input(ops[1..])
  {
    assert Input([ops[0]]) == if ops[0].Insert? then [ops[0].tx] else [];
  }

  lemma JoinQueues(out: seq<Tx>, rest: seq<Tx>, a: seq<Tx>, b: seq<Tx>, c: seq<Tx>, i: seq<Tx>, more: seq<Tx>)
    requires out + b == a + i && rest + c == b + more
    ensures (out + rest) + c == a + (i + more)
  {
    assert (out + rest) + c == out + (rest + c);
    assert out + (b + more) == (out + b) + more;
    assert (a + i) + more == a + (i + more);
  }

  /** A pending transfer with k older ones is among the transfers returned by pop number k / limit + 1, in its place. */
  lemma {:induction false} PoppedInTime(txs: seq<Tx>, limit: nat, ops: seq<Op>, k: nat)
    requires Increasing(txs) && AllowedOps(txs, limit, ops) && limit >= 1 && k < |Queue(txs, true)|
    requires Pops(ops) >= k / limit + 1
    ensures var transfers := Queue(Output(txs, limit, ops), true);
      k < |transfers| && transfers[k] == Queue(txs, true)[k]
    decreases |ops|
  {
    hide Increasing, AllowedOp, Filter, MarkProcessing, Popped, Count;
    if ops == [] {
      QuotientNotNegative(k, limit);
    } else {
      var next := After(txs, limit, ops[0]);
      var out, rest := Returned(txs, limit, ops[0]), Output(next, limit, ops[1..]);
      OpServes(txs, limit, ops[0], true);
      FilterConcat(InQueue(true), out, rest);
      var first, queue := Queue(out, true), Queue(txs, true);
      RoundOf(txs, limit, ops[0]);
      hide After, Returned, Queue;
      if k >= |first| {
        NextDeadline(ops, k, |first|, limit);
        assert first + Queue(next, true) == queue + Queue(Input([ops[0]]), true);
        PoppedInTime(next, limit, ops[1..], k - |first|);
      }
      InFront(first, Queue(rest, true), Queue(next, true), queue, Queue(Input([ops[0]]), true), k);
    }
  }

  /** A place in the queue, after some of its front were returned. */
  lemma InFront(first: seq<Tx>, rest: seq<Tx>, left: seq<Tx>, queue: seq<Tx>, more: seq<Tx>, k: nat)
    requires first + left == queue + more && k < |queue|
    requires k >= |first| ==> k - |first| < |rest| && k - |first| < |left| && rest[k - |first|] == left[k - |first|]
    ensures k < |first + rest| && (first + rest)[k] == queue[k]
  {
    assert (first + left)[k] == (queue + more)[k] == queue[k];
  }

  lemma NextDeadline(ops: seq<Op>, k: nat, n: nat, limit: nat)
    requires ops != [] && limit >= 1 && Pops(ops) >= k / limit + 1 && n <= k
    requires if ops[0].Pop? then n == limit else n == 0
    ensures Pops(ops[1..]) >= (k - n) / limit + 1
  {
    if ops[0].Pop? { OneRoundLess(k, limit); }
  }

  /** How many transfers one operation returns, while some are pending. */
  lemma RoundOf(txs: seq<Tx>, limit: nat, op: Op)
    requires Increasing(txs) && Front(txs)
    ensures var n := |Queue(Returned(txs, limit, op), true)|;
      if op.Pop? then n == Count(Queue(txs, true), limit) && (n < |Queue(txs, true)| ==> n == limit) else n == 0
  {
    if op.Pop? { PopServesNext(txs, limit, true); }
  }

  lemma QuotientNotNegative(a: int, b: nat)
    requires b >= 1
    ensures a >= 0 ==> a / b >= 0
  {
  }

  lemma OneRoundLess(k: nat, limit: nat)
    requires limit >= 1 && k >= limit
    ensures (k - limit) / limit == k / limit - 1
  {
    var q, r := k / limit, k % limit;
    assert k - limit == (q - 1) * limit + r;
    var q', r' := (k - limit) / limit, (k - limit) % limit;
    assert (q' - (q - 1)) * limit == r - r';
    if q' > q - 1 { Positive(q' - (q - 1), limit); }
    if q' < q - 1 { Positive((q - 1) - q', limit); }
  }

  lemma Positive(a: int, b: nat)
    requires a >= 1
    ensures a * b >= b
  {
  }

  /** While a transfer is pending no other type is popped; once none is, every pending type is. */
  lemma OtherTypesWait(txs: seq<Tx>, limit: nat, t: Tx)
    requires t in Popped(txs, limit)
    ensures t in txs && t.status == TX_STATUS_PENDING
    ensures t.typ == 1 <==> exists u :: u in txs && PendingOf(TX_TRANSFER_TYPE)(u)
  {
    PopsTheOldest(txs, limit, t);
    var transfers := Filter(PendingOf(TX_TRANSFER_TYPE), txs);
    if |transfers| > 0 { assert transfers[0] in transfers; }
    if t.typ == TX_TRANSFER_TYPE { assert PendingOf(TX_TRANSFER_TYPE)(t); }
  }
}
