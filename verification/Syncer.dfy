/**
  Synchronising with the chain (listener/syncer.go, listener/processors.go,
  core/params.go, core/batch.go): the header loop fetches a window of logs, one
  worker processes it, and batches seen before are not applied again.
 */
module Syncer {
  import opened Bytes
  import opened Queries

  // ---- Chain and tables ----

  datatype BatchEvent = BatchEvent(index: nat, batchType: nat, root: ByteArray, committer: nat, txs: seq<seq<byte>>)

  datatype Event = NewBatch(batch: BatchEvent) | OtherEvent(data: seq<byte>)

  datatype Log = Log(block: nat, event: Event)

  const TX_GENESIS := 0
  const BATCH_COMMITTED := 200

  datatype Batch = Batch(
    batchID: nat, stateRoot: ByteArray, transactions: seq<byte>, committer: nat,
    stakeAmount: nat, finalisesOn: nat, status: nat)

  /**
    What CommitBatch does to the table. It calls the ORM's Update on a handle
    without a model, so its effect is a parameter.
   */
  type CommitUpdate = (seq<Batch>, Batch) -> seq<Batch>

  /** What the handlers read besides the event: the parameters, stored before synchronising starts. */
  datatype Setup = Setup(commit: CommitUpdate, stakeAmount: nat, finalisationTime: nat)

  /** applied: the calls of ApplyTxsFromBatch; dispatched: every log handed to a handler. */
  datatype Node = Node(
    batches: seq<Batch>, applied: seq<BatchEvent>, dispatched: seq<Log>,
    lastBlock: nat, lastBatch: nat, setup: Setup)

  function ConcatTxs(txs: seq<seq<byte>>): seq<byte> {
    if txs == [] then [] else txs[0] + ConcatTxs(txs[1..])
  }

  /** The transactions one after the other, in order. */
  lemma {:induction false} ConcatInOrder(a: seq<seq<byte>>, b: seq<seq<byte>>, t: seq<byte>)
    ensures ConcatTxs([]) == [] && ConcatTxs([t]) == t
    ensures ConcatTxs(a + b) == ConcatTxs(a) + ConcatTxs(b)
  {
    assert [t][1..] == [] && t + [] == t;
    if a == [] {
      assert a + b == b;
    } else {
      assert (a + b)[1..] == a[1..] + b;
      ConcatInOrder(a[1..], b, t);
      assert a[0] + (ConcatTxs(a[1..]) + ConcatTxs(b)) == (a[0] + ConcatTxs(a[1..])) + ConcatTxs(b);
    }
  }

  /** The calldata is fetched for every batch but the genesis one. */
  function CommittedBatch(setup: Setup, e: BatchEvent): Batch {
    Batch(e.index, e.root, if e.batchType != TX_GENESIS then ConcatTxs(e.txs) else [], e.committer,
          setup.stakeAmount, setup.finalisationTime, BATCH_COMMITTED)
  }

  /** The row of a batch event, field by field: committed, with its calldata unless it is of the genesis type. */
  predicate IsRowOf(setup: Setup, e: BatchEvent, b: Batch) {
    && b.batchID == e.index && b.stateRoot == e.root && b.committer == e.committer && b.status == 200
    && b.stakeAmount == setup.stakeAmount && b.finalisesOn == setup.finalisationTime
    && b.transactions == if e.batchType == 0 then [] else ConcatTxs(e.txs)
  }

  lemma CommittedIsRow(setup: Setup, e: BatchEvent)
    ensures IsRowOf(setup, e, CommittedBatch(setup, e))
  {
  }

  predicate Stored(batches: seq<Batch>, index: nat) {
    exists b :: b in batches && b.batchID == index
  }

  function HasIndex(index: nat): Batch -> bool {
    (b: Batch) => b.batchID == index
  }

  /** WHERE batch_id = ?, scanned into one row: the last match. */
  function GetBatchByIndex(batches: seq<Batch>, index: nat): (b: Option<Batch>)
    ensures b.Some? <==> Stored(batches, index)
    ensures b.Some? ==> b.value in batches && b.value.batchID == index
  {
    LastMatch(HasIndex(index), batches)
  }

  /** A zero batch number is not written. */
  function RecordBatch(n: Node, index: nat): Node {
    if index == 0 then n else n.(lastBatch := index)
  }

  function ProcessBatch(n: Node, e: BatchEvent): Node {
    match GetBatchByIndex(n.batches, e.index)
    case None => n.(applied := n.applied + [e], batches := n.batches + [CommittedBatch(n.setup, e)])
    case Some(b) =>
      var m :=
        if b.status == BATCH_COMMITTED then n
        else n.(batches := n.setup.commit(n.batches, CommittedBatch(n.setup, e)));
      RecordBatch(m, e.index)
  }

  function ProcessLog(n: Node, log: Log): Node {
    var m := n.(dispatched := n.dispatched + [log]);
    match log.event
    case NewBatch(e) => ProcessBatch(m, e)
    case OtherEvent(_) => m
  }

  function ProcessLogs(n: Node, logs: seq<Log>): Node {
    if logs == [] then n else ProcessLog(ProcessLogs(n, logs[..|logs| - 1]), logs[|logs| - 1])
  }

  /** The handle the worker writes through. */
  class SyncerDB {
    const setup: Setup
    var batches: seq<Batch>
    var lastBlock: nat
    var lastBatch: nat
    ghost var applied: seq<BatchEvent>
    ghost var dispatched: seq<Log>

    ghost function View(): Node
      reads this
    {
      Node(batches, applied, dispatched, lastBlock, lastBatch, setup)
    }

    method ProcessNewBatch(e: BatchEvent)
      modifies this
      ensures View() == ProcessBatch(old(View()), e)
      ensures lastBlock == old(lastBlock) && dispatched == old(dispatched)
      ensures lastBatch == if old(Stored(batches, e.index)) && e.index != 0 then e.index else old(lastBatch)
      ensures applied == if old(Stored(batches, e.index)) then old(applied) else old(applied) + [e]
      ensures !old(Stored(batches, e.index)) ==>
        |batches| == |old(batches)| + 1 && batches[..|old(batches)|] == old(batches)
        && IsRowOf(setup, e, batches[|old(batches)|])
      ensures old(Stored(batches, e.index)) && (forall b :: b in old(batches) ==> b.status == 200) ==>
        batches == old(batches)
    {
      var txs := if e.batchType != TX_GENESIS then e.txs else [];
      var batch := GetBatchByIndex(batches, e.index);
      var newBatch := Batch(e.index, e.root, ConcatTxs(txs), e.committer,
                            setup.stakeAmount, setup.finalisationTime, BATCH_COMMITTED);
      if batch.None? {
        applied := applied + [e];
        batches := batches + [newBatch];
        return;
      }
      if batch.value.status != BATCH_COMMITTED {
        batches := setup.commit(batches, newBatch);
      }
      if e.index != 0 {
        lastBatch := e.index;
      }
    }

    method ProcessEvents(logs: seq<Log>, header: nat)
      requires header > lastBlock
      modifies this
      ensures View() == ProcessLogs(old(View()), logs).(lastBlock := header)
    {
      for i := 0 to |logs|
        invariant View() == ProcessLogs(old(View()), logs[..i])
      {
        assert logs[..i + 1][..i] == logs[..i];
        dispatched := dispatched + [logs[i]];
        match logs[i].event {
          case NewBatch(e) => ProcessNewBatch(e);
          case OtherEvent(_) =>
        }
      }
      assert logs[..|logs|] == logs;
      lastBlock := header;
    }
  }

  // ---- The two threads ----

  datatype Window = Window(from: nat, to: nat)

  /** A worker in flight: its window, how many logs it has handed out, and those it still has to process. */
  datatype Worker = Worker(window: Window, handled: nat, remaining: seq<Log>)

  /** A worker that has ended: how many logs of its window it handed out, and whether the block was recorded. */
  datatype Attempt = Attempt(window: Window, handled: nat, recorded: bool)

  /** crashed: the batches during which the process crashed between applying and storing them. */
  datatype System = System(node: Node, worker: Option<Worker>, attempts: seq<Attempt>, crashed: seq<BatchEvent>) {
    function Windows(): seq<Window> {
      RecordedWindows(attempts)
    }
  }

  function RecordedWindows(attempts: seq<Attempt>): seq<Window> {
    if attempts == [] then []
    else
      var a := attempts[|attempts| - 1];
      RecordedWindows(attempts[..|attempts| - 1]) + if a.recorded then [a.window] else []
  }

  function InWindow(from: nat, to: nat): Log -> bool {
    (l: Log) => from <= l.block <= to
  }

  function FilterLogs(chain: seq<Log>, from: nat, to: nat): seq<Log> {
    Filter(InWindow(from, to), chain)
  }

  datatype Action =
    | HeaderArrives(number: nat, fetched: bool) // the header loop, once the wait group is free
    | WorkOne                                   // the worker processes one log
    | WorkDone(recorded: bool)                  // the worker writes the block number and is done
    | Crash                                     // the process restarts between two logs
    | CrashInBatch                              // or after applying a new batch, before storing it

  predicate Enabled(s: System, a: Action) {
    match a
    case HeaderArrives(_, _) => s.worker.None?
    case WorkOne => s.worker.Some? && s.worker.value.remaining != []
    case WorkDone(_) => s.worker.Some? && s.worker.value.remaining == []
    case Crash => true
    case CrashInBatch =>
      s.worker.Some? && s.worker.value.remaining != [] && Applies(s.node, s.worker.value.remaining[0])
  }

  /** Processing this log applies a batch. */
  predicate Applies(n: Node, log: Log) {
    log.event.NewBatch? && GetBatchByIndex(n.batches, log.event.batch.index).None?
  }

  /** The log has been handed out and its batch applied, but not stored. */
  function HalfProcessed(n: Node, log: Log): Node
    requires log.event.NewBatch?
  {
    n.(dispatched := n.dispatched + [log], applied := n.applied + [log.event.batch])
  }

  function Step(chain: seq<Log>, s: System, a: Action): System
    requires Enabled(s, a)
  {
    match a
    case HeaderArrives(number, fetched) =>
      if number <= s.node.lastBlock || !fetched then s
      else
        var w := Window(s.node.lastBlock, number);
        s.(worker := Some(Worker(w, 0, FilterLogs(chain, w.from, w.to))))
    case WorkOne =>
      var w := s.worker.value;
      var after := w.(handled := w.handled + 1, remaining := w.remaining[1..]);
      s.(node := ProcessLog(s.node, w.remaining[0]), worker := Some(after))
    case WorkDone(recorded) =>
      var w := s.worker.value;
      var node := if recorded then s.node.(lastBlock := w.window.to) else s.node;
      s.(node := node, worker := None, attempts := s.attempts + [Attempt(w.window, w.handled, recorded)])
    case Crash =>
      if s.worker.None? then s
      else
        var w := s.worker.value;
        s.(worker := None, attempts := s.attempts + [Attempt(w.window, w.handled, false)])
    case CrashInBatch =>
      var w := s.worker.value;
      System(HalfProcessed(s.node, w.remaining[0]), None,
             s.attempts + [Attempt(w.window, w.handled + 1, false)], s.crashed + [w.remaining[0].event.batch])
  }

  predicate IsRun(chain: seq<Log>, s: System, actions: seq<Action>)
    decreases |actions|
  {
    actions != [] ==> Enabled(s, actions[0]) && IsRun(chain, Step(chain, s, actions[0]), actions[1..])
  }

  function Run(chain: seq<Log>, s: System, actions: seq<Action>): System
    requires IsRun(chain, s, actions)
    decreases |actions|
  {
    if actions == [] then s else Run(chain, Step(chain, s, actions[0]), actions[1..])
  }

  function Start(startBlock: nat, setup: Setup): System {
    System(Node([], [], [], startBlock, 0, setup), None, [], [])
  }

  // ---- The chain as a list ordered by block ----

  predicate Ordered(chain: seq<Log>) {
    forall i, j :: 0 <= i < j < |chain| ==> chain[i].block <= chain[j].block
  }

  /** Batch indices on the chain are distinct. */
  predicate DistinctBatches(chain: seq<Log>) {
    forall i, j :: 0 <= i < j < |chain| && chain[i].event.NewBatch? && chain[j].event.NewBatch? ==>
      chain[i].event.batch.index != chain[j].event.batch.index
  }

  /** How many logs lie before a block. */
  function Before(chain: seq<Log>, block: nat): (n: nat)
    ensures n <= |chain|
  {
    if chain == [] then 0
    else Before(chain[..|chain| - 1], block) + if chain[|chain| - 1].block < block then 1 else 0
  }

  lemma {:induction false} BeforeSplits(chain: seq<Log>, block: nat, i: nat)
    requires Ordered(chain) && i < |chain|
    ensures chain[i].block < block <==> i < Before(chain, block)
  {
    var n := |chain| - 1;
    if i < n {
      BeforeSplits(chain[..n], block, i);
    } else if n > 0 {
      BeforeSplits(chain[..n], block, n - 1);
    }
  }

  lemma BeforeMonotonic(chain: seq<Log>, a: nat, b: nat)
    requires Ordered(chain) && a <= b
    ensures Before(chain, a) <= Before(chain, b)
  {
    var n := Before(chain, b);
    if n < Before(chain, a) {
      BeforeSplits(chain, a, n);
      BeforeSplits(chain, b, n);
    }
  }

  lemma WindowIsInterval(chain: seq<Log>, from: nat, to: nat)
    requires Ordered(chain) && from <= to
    ensures Before(chain, from) <= Before(chain, to + 1)
    ensures FilterLogs(chain, from, to) == chain[Before(chain, from)..Before(chain, to + 1)]
  {
    BeforeMonotonic(chain, from, to + 1);
    forall i | 0 <= i < |chain|
      ensures InWindow(from, to)(chain[i]) == (Before(chain, from) <= i < Before(chain, to + 1))
    {
      BeforeSplits(chain, from, i);
      BeforeSplits(chain, to + 1, i);
    }
    FilterInterval(InWindow(from, to), chain, Before(chain, from), Before(chain, to + 1));
  }

  /** The batch events among some logs, in order. */
  function BatchesOf(logs: seq<Log>): seq<BatchEvent> {
    if logs == [] then []
    else
      var l := logs[|logs| - 1];
      BatchesOf(logs[..|logs| - 1]) + if l.event.NewBatch? then [l.event.batch] else []
  }

  function Rows(setup: Setup, events: seq<BatchEvent>): seq<Batch> {
    seq(|events|, i requires 0 <= i < |events| => CommittedBatch(setup, events[i]))
  }

  // ---- Exactly once ----

  /** The batch events of the logs from the start block up to pos, in chain order. */
  function Handled(chain: seq<Log>, startBlock: nat, pos: nat): seq<BatchEvent>
    requires Before(chain, startBlock) <= pos <= |chain|
  {
    BatchesOf(chain[Before(chain, startBlock)..pos])
  }

  /**
    pos counts the logs handled so far. The rows are exactly the batch events
    handled; besides those, applied holds the ones a crash left half done.
   */
  predicate Inv(chain: seq<Log>, startBlock: nat, s: System, pos: nat) {
    && Before(chain, startBlock) <= pos <= |chain|
    && TablesInv(s.node.setup, chain, startBlock, s.node.batches, s.node.applied, s.crashed, pos)
    && startBlock <= s.node.lastBlock
    && Before(chain, s.node.lastBlock) <= pos
    && (s.Windows() == [] ==> s.node.lastBlock == startBlock)
    && (s.Windows() != [] ==> Before(chain, s.node.lastBlock + 1) <= pos)
    && (s.worker.Some? ==> WorkerInv(chain, s, pos))
  }

  predicate TablesInv(setup: Setup, chain: seq<Log>, startBlock: nat, batches: seq<Batch>, applied: seq<BatchEvent>,
                      crashed: seq<BatchEvent>, pos: nat)
    requires Before(chain, startBlock) <= pos <= |chain|
  {
    && batches == Rows(setup, Handled(chain, startBlock, pos))
    && multiset(applied) == multiset(Handled(chain, startBlock, pos)) + multiset(crashed)
    && forall e :: e in crashed ==> OnChain(chain, Before(chain, startBlock), e)
  }

  /** Some log from base on carries this batch event. */
  predicate OnChain(chain: seq<Log>, base: nat, e: BatchEvent) {
    exists j :: base <= j < |chain| && chain[j].event == NewBatch(e)
  }

  predicate WorkerInv(chain: seq<Log>, s: System, pos: nat)
    requires s.worker.Some?
  {
    var Worker(w, _, remaining) := s.worker.value;
    && w.from == s.node.lastBlock < w.to
    && |remaining| <= Before(chain, w.to + 1)
    && Before(chain, w.to + 1) - |remaining| <= pos
    && remaining == chain[Before(chain, w.to + 1) - |remaining|..Before(chain, w.to + 1)]
    && Before(chain, w.from) <= Before(chain, w.to + 1) - |remaining|
  }

  lemma OneMoreBatch(setup: Setup, events: seq<BatchEvent>, x: BatchEvent, e: BatchEvent)
    ensures multiset(events + [x])[e] == multiset(events)[e] + if x == e then 1 else 0
    ensures Filter(HasIndex(e.index), Rows(setup, events + [x]))
      == if x.index == e.index then Filter(HasIndex(e.index), Rows(setup, events)) + [CommittedBatch(setup, x)]
         else Filter(HasIndex(e.index), Rows(setup, events))
  {
    OneMoreRow(setup, events, x);
    FilterConcat(HasIndex(e.index), Rows(setup, events), [CommittedBatch(setup, x)]);
    FilterAll(HasIndex(e.index), [CommittedBatch(setup, x)]);
  }

  /** Of the batch events handled up to pos, each is there once, and has one row. */
  lemma {:induction false} AppliedOnce(setup: Setup, chain: seq<Log>, base: nat, pos: nat, i: nat)
    requires DistinctBatches(chain) && base <= pos <= |chain| && i < |chain| && chain[i].event.NewBatch?
    ensures var e, events := chain[i].event.batch, BatchesOf(chain[base..pos]);
      && multiset(events)[e] == (if base <= i < pos then 1 else 0)
      && Filter(HasIndex(e.index), Rows(setup, events)) == (if base <= i < pos then [CommittedBatch(setup, e)] else [])
    decreases pos
  {
    hide *;
    var e := chain[i].event.batch;
    NothingHandled(setup, chain, base, e.index);
    if pos > base {
      var j := pos - 1;
      AppliedOnce(setup, chain, base, j, i);
      BatchesOfStep(chain, base, j);
      if chain[j].event.NewBatch? {
        if i != j { OtherIndex(chain, i, j); }
        OneMoreBatch(setup, BatchesOf(chain[base..j]), chain[j].event.batch, e);
      }
    }
  }

  lemma OtherIndex(chain: seq<Log>, i: nat, j: nat)
    requires DistinctBatches(chain) && i < |chain| && j < |chain| && i != j
    requires chain[i].event.NewBatch? && chain[j].event.NewBatch?
    ensures chain[i].event.batch.index != chain[j].event.batch.index
  {
  }

  lemma NothingHandled(setup: Setup, chain: seq<Log>, base: nat, index: nat)
    requires base <= |chain|
    ensures BatchesOf(chain[base..base]) == [] && Filter(HasIndex(index), Rows(setup, [])) == []
  {
  }

  lemma BatchesOfStep(chain: seq<Log>, base: nat, pos: nat)
    requires base <= pos < |chain|
    ensures BatchesOf(chain[base..pos + 1])
      == if chain[pos].event.NewBatch? then BatchesOf(chain[base..pos]) + [chain[pos].event.batch]
         else BatchesOf(chain[base..pos])
  {
    var more := chain[base..pos + 1];
    assert more[..|more| - 1] == chain[base..pos] && more[|more| - 1] == chain[pos];
  }

  /** A batch is found in the table exactly when its event was among the handled logs. */
  lemma FoundIffHandled(setup: Setup, chain: seq<Log>, base: nat, pos: nat, i: nat)
    requires DistinctBatches(chain) && base <= pos <= |chain| && base <= i < |chain|
    requires chain[i].event.NewBatch?
    ensures GetBatchByIndex(Rows(setup, BatchesOf(chain[base..pos])), chain[i].event.batch.index)
      == if i < pos then Some(CommittedBatch(setup, chain[i].event.batch)) else None
  {
    AppliedOnce(setup, chain, base, pos, i);
    LastMatchIsLast(HasIndex(chain[i].event.batch.index), Rows(setup, BatchesOf(chain[base..pos])));
  }

  /** The next log of a worker, and where it is on the chain. */
  lemma NextLog(chain: seq<Log>, startBlock: nat, s: System, pos: nat) returns (cur: nat)
    requires Ordered(chain) && Inv(chain, startBlock, s, pos)
    requires s.worker.Some? && s.worker.value.remaining != []
    ensures Before(chain, startBlock) <= cur <= pos && cur < |chain| && chain[cur] == s.worker.value.remaining[0]
    ensures var Worker(w, _, remaining) := s.worker.value;
      cur == Before(chain, w.to + 1) - |remaining| && remaining[1..] == chain[cur + 1..Before(chain, w.to + 1)]
  {
    hide BatchesOf, Rows, Before, Ordered;
    var Worker(w, _, remaining) := s.worker.value;
    cur := Before(chain, w.to + 1) - |remaining|;
    BeforeMonotonic(chain, startBlock, w.from);
  }

  /** One log of the window: new ones are applied, those seen before change nothing but the batch number. */
  lemma WorkKeepsInv(chain: seq<Log>, startBlock: nat, s: System, pos: nat) returns (pos': nat)
    requires Ordered(chain) && DistinctBatches(chain) && Inv(chain, startBlock, s, pos) && Enabled(s, WorkOne)
    ensures Inv(chain, startBlock, Step(chain, s, WorkOne), pos')
    ensures pos <= pos'
    ensures Step(chain, s, WorkOne).node.setup == s.node.setup
  {
    hide ProcessLog, Before, DistinctBatches, Ordered, RecordedWindows, TablesInv;
    var cur := NextLog(chain, startBlock, s, pos);
    pos' := if cur == pos then pos + 1 else pos;
    LogKeepsTables(chain, startBlock, pos, cur, s.node, s.crashed);
  }

  lemma LogKeepsTables(chain: seq<Log>, startBlock: nat, pos: nat, cur: nat, n: Node, crashed: seq<BatchEvent>)
    requires DistinctBatches(chain) && Before(chain, startBlock) <= cur <= pos <= |chain| && cur < |chain|
    requires TablesInv(n.setup, chain, startBlock, n.batches, n.applied, crashed, pos)
    ensures var m, pos' := ProcessLog(n, chain[cur]), if cur == pos then pos + 1 else pos;
      TablesInv(n.setup, chain, startBlock, m.batches, m.applied, crashed, pos')
      && m.lastBlock == n.lastBlock && m.setup == n.setup
  {
    var log := chain[cur];
    if log.event.NewBatch? { BatchFoundIff(chain, startBlock, pos, cur, n, crashed); }
    hide TablesInv, Before, DistinctBatches, GetBatchByIndex, CommittedBatch;
    if cur == pos { TablesAdvance(n.setup, chain, startBlock, n.batches, n.applied, crashed, pos); }
    if log.event.NewBatch? { BatchKeepsTables(n, log, log.event.batch, cur < pos); }
  }

  lemma BatchFoundIff(chain: seq<Log>, startBlock: nat, pos: nat, cur: nat, n: Node, crashed: seq<BatchEvent>)
    requires DistinctBatches(chain) && Before(chain, startBlock) <= cur <= pos <= |chain| && cur < |chain|
    requires TablesInv(n.setup, chain, startBlock, n.batches, n.applied, crashed, pos) && chain[cur].event.NewBatch?
    ensures GetBatchByIndex(n.batches, chain[cur].event.batch.index)
      == if cur < pos then Some(CommittedBatch(n.setup, chain[cur].event.batch)) else None
  {
    hide GetBatchByIndex, DistinctBatches, Rows, BatchesOf, Before, CommittedBatch;
    FoundIffHandled(n.setup, chain, Before(chain, startBlock), pos, cur);
  }

  /** The tables after one more log of the chain. */
  lemma TablesAdvance(setup: Setup, chain: seq<Log>, startBlock: nat, batches: seq<Batch>, applied: seq<BatchEvent>,
                      crashed: seq<BatchEvent>, pos: nat)
    requires Before(chain, startBlock) <= pos < |chain|
    requires TablesInv(setup, chain, startBlock, batches, applied, crashed, pos)
    ensures match chain[pos].event
      case NewBatch(e) =>
        TablesInv(setup, chain, startBlock, batches + [CommittedBatch(setup, e)], applied + [e], crashed, pos + 1)
      case OtherEvent(_) => TablesInv(setup, chain, startBlock, batches, applied, crashed, pos + 1)
  {
    BatchesOfStep(chain, Before(chain, startBlock), pos);
    hide BatchesOf, Before, OnChain;
    if chain[pos].event.NewBatch? { OneMoreRow(setup, Handled(chain, startBlock, pos), chain[pos].event.batch); }
  }

  lemma OneMoreRow(setup: Setup, events: seq<BatchEvent>, e: BatchEvent)
    ensures Rows(setup, events + [e]) == Rows(setup, events) + [CommittedBatch(setup, e)]
  {
  }

  /** What processing a batch makes of the tables: nothing if it is there and committed, else one more of each. */
  lemma BatchKeepsTables(n: Node, log: Log, e: BatchEvent, known: bool)
    requires log.event == NewBatch(e)
    requires GetBatchByIndex(n.batches, e.index) == if known then Some(CommittedBatch(n.setup, e)) else None
    ensures var m := ProcessLog(n, log);
      && m.batches == (if known then n.batches else n.batches + [CommittedBatch(n.setup, e)])
      && m.applied == (if known then n.applied else n.applied + [e])
      && m.lastBlock == n.lastBlock && m.setup == n.setup
  {
    hide GetBatchByIndex;
  }

  /** A worker that ends without a record leaves everything but the tables of applied batches. */
  lemma UnrecordedKeepsInv(chain: seq<Log>, startBlock: nat, s: System, t: System, pos: nat)
    requires Inv(chain, startBlock, s, pos) && t.worker.None?
    requires t.node.lastBlock == s.node.lastBlock && t.Windows() == s.Windows()
    requires TablesInv(t.node.setup, chain, startBlock, t.node.batches, t.node.applied, t.crashed, pos)
    ensures Inv(chain, startBlock, t, pos)
  {
    hide TablesInv, Before, RecordedWindows, WorkerInv;
  }

  lemma NextBatchIsOnChain(chain: seq<Log>, startBlock: nat, s: System, pos: nat)
    requires Ordered(chain) && Inv(chain, startBlock, s, pos)
    requires s.worker.Some? && s.worker.value.remaining != [] && s.worker.value.remaining[0].event.NewBatch?
    ensures OnChain(chain, Before(chain, startBlock), s.worker.value.remaining[0].event.batch)
  {
    hide Inv, Before, Ordered;
    var cur := NextLog(chain, startBlock, s, pos);
    assert chain[cur].event == NewBatch(s.worker.value.remaining[0].event.batch);
  }

  /** A crash inside a batch leaves one more application, and nothing in the tables. */
  lemma CrashKeepsInv(chain: seq<Log>, startBlock: nat, s: System, pos: nat)
    requires Ordered(chain) && Inv(chain, startBlock, s, pos) && Enabled(s, CrashInBatch)
    ensures Inv(chain, startBlock, Step(chain, s, CrashInBatch), pos)
  {
    hide TablesInv, Before, RecordedWindows, WorkerInv, Ordered, OnChain;
    var w, t := s.worker.value, Step(chain, s, CrashInBatch);
    NextBatchIsOnChain(chain, startBlock, s, pos);
    CrashKeepsTables(s.node.setup, chain, startBlock, s.node.batches, s.node.applied, s.crashed, pos,
                     w.remaining[0].event.batch);
    OneMoreAttempt(s.attempts, Attempt(w.window, w.handled + 1, false));
    AppendNothing(s.Windows());
    UnrecordedKeepsInv(chain, startBlock, s, t, pos);
  }

  lemma CrashKeepsTables(setup: Setup, chain: seq<Log>, startBlock: nat, batches: seq<Batch>, applied: seq<BatchEvent>,
                         crashed: seq<BatchEvent>, pos: nat, e: BatchEvent)
    requires Before(chain, startBlock) <= pos <= |chain|
    requires TablesInv(setup, chain, startBlock, batches, applied, crashed, pos)
    requires OnChain(chain, Before(chain, startBlock), e)
    ensures TablesInv(setup, chain, startBlock, batches, applied + [e], crashed + [e], pos)
  {
    hide BatchesOf, Rows, Before, OnChain, Handled;
  }

  lemma OneMoreAttempt(attempts: seq<Attempt>, a: Attempt)
    ensures RecordedWindows(attempts + [a]) == RecordedWindows(attempts) + if a.recorded then [a.window] else []
  {
    assert (attempts + [a])[..|attempts|] == attempts;
  }

  lemma StepKeepsInv(chain: seq<Log>, startBlock: nat, s: System, a: Action, pos: nat) returns (pos': nat)
    requires Ordered(chain) && DistinctBatches(chain) && Inv(chain, startBlock, s, pos) && Enabled(s, a)
    ensures Inv(chain, startBlock, Step(chain, s, a), pos')
    ensures pos <= pos' && s.node.lastBlock <= Step(chain, s, a).node.lastBlock
    ensures Step(chain, s, a).node.setup == s.node.setup
  {
    pos' := pos;
    hide TablesInv, Before, RecordedWindows, ProcessLog, DistinctBatches, Ordered, Applies;
    match a {
      case HeaderArrives(number, fetched) =>
        if number > s.node.lastBlock { WindowIsInterval(chain, s.node.lastBlock, number); }
      case WorkOne =>
        pos' := WorkKeepsInv(chain, startBlock, s, pos);
      case WorkDone(recorded) =>
        var w := s.worker.value;
        BeforeMonotonic(chain, w.window.to, w.window.to + 1);
        OneMoreAttempt(s.attempts, Attempt(w.window, w.handled, recorded));
      case Crash =>
        if s.worker.Some? {
          OneMoreAttempt(s.attempts, Attempt(s.worker.value.window, s.worker.value.handled, false));
        }
      case CrashInBatch =>
        CrashKeepsInv(chain, startBlock, s, pos);
    }
  }

  lemma {:induction false} RunKeepsInv(chain: seq<Log>, startBlock: nat, s: System, actions: seq<Action>,
                                       pos: nat)
    returns (pos': nat)
    requires Ordered(chain) && DistinctBatches(chain) && Inv(chain, startBlock, s, pos) && IsRun(chain, s, actions)
    ensures Inv(chain, startBlock, Run(chain, s, actions), pos')
    ensures s.node.lastBlock <= Run(chain, s, actions).node.lastBlock
    ensures Run(chain, s, actions).node.setup == s.node.setup
    decreases |actions|
  {
    pos' := pos;
    if actions != [] {
      var next := StepKeepsInv(chain, startBlock, s, actions[0], pos);
      pos' := RunKeepsInv(chain, startBlock, Step(chain, s, actions[0]), actions[1..], next);
    }
  }

  lemma StartInv(chain: seq<Log>, startBlock: nat, setup: Setup)
    requires Ordered(chain)
    ensures Inv(chain, startBlock, Start(startBlock, setup), Before(chain, startBlock))
  {
    var base := Before(chain, startBlock);
    assert chain[base..base] == [];
  }

  /**
    What a state says about batch event i: every row is committed; at or below a
    recorded block the event has exactly one row, and was applied once more than
    the process crashed inside it; above, at most that often; before the start
    block, never.
   */
  predicate OncePlusCrashes(chain: seq<Log>, startBlock: nat, s: System, i: nat)
    requires i < |chain| && chain[i].event.NewBatch?
  {
    var e := chain[i].event.batch;
    && (forall b :: b in s.node.batches ==> b.status == BATCH_COMMITTED)
    && (s.Windows() != [] && startBlock <= chain[i].block <= s.node.lastBlock ==>
          multiset(s.node.applied)[e] == 1 + multiset(s.crashed)[e]
          && |Filter(HasIndex(e.index), s.node.batches)| == 1
          && IsRowOf(s.node.setup, e, Filter(HasIndex(e.index), s.node.batches)[0]))
    && multiset(s.crashed)[e] <= multiset(s.node.applied)[e] <= 1 + multiset(s.crashed)[e]
    && (chain[i].block < startBlock ==> e !in s.node.applied)
  }

  /**
    Windows overlap and logs are fetched again after crashes and failed writes.
    Still, in every reachable state a batch at or below the recorded block was
    applied exactly once, unless the process crashed between applying and storing
    it: each such crash, and nothing else, applies it once more.
   */
  lemma ExactlyOnce(chain: seq<Log>, startBlock: nat, setup: Setup, actions: seq<Action>, i: nat)
    requires Ordered(chain) && DistinctBatches(chain) && IsRun(chain, Start(startBlock, setup), actions)
    requires i < |chain| && chain[i].event.NewBatch?
    ensures OncePlusCrashes(chain, startBlock, Run(chain, Start(startBlock, setup), actions), i)
    ensures Run(chain, Start(startBlock, setup), actions).node.setup == setup
    ensures NumberStored(Run(chain, Start(startBlock, setup), actions).node)
  {
    StartInv(chain, startBlock, setup);
    RunKeepsNumber(chain, startBlock, Start(startBlock, setup), actions, Before(chain, startBlock));
    var pos := RunKeepsInv(chain, startBlock, Start(startBlock, setup), actions, Before(chain, startBlock));
    var s := Run(chain, Start(startBlock, setup), actions);
    InvGivesOnce(chain, startBlock, s, pos, i);
  }

  lemma InvGivesOnce(chain: seq<Log>, startBlock: nat, s: System, pos: nat, i: nat)
    requires Ordered(chain) && DistinctBatches(chain) && Inv(chain, startBlock, s, pos)
    requires i < |chain| && chain[i].event.NewBatch?
    ensures OncePlusCrashes(chain, startBlock, s, i)
  {
    var e, base := chain[i].event.batch, Before(chain, startBlock);
    assert Handled(chain, startBlock, pos) == BatchesOf(chain[base..pos]);
    CommittedIsRow(s.node.setup, e);
    hide BatchesOf, Rows, Filter, Before, DistinctBatches, Ordered, WorkerInv, CommittedBatch, RecordedWindows, OnChain,
      HasIndex, Handled, IsRowOf, ConcatTxs;
    BeforeSplits(chain, startBlock, i);
    BeforeSplits(chain, s.node.lastBlock + 1, i);
    AppliedOnce(s.node.setup, chain, base, pos, i);
    RowsAreCommitted(s.node.setup, Handled(chain, startBlock, pos));
    AppliedCount(s.node.applied, Handled(chain, startBlock, pos), s.crashed, e);
    if e in s.crashed { OnlyOneLog(chain, base, i); }
  }

  lemma AppliedCount(applied: seq<BatchEvent>, handled: seq<BatchEvent>, crashed: seq<BatchEvent>, e: BatchEvent)
    requires multiset(applied) == multiset(handled) + multiset(crashed)
    ensures multiset(applied)[e] == multiset(handled)[e] + multiset(crashed)[e]
    ensures e in applied <==> multiset(applied)[e] > 0
    ensures e in crashed <==> multiset(crashed)[e] > 0
  {
  }

  lemma OnlyOneLog(chain: seq<Log>, base: nat, i: nat)
    requires DistinctBatches(chain) && i < |chain| && chain[i].event.NewBatch?
      && OnChain(chain, base, chain[i].event.batch)
    ensures base <= i
  {
    var j: nat :| base <= j < |chain| && chain[j].event == NewBatch(chain[i].event.batch);
    assert i == j;
  }

  lemma RowsAreCommitted(setup: Setup, events: seq<BatchEvent>)
    ensures forall b :: b in Rows(setup, events) ==> b.status == BATCH_COMMITTED
  {
  }

  /** The recorded batch number is zero or that of a stored batch. */
  predicate NumberStored(n: Node) {
    n.lastBatch == 0 || Stored(n.batches, n.lastBatch)
  }

  lemma BatchKeepsNumber(n: Node, log: Log)
    requires NumberStored(n) && forall b :: b in n.batches ==> b.status == BATCH_COMMITTED
    ensures NumberStored(ProcessLog(n, log))
  {
    hide GetBatchByIndex, CommittedBatch;
    var m := ProcessLog(n, log);
    assert n.batches <= m.batches;
    forall b | b in n.batches ensures b in m.batches {}
  }

  lemma StepKeepsNumber(chain: seq<Log>, s: System, a: Action)
    requires Enabled(s, a) && NumberStored(s.node)
    requires forall b :: b in s.node.batches ==> b.status == BATCH_COMMITTED
    ensures NumberStored(Step(chain, s, a).node)
  {
    hide ProcessLog, FilterLogs, Stored, GetBatchByIndex, CommittedBatch;
    if a.WorkOne? { BatchKeepsNumber(s.node, s.worker.value.remaining[0]); }
  }

  /** Over every run: the number recorded beside the block is that of a batch that is stored. */
  lemma {:induction false} RunKeepsNumber(chain: seq<Log>, startBlock: nat, s: System, actions: seq<Action>, pos: nat)
    requires Ordered(chain) && DistinctBatches(chain) && Inv(chain, startBlock, s, pos) && IsRun(chain, s, actions)
    requires NumberStored(s.node)
    ensures NumberStored(Run(chain, s, actions).node)
    decreases |actions|
  {
    if actions != [] {
      RowsAreCommitted(s.node.setup, Handled(chain, startBlock, pos));
      hide Rows, Handled, NumberStored, Ordered, DistinctBatches, Step, Enabled, WorkerInv;
      StepKeepsNumber(chain, s, actions[0]);
      var next := StepKeepsInv(chain, startBlock, s, actions[0], pos);
      hide Inv;
      RunKeepsNumber(chain, startBlock, Step(chain, s, actions[0]), actions[1..], next);
    }
  }

  // ---- Windows ----

  predicate Chained(windows: seq<Window>, startBlock: nat, lastBlock: nat) {
    if windows == [] then lastBlock == startBlock
    else
      var w := windows[|windows| - 1];
      w.from < w.to == lastBlock && Chained(windows[..|windows| - 1], startBlock, w.from)
  }

  /** In how many recorded windows a block is delivered. */
  function Deliveries(windows: seq<Window>, block: nat): nat {
    if windows == [] then 0
    else
      var w := windows[|windows| - 1];
      Deliveries(windows[..|windows| - 1], block) + if w.from <= block <= w.to then 1 else 0
  }

  predicate IsBoundary(windows: seq<Window>, block: nat) {
    exists i :: 0 < i < |windows| && windows[i].from == block
  }

  /**
    Every block from the start to the recorded one is delivered once, except that
    the block where one window ends and the next begins is delivered twice.
   */
  lemma {:induction false} DeliveredOnceOrTwice(windows: seq<Window>, startBlock: nat, lastBlock: nat, block: nat)
    requires Chained(windows, startBlock, lastBlock)
    ensures startBlock <= lastBlock && (windows != [] ==> startBlock < lastBlock)
    ensures Deliveries(windows, block) ==
      if windows == [] || block < startBlock || block > lastBlock then 0
      else if IsBoundary(windows, block) then 2 else 1
    ensures IsBoundary(windows, block) ==> startBlock < block < lastBlock
  {
    if windows != [] {
      var n := |windows| - 1;
      var init, w := windows[..n], windows[n];
      DeliveredOnceOrTwice(init, startBlock, w.from, block);
      assert IsBoundary(windows, block) <==> IsBoundary(init, block) || (n > 0 && w.from == block) by {
        if IsBoundary(init, block) {
          var i :| 0 < i < |init| && init[i].from == block;
          assert windows[i].from == block;
        }
        if i :| 0 < i < |windows| && windows[i].from == block {
          if i < n { assert init[i].from == block; }
        }
      }
    }
  }

  /** The logs the workers of these attempts handed out, in order. */
  function HandedOut(chain: seq<Log>, attempts: seq<Attempt>): seq<Log> {
    if attempts == [] then []
    else
      var a := attempts[|attempts| - 1];
      HandedOut(chain, attempts[..|attempts| - 1]) + PartOf(chain, a.window, a.handled)
  }

  /** The first logs of a window. */
  function PartOf(chain: seq<Log>, w: Window, handled: nat): seq<Log> {
    var logs := FilterLogs(chain, w.from, w.to);
    if handled <= |logs| then logs[..handled] else logs
  }

  function Aborted(attempts: seq<Attempt>): seq<Attempt> {
    if attempts == [] then []
    else
      var a := attempts[|attempts| - 1];
      Aborted(attempts[..|attempts| - 1]) + if a.recorded then [] else [a]
  }

  /** A recorded window was handed out to the end. */
  predicate Complete(chain: seq<Log>, attempts: seq<Attempt>) {
    forall i :: 0 <= i < |attempts| && attempts[i].recorded ==>
      attempts[i].handled == |FilterLogs(chain, attempts[i].window.from, attempts[i].window.to)|
  }

  predicate WorkerAhead(chain: seq<Log>, s: System)
    requires s.worker.Some?
  {
    var Worker(w, handled, remaining) := s.worker.value;
    var logs := FilterLogs(chain, w.from, w.to);
    w.from == s.node.lastBlock < w.to && handled <= |logs| && remaining == logs[handled..]
  }

  /** Recorded windows chain from the start block, and the handlers saw exactly what the attempts handed out. */
  predicate WindowInv(chain: seq<Log>, startBlock: nat, s: System) {
    && Chained(s.Windows(), startBlock, s.node.lastBlock) && Complete(chain, s.attempts)
    && (s.worker.Some? ==> WorkerAhead(chain, s))
    && s.node.dispatched == HandedOut(chain, s.attempts)
         + if s.worker.None? then [] else PartOf(chain, s.worker.value.window, s.worker.value.handled)
  }

  lemma OneMoreHandedOut(chain: seq<Log>, attempts: seq<Attempt>, a: Attempt)
    ensures HandedOut(chain, attempts + [a]) == HandedOut(chain, attempts) + PartOf(chain, a.window, a.handled)
    ensures Complete(chain, attempts) && (a.recorded ==> a.handled == |FilterLogs(chain, a.window.from, a.window.to)|)
      ==> Complete(chain, attempts + [a])
  {
    hide FilterLogs;
    assert (attempts + [a])[..|attempts|] == attempts;
  }

  lemma OneMoreWindow(windows: seq<Window>, startBlock: nat, w: Window)
    requires Chained(windows, startBlock, w.from) && w.from < w.to
    ensures Chained(windows + [w], startBlock, w.to)
  {
    assert (windows + [w])[..|windows|] == windows;
  }

  /** One more log is handed out. */
  lemma HandOutOne(chain: seq<Log>, s: System)
    requires s.worker.Some? && WorkerAhead(chain, s) && s.worker.value.remaining != []
    ensures var Worker(w, handled, remaining) := s.worker.value;
      var logs := FilterLogs(chain, w.from, w.to);
      && PartOf(chain, w, handled + 1) == PartOf(chain, w, handled) + [remaining[0]]
      && handled + 1 <= |logs| && remaining[1..] == logs[handled + 1..]
  {
    hide FilterLogs;
  }

  lemma NothingHandedOut(chain: seq<Log>, w: Window)
    ensures PartOf(chain, w, 0) == []
    ensures FilterLogs(chain, w.from, w.to)[0..] == FilterLogs(chain, w.from, w.to)
  {
  }

  lemma AppendOne<T>(a: seq<T>, b: seq<T>, x: T)
    ensures (a + b) + [x] == a + (b + [x])
  {
  }

  lemma AppendNothing<T>(a: seq<T>)
    ensures a + [] == a
  {
  }

  lemma HeaderKeepsWindows(chain: seq<Log>, startBlock: nat, s: System, a: Action)
    requires WindowInv(chain, startBlock, s) && Enabled(s, a) && a.HeaderArrives?
    ensures WindowInv(chain, startBlock, Step(chain, s, a))
  {
    var t := Step(chain, s, a);
    NothingHandedOut(chain, Window(s.node.lastBlock, a.number));
    hide HandedOut, PartOf, FilterLogs, Complete, Chained, RecordedWindows;
    assert t.Windows() == s.Windows();
    assert t.worker.Some? ==> WorkerAhead(chain, t);
  }

  /** A worker ends, with or without its block recorded. */
  lemma EndedAttempt(chain: seq<Log>, startBlock: nat, s: System, t: System, a: Attempt)
    requires WindowInv(chain, startBlock, s) && s.worker.Some? && a.window == s.worker.value.window
    requires t.worker.None? && t.attempts == s.attempts + [a]
    requires a.recorded ==> a.handled == |FilterLogs(chain, a.window.from, a.window.to)|
    requires t.node.lastBlock == if a.recorded then a.window.to else s.node.lastBlock
    requires t.node.dispatched == HandedOut(chain, s.attempts) + PartOf(chain, a.window, a.handled)
    ensures WindowInv(chain, startBlock, t)
  {
    OneMoreAttempt(s.attempts, a);
    OneMoreHandedOut(chain, s.attempts, a);
    if a.recorded { OneMoreWindow(s.Windows(), startBlock, a.window); }
    AppendNothing(HandedOut(chain, t.attempts));
    AppendNothing(s.Windows());
    hide HandedOut, PartOf, FilterLogs, Complete, Chained, RecordedWindows;
  }

  lemma EndKeepsWindows(chain: seq<Log>, startBlock: nat, s: System, a: Action)
    requires WindowInv(chain, startBlock, s) && Enabled(s, a) && s.worker.Some?
    requires a.WorkDone? || a.Crash? || a.CrashInBatch?
    ensures WindowInv(chain, startBlock, Step(chain, s, a))
  {
    var Worker(w, handled, remaining) := s.worker.value;
    assert |remaining| == |FilterLogs(chain, w.from, w.to)| - handled;
    hide PartOf, FilterLogs, Complete, Chained, RecordedWindows, HandedOut, WindowInv;
    var t := Step(chain, s, a);
    if a.CrashInBatch? {
      HandOutOne(chain, s);
      AppendOne(HandedOut(chain, s.attempts), PartOf(chain, w, handled), remaining[0]);
      EndedAttempt(chain, startBlock, s, t, Attempt(w, handled + 1, false));
    } else {
      EndedAttempt(chain, startBlock, s, t, Attempt(w, handled, a.WorkDone? && a.recorded));
    }
  }

  lemma StepKeepsWindows(chain: seq<Log>, startBlock: nat, s: System, a: Action)
    requires WindowInv(chain, startBlock, s) && Enabled(s, a)
    ensures WindowInv(chain, startBlock, Step(chain, s, a))
  {
    if a.HeaderArrives? {
      HeaderKeepsWindows(chain, startBlock, s, a);
    } else if a.WorkOne? {
      var Worker(w, handled, remaining) := s.worker.value;
      HandOutOne(chain, s);
      AppendOne(HandedOut(chain, s.attempts), PartOf(chain, w, handled), remaining[0]);
      DispatchedAfter(s.node);
      hide ProcessLog, RecordedWindows, HandedOut, PartOf, FilterLogs, Complete, Chained, Applies;
    } else if s.worker.Some? {
      EndKeepsWindows(chain, startBlock, s, a);
    }
  }

  lemma DispatchedAfter(n: Node)
    ensures forall log :: ProcessLog(n, log).dispatched == n.dispatched + [log]
    ensures forall log :: ProcessLog(n, log).lastBlock == n.lastBlock
  {
  }

  /** Over every run, whatever crashes and fails, with at most one worker at a time. */
  lemma {:induction false} RunKeepsWindows(chain: seq<Log>, startBlock: nat, s: System, actions: seq<Action>)
    requires WindowInv(chain, startBlock, s) && IsRun(chain, s, actions)
    ensures WindowInv(chain, startBlock, Run(chain, s, actions))
    decreases |actions|
  {
    if actions != [] {
      StepKeepsWindows(chain, startBlock, s, actions[0]);
      RunKeepsWindows(chain, startBlock, Step(chain, s, actions[0]), actions[1..]);
    }
  }

  lemma StartWindows(chain: seq<Log>, startBlock: nat, setup: Setup)
    ensures WindowInv(chain, startBlock, Start(startBlock, setup))
  {
  }

  lemma {:induction false} WindowCount(chain: seq<Log>, from: nat, to: nat, l: Log)
    ensures multiset(FilterLogs(chain, from, to))[l] == if from <= l.block <= to then multiset(chain)[l] else 0
  {
    FilterCount(InWindow(from, to), chain, l);
  }

  /**
    How often attempts hand out a log: once for each recorded window its block
    lies in, and once more for each aborted one that had come to it.
   */
  lemma {:induction false} HandedOutPerWindow(chain: seq<Log>, attempts: seq<Attempt>, l: Log)
    requires Complete(chain, attempts)
    ensures multiset(HandedOut(chain, attempts))[l] == PerWindow(chain, attempts, l)
  {
    if attempts != [] {
      var n := |attempts| - 1;
      assert attempts == attempts[..n] + [attempts[n]];
      hide *;
      InitIsComplete(chain, attempts[..n], attempts[n]);
      HandedOutPerWindow(chain, attempts[..n], l);
      OneMoreHandedOut(chain, attempts[..n], attempts[n]);
      CountInBoth(HandedOut(chain, attempts[..n]), PartOf(chain, attempts[n].window, attempts[n].handled), l);
      PerWindowStep(chain, attempts[..n], attempts[n], l);
    }
  }

  function PerWindow(chain: seq<Log>, attempts: seq<Attempt>, l: Log): int {
    Deliveries(RecordedWindows(attempts), l.block) * multiset(chain)[l]
      + multiset(HandedOut(chain, Aborted(attempts)))[l]
  }

  lemma PerWindowStep(chain: seq<Log>, attempts: seq<Attempt>, a: Attempt, l: Log)
    requires a.recorded ==> PartOf(chain, a.window, a.handled) == FilterLogs(chain, a.window.from, a.window.to)
    ensures PerWindow(chain, attempts + [a], l)
      == PerWindow(chain, attempts, l) + multiset(PartOf(chain, a.window, a.handled))[l]
  {
    hide RecordedWindows, Aborted, HandedOut, PartOf, Deliveries, FilterLogs;
    OneMoreAttempt(attempts, a);
    OneMoreAborted(attempts, a);
    if a.recorded {
      WindowCount(chain, a.window.from, a.window.to, l);
      OneMoreDelivery(RecordedWindows(attempts), a.window, l.block);
      OnceMore(Deliveries(RecordedWindows(attempts), l.block), multiset(chain)[l]);
      assert Aborted(attempts) + [] == Aborted(attempts);
    } else {
      assert RecordedWindows(attempts) + [] == RecordedWindows(attempts);
      OneMoreHandedOut(chain, Aborted(attempts), a);
      CountInBoth(HandedOut(chain, Aborted(attempts)), PartOf(chain, a.window, a.handled), l);
    }
  }

  lemma InitIsComplete(chain: seq<Log>, init: seq<Attempt>, a: Attempt)
    requires Complete(chain, init + [a])
    ensures Complete(chain, init)
    ensures a.recorded ==> PartOf(chain, a.window, a.handled) == FilterLogs(chain, a.window.from, a.window.to)
  {
    hide FilterLogs;
    assert (init + [a])[|init|] == a;
    assert forall i :: 0 <= i < |init| ==> (init + [a])[i] == init[i];
  }

  lemma OneMoreAborted(attempts: seq<Attempt>, a: Attempt)
    ensures Aborted(attempts + [a]) == Aborted(attempts) + if a.recorded then [] else [a]
  {
    assert (attempts + [a])[..|attempts|] == attempts;
  }

  lemma OneMoreDelivery(windows: seq<Window>, w: Window, block: nat)
    ensures Deliveries(windows + [w], block) == Deliveries(windows, block) + if w.from <= block <= w.to then 1 else 0
  {
    assert (windows + [w])[..|windows|] == windows;
  }

  lemma CountInBoth(a: seq<Log>, b: seq<Log>, l: Log)
    ensures multiset(a + b)[l] == multiset(a)[l] + multiset(b)[l]
  {
  }

  lemma OnceMore(a: nat, m: nat)
    ensures (a + 1) * m == a * m + m
  {
  }

  /** How often a log has reached its handler, and exactly when a log of the chain has reached it once. */
  predicate DispatchedAsWindows(chain: seq<Log>, startBlock: nat, s: System, l: Log) {
    var again := HandedOut(chain, Aborted(s.attempts));
    && multiset(s.node.dispatched)[l]
       == Deliveries(s.Windows(), l.block) * multiset(chain)[l] + multiset(again)[l]
          + (if s.worker.None? then 0
             else multiset(PartOf(chain, s.worker.value.window, s.worker.value.handled))[l])
    && (s.worker.None? && multiset(chain)[l] == 1 && s.Windows() != [] && startBlock <= l.block <= s.node.lastBlock ==>
          (multiset(s.node.dispatched)[l] == 1 <==> !IsBoundary(s.Windows(), l.block) && l !in again))
  }

  /**
    Only batches are checked against what is stored: any other event reaches its
    handler once for every recorded window and every aborted one that came to it.
    A deposit is thus queued again if its block is where two windows meet, or if a
    crash or a failed write lets its window be fetched again.
   */
  lemma DispatchedPerWindow(chain: seq<Log>, startBlock: nat, setup: Setup, actions: seq<Action>, l: Log)
    requires IsRun(chain, Start(startBlock, setup), actions)
    ensures DispatchedAsWindows(chain, startBlock, Run(chain, Start(startBlock, setup), actions), l)
  {
    StartWindows(chain, startBlock, setup);
    RunKeepsWindows(chain, startBlock, Start(startBlock, setup), actions);
    InvGivesDispatched(chain, startBlock, Run(chain, Start(startBlock, setup), actions), l);
  }

  lemma InvGivesDispatched(chain: seq<Log>, startBlock: nat, s: System, l: Log)
    requires WindowInv(chain, startBlock, s)
    ensures DispatchedAsWindows(chain, startBlock, s, l)
  {
    hide HandedOut, PartOf, RecordedWindows, Aborted, Chained, Deliveries, IsBoundary, Complete, WorkerAhead;
    HandedOutPerWindow(chain, s.attempts, l);
    DeliveredOnceOrTwice(s.Windows(), startBlock, s.node.lastBlock, l.block);
    if s.worker.Some? {
      CountInBoth(HandedOut(chain, s.attempts), PartOf(chain, s.worker.value.window, s.worker.value.handled), l);
    } else {
      AppendNothing(HandedOut(chain, s.attempts));
    }
    var again := HandedOut(chain, Aborted(s.attempts));
    assert l in again <==> multiset(again)[l] > 0;
  }

  // ---- Runs that reach the failing cases ----

  /** The run of two header rounds over one log. */
  function TwoRounds(first: nat, firstRecorded: bool, second: nat): seq<Action> {
    [HeaderArrives(first, true), WorkOne, WorkDone(firstRecorded), HeaderArrives(second, true), WorkOne, WorkDone(true)]
  }

  /** Without any failure: a log in the block where two windows meet is dispatched twice. */
  lemma BoundaryLogTwice(l: Log, startBlock: nat, setup: Setup)
    requires startBlock < l.block && l.event.OtherEvent?
    ensures var actions := TwoRounds(l.block, true, l.block + 1);
      IsRun([l], Start(startBlock, setup), actions)
      && var s := Run([l], Start(startBlock, setup), actions);
        s.node.dispatched == [l, l] && s.Windows() == [Window(startBlock, l.block), Window(l.block, l.block + 1)]
  {
    TwoRoundsRun(l, startBlock, setup, l.block, true, l.block + 1);
  }

  /** With a failed write: a log is dispatched twice although no recorded window ends or begins at its block. */
  lemma UnrecordedLogTwice(l: Log, startBlock: nat, setup: Setup)
    requires startBlock < l.block && l.event.OtherEvent?
    ensures var actions := TwoRounds(l.block + 1, false, l.block + 1);
      IsRun([l], Start(startBlock, setup), actions)
      && var s := Run([l], Start(startBlock, setup), actions);
        s.node.dispatched == [l, l] && s.Windows() == [Window(startBlock, l.block + 1)]
  {
    TwoRoundsRun(l, startBlock, setup, l.block + 1, false, l.block + 1);
  }

  lemma TwoRoundsRun(l: Log, startBlock: nat, setup: Setup, first: nat, recorded: bool, second: nat)
    requires startBlock < l.block <= first <= second && l.event.OtherEvent?
    requires if recorded then first == l.block < second else first == second
    ensures IsRun([l], Start(startBlock, setup), TwoRounds(first, recorded, second))
    ensures var s := Run([l], Start(startBlock, setup), TwoRounds(first, recorded, second));
      s.node.dispatched == [l, l]
      && s.Windows() == (if recorded then [Window(startBlock, first)] else [])
           + [Window(if recorded then first else startBlock, second)]
  {
    var s0 := Start(startBlock, setup);
    var s3 := OneRound(l, s0, first, recorded);
    var s6 := OneRound(l, s3, second, true);
    var actions := TwoRounds(first, recorded, second);
    RunInParts([l], s0, Round(first, recorded), Round(second, true));
    assert actions == Round(first, recorded) + Round(second, true);
  }

  function Round(number: nat, recorded: bool): seq<Action> {
    [HeaderArrives(number, true), WorkOne, WorkDone(recorded)]
  }

  lemma OneRound(l: Log, s: System, number: nat, recorded: bool) returns (t: System)
    requires s.worker.None? && s.node.lastBlock <= l.block <= number && s.node.lastBlock < number && l.event.OtherEvent?
    ensures IsRun([l], s, Round(number, recorded)) && t == Run([l], s, Round(number, recorded))
    ensures t.worker.None? && t.node.dispatched == s.node.dispatched + [l]
    ensures t.node.lastBlock == if recorded then number else s.node.lastBlock
    ensures t.Windows() == s.Windows() + if recorded then [Window(s.node.lastBlock, number)] else []
  {
    var w := Window(s.node.lastBlock, number);
    var s1 := Fetched(l, s, number);
    var s2 := Step([l], s1, WorkOne);
    assert s2.worker == Some(Worker(w, 1, [])) by { assert [l][1..] == []; }
    t := Step([l], s2, WorkDone(recorded));
    OneMoreAttempt(s.attempts, Attempt(w, 1, recorded));
    ThreeSteps([l], s, HeaderArrives(number, true), WorkOne, WorkDone(recorded));
  }

  /** A header whose window holds the one log. */
  lemma Fetched(l: Log, s: System, number: nat) returns (t: System)
    requires s.worker.None? && s.node.lastBlock <= l.block <= number && s.node.lastBlock < number
    ensures t == Step([l], s, HeaderArrives(number, true))
    ensures t == s.(worker := Some(Worker(Window(s.node.lastBlock, number), 0, [l])))
  {
    FilterAll(InWindow(s.node.lastBlock, number), [l]);
    t := Step([l], s, HeaderArrives(number, true));
  }

  lemma TwoSteps(chain: seq<Log>, s: System, a: Action, b: Action)
    requires Enabled(s, a) && Enabled(Step(chain, s, a), b)
    ensures IsRun(chain, s, [a, b]) && Run(chain, s, [a, b]) == Step(chain, Step(chain, s, a), b)
  {
    hide Step, Enabled;
    var actions, next := [a, b], Step(chain, s, a);
    assert actions[1..] == [b] && [b][1..] == [];
    assert IsRun(chain, next, [b]) && Run(chain, next, [b]) == Step(chain, next, b);
  }

  lemma ThreeSteps(chain: seq<Log>, s: System, a: Action, b: Action, c: Action)
    requires Enabled(s, a) && Enabled(Step(chain, s, a), b) && Enabled(Step(chain, Step(chain, s, a), b), c)
    ensures IsRun(chain, s, [a, b, c])
    ensures Run(chain, s, [a, b, c]) == Step(chain, Step(chain, Step(chain, s, a), b), c)
  {
    hide Step, Enabled;
    TwoSteps(chain, Step(chain, s, a), b, c);
    assert [a, b, c][1..] == [b, c];
  }

  lemma {:induction false} RunInParts(chain: seq<Log>, s: System, a: seq<Action>, b: seq<Action>)
    requires IsRun(chain, s, a) && IsRun(chain, Run(chain, s, a), b)
    ensures IsRun(chain, s, a + b) && Run(chain, s, a + b) == Run(chain, Run(chain, s, a), b)
    decreases |a|
  {
    if a == [] {
      assert a + b == b;
    } else {
      assert (a + b)[1..] == a[1..] + b;
      RunInParts(chain, Step(chain, s, a[0]), a[1..], b);
    }
  }

  /** A crash inside a batch, then the window again: the batch is applied twice and stored once. */
  lemma CrashedBatchTwice(e: BatchEvent, block: nat, startBlock: nat, setup: Setup)
    requires startBlock < block
    ensures var chain := [Log(block, NewBatch(e))];
      var actions := [HeaderArrives(block, true), CrashInBatch] + Round(block, true);
      IsRun(chain, Start(startBlock, setup), actions)
      && var s := Run(chain, Start(startBlock, setup), actions);
        s.node.applied == [e, e] && s.node.batches == [CommittedBatch(setup, e)] && s.node.lastBlock == block
  {
    var l, s0 := Log(block, NewBatch(e)), Start(startBlock, setup);
    var s1 := Fetched(l, s0, block);
    assert GetBatchByIndex([], e.index) == None;
    hide GetBatchByIndex, CommittedBatch, Stored, FilterLogs;
    var s2 := Step([l], s1, CrashInBatch);
    assert s2.node == s0.node.(applied := [e], dispatched := [l]);
    TwoSteps([l], s0, HeaderArrives(block, true), CrashInBatch);
    var s3 := Fetched(l, s2, block);
    var s4 := Step([l], s3, WorkOne);
    assert s4.worker.Some? && s4.worker.value.remaining == [] by { assert [l][1..] == []; }
    assert s4.node.applied == [e, e] && s4.node.batches == [CommittedBatch(setup, e)];
    ThreeSteps([l], s2, HeaderArrives(block, true), WorkOne, WorkDone(true));
    RunInParts([l], s0, [HeaderArrives(block, true), CrashInBatch], Round(block, true));
    hide Step, Run, IsRun;
  }

  // ---- The wait group ----

  /** Where the header loop is: for a header, waiting for the wait group, or past it. */
  datatype Loop = Idle | Waiting(number: nat) | Past(number: nat)

  /** The threads as they run: the wait group is a counter, workers are spawned and end. */
  datatype Process = Process(
    node: Node, attempts: seq<Attempt>, crashed: seq<BatchEvent>, loop: Loop, wg: nat, workers: seq<Worker>)

  function StartProcess(startBlock: nat, setup: Setup): Process {
    Process(Node([], [], [], startBlock, 0, setup), [], [], Idle, 0, [])
  }

  datatype Move =
    | Receive(number: nat)
    | WaitReturns
    | ProcessHeader(fetched: bool)
    | WorkerStep(worker: nat)
    | WorkerEnd(worker: nat, recorded: bool)
    | Restart
    | RestartInBatch(worker: nat)

  predicate Possible(p: Process, m: Move) {
    match m
    case Receive(_) => p.loop.Idle?
    case WaitReturns => p.loop.Waiting? && p.wg == 0
    case ProcessHeader(_) => p.loop.Past?
    case WorkerStep(i) => i < |p.workers| && p.workers[i].remaining != []
    case WorkerEnd(i, _) => i < |p.workers| && p.workers[i].remaining == []
    case Restart => true
    case RestartInBatch(i) =>
      i < |p.workers| && p.workers[i].remaining != [] && Applies(p.node, p.workers[i].remaining[0])
  }

  function Do(chain: seq<Log>, p: Process, m: Move): Process
    requires Possible(p, m)
  {
    match m
    case Receive(number) => p.(loop := Waiting(number))
    case WaitReturns => p.(loop := Past(p.loop.number))
    case ProcessHeader(fetched) =>
      if p.loop.number <= p.node.lastBlock || !fetched then p.(loop := Idle)
      else
        var w := Window(p.node.lastBlock, p.loop.number);
        p.(loop := Idle, wg := p.wg + 1, workers := p.workers + [Worker(w, 0, FilterLogs(chain, w.from, w.to))])
    case WorkerStep(i) =>
      var w := p.workers[i];
      var after := w.(handled := w.handled + 1, remaining := w.remaining[1..]);
      p.(node := ProcessLog(p.node, w.remaining[0]), workers := p.workers[i := after])
    case WorkerEnd(i, recorded) =>
      var w := p.workers[i];
      p.(node := if recorded then p.node.(lastBlock := w.window.to) else p.node,
         attempts := p.attempts + [Attempt(w.window, w.handled, recorded)],
         wg := if p.wg == 0 then 0 else p.wg - 1, workers := p.workers[..i] + p.workers[i + 1..])
    case Restart => p.(attempts := p.attempts + Killed(p.workers), loop := Idle, wg := 0, workers := [])
    case RestartInBatch(i) =>
      var w := p.workers[i];
      Process(HalfProcessed(p.node, w.remaining[0]),
              p.attempts + Killed(p.workers[i := w.(handled := w.handled + 1)]),
              p.crashed + [w.remaining[0].event.batch], Idle, 0, [])
  }

  /** Workers a restart ends. */
  function Killed(workers: seq<Worker>): seq<Attempt> {
    seq(|workers|, i requires 0 <= i < |workers| => Attempt(workers[i].window, workers[i].handled, false))
  }

  /** The counter is the number of workers, and none runs while the loop is past the wait group. */
  predicate WaitGroupInv(p: Process) {
    p.wg == |p.workers| <= 1 && (p.loop.Past? ==> p.wg == 0)
  }

  function Abstract(p: Process): System {
    System(p.node, if p.workers == [] then None else Some(p.workers[0]), p.attempts, p.crashed)
  }

  /** What a move is in the model with one worker slot; moves of the loop before the header are invisible there. */
  function Visible(p: Process, m: Move): Option<Action> {
    match m
    case Receive(_) | WaitReturns => None
    case ProcessHeader(fetched) => if p.loop.Past? then Some(HeaderArrives(p.loop.number, fetched)) else None
    case WorkerStep(_) => Some(WorkOne)
    case WorkerEnd(_, recorded) => Some(WorkDone(recorded))
    case Restart => Some(Crash)
    case RestartInBatch(_) => Some(CrashInBatch)
  }

  /** The wait group keeps a single worker in flight, and the threads refine the one-worker system. */
  lemma MoveRefines(chain: seq<Log>, p: Process, m: Move)
    requires WaitGroupInv(p) && Possible(p, m)
    ensures WaitGroupInv(Do(chain, p, m))
    ensures match Visible(p, m)
      case None => Abstract(Do(chain, p, m)) == Abstract(p)
      case Some(a) => Enabled(Abstract(p), a) && Abstract(Do(chain, p, m)) == Step(chain, Abstract(p), a)
  {
  }

  predicate PossibleRun(chain: seq<Log>, p: Process, moves: seq<Move>)
    decreases |moves|
  {
    moves != [] ==> Possible(p, moves[0]) && PossibleRun(chain, Do(chain, p, moves[0]), moves[1..])
  }

  function DoAll(chain: seq<Log>, p: Process, moves: seq<Move>): Process
    requires PossibleRun(chain, p, moves)
    decreases |moves|
  {
    if moves == [] then p else DoAll(chain, Do(chain, p, moves[0]), moves[1..])
  }

  /** Every interleaving of the threads is a run of the one-worker system: what holds of those runs holds here. */
  lemma {:induction false} ThreadsRefineSystem(chain: seq<Log>, p: Process, moves: seq<Move>)
    returns (actions: seq<Action>)
    requires WaitGroupInv(p) && PossibleRun(chain, p, moves)
    ensures IsRun(chain, Abstract(p), actions)
    ensures Run(chain, Abstract(p), actions) == Abstract(DoAll(chain, p, moves))
    ensures |DoAll(chain, p, moves).workers| <= 1
    decreases |moves|
  {
    actions := [];
    if moves != [] {
      MoveRefines(chain, p, moves[0]);
      var rest := ThreadsRefineSystem(chain, Do(chain, p, moves[0]), moves[1..]);
      match Visible(p, moves[0]) {
        case None => actions := rest;
        case Some(a) =>
          actions := [a] + rest;
          assert actions[1..] == rest;
      }
    }
  }

  /** So what holds of the system holds of the threads: batches once per crash, other logs as windows hand them out. */
  lemma ThreadsKeepPromises(chain: seq<Log>, startBlock: nat, setup: Setup, moves: seq<Move>, i: nat)
    requires Ordered(chain) && DistinctBatches(chain) && i < |chain|
    requires PossibleRun(chain, StartProcess(startBlock, setup), moves)
    ensures var s := Abstract(DoAll(chain, StartProcess(startBlock, setup), moves));
      && (chain[i].event.NewBatch? ==> OncePlusCrashes(chain, startBlock, s, i))
      && DispatchedAsWindows(chain, startBlock, s, chain[i])
  {
    assert Abstract(StartProcess(startBlock, setup)) == Start(startBlock, setup);
    var actions := ThreadsRefineSystem(chain, StartProcess(startBlock, setup), moves);
    hide *;
    if chain[i].event.NewBatch? { ExactlyOnce(chain, startBlock, setup, actions, i); }
    DispatchedPerWindow(chain, startBlock, setup, actions, chain[i]);
  }
}
