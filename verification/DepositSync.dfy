/**
  Deposits over whole synchronisation runs: what reaches the deposit handlers
  through the windows (listener/syncer.go), and when nothing is queued twice.
 */
module DepositSync {
  import opened Bytes
  import opened Paths
  import opened StateTable
  import opened Deposits
  import D = DepositRuns
  import S = Syncer

  /** Unpacking the data of an event; None if it is not one of the deposit events. */
  type Unpacking = seq<byte> -> Option<D.Step>

  function StepOf(unpack: Unpacking, l: S.Log): seq<D.Step> {
    match l.event
    case NewBatch(_) => []
    case OtherEvent(data) => match unpack(data) case None => [] case Some(step) => [step]
  }

  /** The deposit steps among some logs, in order. */
  function StepsOf(unpack: Unpacking, logs: seq<S.Log>): seq<D.Step> {
    if logs == [] then [] else StepsOf(unpack, logs[..|logs| - 1]) + StepOf(unpack, logs[|logs| - 1])
  }

  lemma {:induction false} StepsOfConcat(unpack: Unpacking, a: seq<S.Log>, b: seq<S.Log>)
    ensures StepsOf(unpack, a + b) == StepsOf(unpack, a) + StepsOf(unpack, b)
  {
    if b == [] {
      assert a + b == a;
    } else {
      var init, last := b[..|b| - 1], b[|b| - 1];
      assert (a + b)[..|a + b| - 1] == a + init && (a + b)[|a + b| - 1] == last;
      StepsOfConcat(unpack, a, init);
      assert (StepsOf(unpack, a) + StepsOf(unpack, init)) + StepOf(unpack, last)
        == StepsOf(unpack, a) + (StepsOf(unpack, init) + StepOf(unpack, last));
    }
  }

  lemma {:induction false} NoSteps(unpack: Unpacking, logs: seq<S.Log>)
    requires forall l :: l in logs ==> StepOf(unpack, l) == []
    ensures StepsOf(unpack, logs) == []
  {
    if logs != [] { NoSteps(unpack, logs[..|logs| - 1]); }
  }

  /** No deposit event lies in a block where one of these windows ends and the next begins. */
  predicate OffBoundaries(unpack: Unpacking, chain: seq<S.Log>, windows: seq<S.Window>) {
    forall i :: 0 <= i < |chain| && StepOf(unpack, chain[i]) != [] ==> !S.IsBoundary(windows, chain[i].block)
  }

  lemma BoundariesGrow(windows: seq<S.Window>, w: S.Window)
    ensures forall block :: S.IsBoundary(windows, block) ==> S.IsBoundary(windows + [w], block)
    ensures windows != [] ==> S.IsBoundary(windows + [w], w.from)
  {
    var more := windows + [w];
    assert more[|windows|] == w;
    forall block | S.IsBoundary(windows, block) ensures S.IsBoundary(more, block) {
      var i :| 0 < i < |windows| && windows[i].from == block;
      assert more[i].from == block;
    }
  }

  /** The part of a window that the window before it has already delivered holds no deposit. */
  lemma OverlapIsEmpty(unpack: Unpacking, chain: seq<S.Log>, windows: seq<S.Window>, w: S.Window)
    requires S.Ordered(chain) && w.from < w.to && windows != []
    requires OffBoundaries(unpack, chain, windows + [w])
    ensures S.Before(chain, w.from + 1) <= S.Before(chain, w.to + 1)
    ensures StepsOf(unpack, S.FilterLogs(chain, w.from, w.to))
      == StepsOf(unpack, chain[S.Before(chain, w.from + 1)..S.Before(chain, w.to + 1)])
  {
    hide S.Before, S.FilterLogs, S.Ordered, StepsOf, S.IsBoundary;
    BoundariesGrow(windows, w);
    S.WindowIsInterval(chain, w.from, w.to);
    S.BeforeMonotonic(chain, w.from, w.from + 1);
    S.BeforeMonotonic(chain, w.from + 1, w.to + 1);
    var a, b, c := S.Before(chain, w.from), S.Before(chain, w.from + 1), S.Before(chain, w.to + 1);
    forall i | a <= i < b ensures StepOf(unpack, chain[i]) == [] {
      S.BeforeSplits(chain, w.from, i);
      S.BeforeSplits(chain, w.from + 1, i);
      assert chain[i].block == w.from;
    }
    NoSteps(unpack, chain[a..b]);
    hide OffBoundaries, StepOf;
    assert chain[a..c] == chain[a..b] + chain[b..c];
    StepsOfConcat(unpack, chain[a..b], chain[b..c]);
  }

  /** The logs a run has synchronised: from the start block to the recorded one. */
  function Synced(chain: seq<S.Log>, startBlock: nat, windows: seq<S.Window>, lastBlock: nat): seq<S.Log> {
    var a, b := S.Before(chain, startBlock), S.Before(chain, lastBlock + 1);
    if windows == [] || a > b then [] else chain[a..b]
  }

  /** Every window recorded and no deposit at a boundary: each deposit event is delivered once, in chain order. */
  lemma {:induction false} DeliveredInOrder(unpack: Unpacking, chain: seq<S.Log>, startBlock: nat,
                                            attempts: seq<S.Attempt>, lastBlock: nat)
    requires S.Ordered(chain) && S.Complete(chain, attempts) && S.Aborted(attempts) == []
    requires S.Chained(S.RecordedWindows(attempts), startBlock, lastBlock)
    requires OffBoundaries(unpack, chain, S.RecordedWindows(attempts))
    ensures StepsOf(unpack, S.HandedOut(chain, attempts))
      == StepsOf(unpack, Synced(chain, startBlock, S.RecordedWindows(attempts), lastBlock))
    ensures attempts != [] ==> S.RecordedWindows(attempts) != []
    ensures startBlock <= lastBlock
  {
    if attempts != [] {
      var init, a := attempts[..|attempts| - 1], attempts[|attempts| - 1];
      assert attempts == init + [a];
      S.OneMoreAborted(init, a);
      S.OneMoreAttempt(init, a);
      S.OneMoreHandedOut(chain, init, a);
      S.InitIsComplete(chain, init, a);
      var before, w := S.RecordedWindows(init), a.window;
      assert (before + [w])[..|before|] == before;
      BoundariesGrow(before, w);
      assert OffBoundaries(unpack, chain, before);
      DeliveredInOrder(unpack, chain, startBlock, init, w.from);
      StepsOfConcat(unpack, S.HandedOut(chain, init), S.FilterLogs(chain, w.from, w.to));
      JoinWindow(unpack, chain, startBlock, before, w);
      if init == [] { assert S.HandedOut(chain, init) == [] && before == []; }
    }
  }

  lemma JoinWindow(unpack: Unpacking, chain: seq<S.Log>, startBlock: nat, before: seq<S.Window>, w: S.Window)
    requires S.Ordered(chain) && startBlock <= w.from < w.to && OffBoundaries(unpack, chain, before + [w])
    requires before == [] ==> w.from == startBlock
    ensures StepsOf(unpack, Synced(chain, startBlock, before, w.from))
        + StepsOf(unpack, S.FilterLogs(chain, w.from, w.to))
      == StepsOf(unpack, Synced(chain, startBlock, before + [w], w.to))
  {
    hide *;
    var a, b, c := S.Before(chain, startBlock), S.Before(chain, w.from + 1), S.Before(chain, w.to + 1);
    S.BeforeMonotonic(chain, startBlock, w.from + 1);
    S.BeforeMonotonic(chain, w.from + 1, w.to + 1);
    SyncedIs(chain, startBlock, before + [w], w.to);
    if before == [] {
      S.WindowIsInterval(chain, w.from, w.to);
      NothingSynced(unpack, chain, startBlock, w.from);
      assert [] + StepsOf(unpack, chain[a..c]) == StepsOf(unpack, chain[a..c]);
    } else {
      OverlapIsEmpty(unpack, chain, before, w);
      SyncedIs(chain, startBlock, before, w.from);
      JoinSlices(unpack, chain, a, b, c);
    }
  }

  lemma SyncedIs(chain: seq<S.Log>, startBlock: nat, windows: seq<S.Window>, lastBlock: nat)
    requires windows != [] && S.Before(chain, startBlock) <= S.Before(chain, lastBlock + 1)
    ensures Synced(chain, startBlock, windows, lastBlock)
      == chain[S.Before(chain, startBlock)..S.Before(chain, lastBlock + 1)]
  {
  }

  lemma NothingSynced(unpack: Unpacking, chain: seq<S.Log>, startBlock: nat, lastBlock: nat)
    ensures StepsOf(unpack, Synced(chain, startBlock, [], lastBlock)) == []
  {
  }

  lemma JoinSlices(unpack: Unpacking, chain: seq<S.Log>, a: nat, b: nat, c: nat)
    requires a <= b <= c <= |chain|
    ensures StepsOf(unpack, chain[a..c]) == StepsOf(unpack, chain[a..b]) + StepsOf(unpack, chain[b..c])
  {
    StepsOfConcat(unpack, chain[a..b], chain[b..c]);
    assert chain[a..b] + chain[b..c] == chain[a..c];
  }

  /**
    Conservation over a synchronisation run: if no deposit event lies where two
    windows meet and no window was aborted, the deposit handlers see the deposit
    events of the chain once and in order; and if those are allowed on the chain
    itself, every deposit is conserved.
   */
  lemma SyncConserves(k: Keccak, d: nat, start: seq<UserState>, unpack: Unpacking, chain: seq<S.Log>,
                      startBlock: nat, setup: S.Setup, actions: seq<S.Action>)
    requires Placed(d, start) && Settled(start) && S.Ordered(chain)
    requires S.IsRun(chain, S.Start(startBlock, setup), actions)
    requires var s := S.Run(chain, S.Start(startBlock, setup), actions);
      && s.worker.None? && S.Aborted(s.attempts) == [] && OffBoundaries(unpack, chain, s.Windows())
      && D.AllowedRun(k, d, D.NoDeposits(start),
                      StepsOf(unpack, Synced(chain, startBlock, s.Windows(), s.node.lastBlock)))
    ensures var s := S.Run(chain, S.Start(startBlock, setup), actions);
      var steps := StepsOf(unpack, s.node.dispatched);
      && steps == StepsOf(unpack, Synced(chain, startBlock, s.Windows(), s.node.lastBlock))
      && D.AllowedRun(k, d, D.NoDeposits(start), steps)
      && D.Conserved(k, d, start, D.Run(k, d, D.NoDeposits(start), steps))
  {
    var s := S.Run(chain, S.Start(startBlock, setup), actions);
    S.StartWindows(chain, startBlock, setup);
    S.RunKeepsWindows(chain, startBlock, S.Start(startBlock, setup), actions);
    S.AppendNothing(S.HandedOut(chain, s.attempts));
    DeliveredInOrder(unpack, chain, startBlock, s.attempts, s.node.lastBlock);
    D.AnyRunFromStart(k, d, start, StepsOf(unpack, s.node.dispatched));
  }
}
