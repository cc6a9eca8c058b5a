/**
  The service life cycle (core/service.go): Start, Stop and Reset as atomic steps
  on the flags started and stopped and the quit channel, by any number of threads.
 */
module Service {
  import opened Bytes

  /** Where a thread is inside a call. */
  datatype PC =
    | StartCalled   // before the compare-and-swap on started
    | StartLoad     // before reading stopped
    | StartRun      // before OnStart
    | StartRevert   // before storing started = 0
    | StopCalled    // before the compare-and-swap on stopped
    | StopLoad      // before reading started
    | StopRun       // before OnStop
    | StopClose     // before closing quit
    | StopRevert    // before storing stopped = 0
    | ResetCalled   // before the compare-and-swap on stopped
    | ResetStarted  // before clearing started
    | ResetQuit     // before making a new quit channel
    | ResetRun      // before OnReset, whose result Reset returns

  datatype Kind = Start | Stop | Reset

  function KindOf(pc: PC): Kind {
    match pc
    case StartCalled | StartLoad | StartRun | StartRevert => Start
    case StopCalled | StopLoad | StopRun | StopClose | StopRevert => Stop
    case ResetCalled | ResetStarted | ResetQuit | ResetRun => Reset
  }

  function Entry(k: Kind): PC {
    match k case Start => StartCalled case Stop => StopCalled case Reset => ResetCalled
  }

  /** onStarts, onStops: successful OnStart and OnStop calls since the last reset. */
  datatype Flags = Flags(
    started: bool, stopped: bool, quitClosed: bool,
    onStarts: nat, onStops: nat, stoppedEarly: bool, closedTwice: bool)

  datatype State = State(flags: Flags, threads: map<nat, PC>)

  const NewService := State(Flags(false, false, false, 0, 0, false, false), map[])

  datatype Action = Call(thread: nat, kind: Kind) | Advance(thread: nat, onStartOk: bool)

  /** What callers must ensure: Start and Stop do not overlap, and Reset overlaps nothing. */
  predicate MayCall(s: State, k: Kind) {
    forall t :: t in s.threads ==> KindOf(s.threads[t]) == k && k != Reset
  }

  predicate Enabled(s: State, a: Action) {
    match a
    case Call(t, k) => t !in s.threads
    case Advance(t, _) => t in s.threads
  }

  predicate Disciplined(s: State, a: Action) {
    Enabled(s, a) && (a.Call? ==> MayCall(s, a.kind))
  }

  /** The new flags, and where the thread goes on; None: the call returns. */
  datatype Effect = Effect(flags: Flags, next: Option<PC>)

  /** One atomic step of a thread; onStartOk is what OnStart returns. */
  function Do(f: Flags, pc: PC, onStartOk: bool): Effect {
    match pc
    case StartCalled => if f.started then Effect(f, None) else Effect(f.(started := true), Some(StartLoad))
    case StartLoad => Effect(f, Some(if f.stopped then StartRevert else StartRun))
    case StartRun => if onStartOk then Effect(f.(onStarts := f.onStarts + 1), None) else Effect(f, Some(StartRevert))
    case StartRevert => Effect(f.(started := false), None)
    case StopCalled => if f.stopped then Effect(f, None) else Effect(f.(stopped := true), Some(StopLoad))
    case StopLoad => Effect(f, Some(if f.started then StopRun else StopRevert))
    case StopRun =>
      Effect(f.(onStops := f.onStops + 1, stoppedEarly := f.stoppedEarly || f.onStarts == 0), Some(StopClose))
    case StopClose => Effect(f.(quitClosed := true, closedTwice := f.closedTwice || f.quitClosed), None)
    case StopRevert => Effect(f.(stopped := false), None)
    case ResetCalled =>
      if f.stopped then Effect(f.(stopped := false, onStarts := 0, onStops := 0), Some(ResetStarted))
      else Effect(f, None)
    case ResetStarted => Effect(f.(started := false), Some(ResetQuit))
    case ResetQuit => Effect(f.(quitClosed := false), Some(ResetRun))
    case ResetRun => Effect(f, None)
  }

  function Step(s: State, a: Action): State
    requires Enabled(s, a)
  {
    match a
    case Call(t, k) => s.(threads := s.threads[t := Entry(k)])
    case Advance(t, ok) =>
      var e := Do(s.flags, s.threads[t], ok);
      State(e.flags, if e.next.Some? then s.threads[t := e.next.value] else s.threads - {t})
  }

  // ---- The calls as methods, when no other thread is in one ----

  function Rank(pc: PC): nat {
    match pc
    case StartCalled | StopCalled | ResetCalled => 3
    case StartLoad | StopLoad | ResetStarted => 2
    case StartRun | StopRun | ResetQuit => 1
    case _ => 0
  }

  /** A thread alone runs its call to the end. */
  function Alone(f: Flags, pc: PC, onStartOk: bool): Flags
    decreases Rank(pc)
  {
    var e := Do(f, pc, onStartOk);
    if e.next.None? then e.flags else Alone(e.flags, e.next.value, onStartOk)
  }

  datatype Error = AlreadyStarted | AlreadyStopped | NotStarted | NotStopped | OnStartFailed | OnResetFailed

  /** What OnReset does; the one of a service that defines none panics. */
  datatype Callback = Succeeds | Fails | Panics

  class BaseService {
    var started: bool
    var stopped: bool
    var quitClosed: bool
    ghost var onStarts: nat
    ghost var onStops: nat
    ghost var stoppedEarly: bool
    ghost var closedTwice: bool

    ghost function View(): Flags
      reads this
    {
      Flags(started, stopped, quitClosed, onStarts, onStops, stoppedEarly, closedTwice)
    }

    method Start(onStartOk: bool) returns (error: Option<Error>)
      modifies this
      ensures View() == Alone(old(View()), StartCalled, onStartOk)
      ensures error ==
        if old(started) then Some(AlreadyStarted)
        else if old(stopped) then Some(AlreadyStopped)
        else if onStartOk then None
        else Some(OnStartFailed)
      ensures View() ==
        if error.None? then old(View()).(started := true, onStarts := old(onStarts) + 1) else old(View())
    {
      if !started {
        started := true;
        if stopped {
          started := false;
          return Some(AlreadyStopped);
        }
        if !onStartOk {
          started := false;
          return Some(OnStartFailed);
        }
        onStarts := onStarts + 1;
        return None;
      }
      error := Some(AlreadyStarted);
    }

    method Stop() returns (error: Option<Error>)
      modifies this
      ensures View() == Alone(old(View()), StopCalled, true)
      ensures error ==
        if old(stopped) then Some(AlreadyStopped) else if old(started) then None else Some(NotStarted)
      ensures error.Some? ==> View() == old(View())
      ensures error.None? ==>
        started && stopped && quitClosed && onStarts == old(onStarts) && onStops == old(onStops) + 1
    {
      if !stopped {
        stopped := true;
        if !started {
          stopped := false;
          return Some(NotStarted);
        }
        stoppedEarly := stoppedEarly || onStarts == 0;
        onStops := onStops + 1;
        closedTwice := closedTwice || quitClosed;
        quitClosed := true;
        return None;
      }
      error := Some(AlreadyStopped);
    }

    /** Whatever OnReset does, the flags of a stopped service are cleared before it is called. */
    method Reset(onReset: Callback) returns (error: Option<Error>, panicked: bool)
      modifies this
      ensures View() == Alone(old(View()), ResetCalled, true)
      ensures panicked <==> old(stopped) && onReset == Panics
      ensures error.None? && !panicked <==> old(stopped) && onReset == Succeeds
      ensures error == Some(NotStopped) <==> !old(stopped)
      ensures error == Some(OnResetFailed) <==> old(stopped) && onReset == Fails
      ensures !old(stopped) ==> View() == old(View())
      ensures old(stopped) ==> !started && !stopped && !quitClosed && onStarts == onStops == 0
    {
      AloneReset(View());
      hide Alone;
      if !stopped {
        return Some(NotStopped), false;
      }
      stopped := false;
      onStarts, onStops := 0, 0;
      started := false;
      quitClosed := false;
      error := if onReset == Fails then Some(OnResetFailed) else None;
      panicked := onReset == Panics;
    }
  }

  lemma AloneReset(f: Flags)
    ensures Alone(f, ResetCalled, true) ==
      if f.stopped then f.(stopped := false, onStarts := 0, onStops := 0, started := false, quitClosed := false) else f
  {
    if f.stopped {
      var f1 := f.(stopped := false, onStarts := 0, onStops := 0);
      var f2 := f1.(started := false);
      assert Alone(f, ResetCalled, true) == Alone(f1, ResetStarted, true);
      assert Alone(f1, ResetStarted, true) == Alone(f2, ResetQuit, true);
    }
  }

  /** One call by a single thread keeps the flags of a service at rest. */
  lemma AloneKeepsRest(f: Flags, k: Kind, ok: bool)
    requires RestFlags(f) && !f.stoppedEarly && !f.closedTwice
    ensures var g := Alone(f, Entry(k), ok); RestFlags(g) && !g.stoppedEarly && !g.closedTwice
  {
    AloneInsideKeepsRest(f, Entry(k), ok);
  }

  lemma {:induction false} AloneInsideKeepsRest(f: Flags, pc: PC, ok: bool)
    requires if Inside(pc) then InsideFlags(f, pc) else RestFlags(f)
    requires !f.stoppedEarly && !f.closedTwice
    ensures var g := Alone(f, pc, ok); RestFlags(g) && !g.stoppedEarly && !g.closedTwice
    decreases Rank(pc)
  {
    DoKeepsFlags(f, pc, ok);
    var e := Do(f, pc, ok);
    if e.next.Some? { AloneInsideKeepsRest(e.flags, e.next.value, ok); }
  }

  predicate DisciplinedRun(s: State, run: seq<Action>)
    decreases |run|
  {
    run != [] ==> Disciplined(s, run[0]) && DisciplinedRun(Step(s, run[0]), run[1..])
  }

  function Run(s: State, run: seq<Action>): State
    requires DisciplinedRun(s, run)
    decreases |run|
  {
    if run == [] then s else Run(Step(s, run[0]), run[1..])
  }

  // ---- What is kept ----

  /** The thread that won its compare-and-swap and has not returned. */
  predicate Inside(pc: PC) {
    pc != StartCalled && pc != StopCalled && pc != ResetCalled
  }

  predicate AtRest(s: State) {
    forall t :: t in s.threads ==> !Inside(s.threads[t])
  }

  predicate RestFlags(f: Flags) {
    && f.onStarts == (if f.started then 1 else 0)
    && f.onStops == (if f.stopped then 1 else 0)
    && (f.quitClosed <==> f.stopped)
    && (f.stopped ==> f.started)
  }

  /** What the flags say while one thread is inside a call. */
  predicate InsideFlags(f: Flags, pc: PC) {
    match pc
    case StartLoad | StartRun | StartRevert => f.started && !f.stopped && f.onStarts == f.onStops == 0 && !f.quitClosed
    case StopLoad =>
      f.stopped && f.onStarts == (if f.started then 1 else 0) && f.onStops == 0 && !f.quitClosed
    case StopRun => f.stopped && f.started && f.onStarts == 1 && f.onStops == 0 && !f.quitClosed
    case StopClose => f.stopped && f.started && f.onStarts == 1 && f.onStops == 1 && !f.quitClosed
    case StopRevert => f.stopped && !f.started && f.onStarts == f.onStops == 0 && !f.quitClosed
    case ResetStarted => f.started && !f.stopped && f.onStarts == f.onStops == 0
    case ResetQuit => !f.stopped && !f.started && f.onStarts == f.onStops == 0
    case ResetRun => !f.stopped && !f.started && f.onStarts == f.onStops == 0 && !f.quitClosed
    case _ => true
  }

  /** Threads in flight are of one kind, a reset alone, and at most one of them is inside. */
  predicate ThreadsInv(threads: map<nat, PC>) {
    && (forall a, b :: a in threads && b in threads && a != b ==> KindOf(threads[a]) == KindOf(threads[b]))
    && (forall a, b :: a in threads && b in threads && a != b ==> KindOf(threads[a]) != Reset)
    && (forall a, b :: a in threads && b in threads && a != b ==> !Inside(threads[a]) || !Inside(threads[b]))
  }

  predicate Inv(s: State) {
    && ThreadsInv(s.threads)
    && (forall t :: t in s.threads && Inside(s.threads[t]) ==> InsideFlags(s.flags, s.threads[t]))
    && (AtRest(s) ==> RestFlags(s.flags))
    && !s.flags.stoppedEarly && !s.flags.closedTwice
  }

  lemma CallKeepsInv(s: State, t: nat, k: Kind)
    requires Inv(s) && Disciplined(s, Call(t, k))
    ensures Inv(Step(s, Call(t, k)))
  {
    hide RestFlags, InsideFlags;
    var n := Step(s, Call(t, k));
    assert n.threads[t] == Entry(k) && !Inside(Entry(k)) && KindOf(Entry(k)) == k;
    hide Inside, KindOf;
    assert AtRest(n) ==> AtRest(s) by {
      if AtRest(n) {
        forall x | x in s.threads ensures !Inside(s.threads[x]) { assert x in n.threads && x != t; }
      }
    }
  }

  /** Before its compare-and-swap wins, the flags a thread inside would have set are not set. */
  lemma WinnerIsAlone(s: State, t: nat)
    requires Inv(s) && t in s.threads && !Inside(s.threads[t])
    requires Do(s.flags, s.threads[t], true).next.Some?
    ensures AtRest(s)
  {
    assert forall x :: x in s.threads && Inside(s.threads[x]) ==>
      x != t && KindOf(s.threads[x]) == KindOf(s.threads[t]) != Reset && InsideFlags(s.flags, s.threads[x]);
  }

  /** One step of the thread inside, or of one that enters or returns at rest. */
  lemma DoKeepsFlags(f: Flags, pc: PC, ok: bool)
    requires if Inside(pc) then InsideFlags(f, pc) else Do(f, pc, ok).next.Some? ==> RestFlags(f)
    requires !f.stoppedEarly && !f.closedTwice
    ensures var e := Do(f, pc, ok);
      && !e.flags.stoppedEarly && !e.flags.closedTwice
      && (e.next.Some? ==>
            Inside(e.next.value) && KindOf(e.next.value) == KindOf(pc) && InsideFlags(e.flags, e.next.value))
      && (e.next.None? && Inside(pc) ==> RestFlags(e.flags))
      && (!Inside(pc) ==> Do(f, pc, true) == e && (e.next.None? ==> e.flags == f))
  {
  }

  function Threads(threads: map<nat, PC>, t: nat, next: Option<PC>): map<nat, PC> {
    if next.Some? then threads[t := next.value] else threads - {t}
  }

  /** Thread t is the only one that may be inside, before and after its step. */
  predicate OnlyInside(threads: map<nat, PC>, t: nat) {
    forall x :: x in threads && x != t ==> !Inside(threads[x])
  }

  lemma ThreadsAfter(threads: map<nat, PC>, t: nat, next: Option<PC>)
    requires ThreadsInv(threads) && t in threads
    requires next.Some? ==> KindOf(next.value) == KindOf(threads[t]) && OnlyInside(threads, t)
    ensures ThreadsInv(Threads(threads, t, next))
    ensures forall x :: x != t ==> (x in Threads(threads, t, next) <==> x in threads)
    ensures forall x :: x != t && x in threads ==> Threads(threads, t, next)[x] == threads[x]
  {
    hide KindOf, Inside;
  }

  lemma AloneOrOutside(s: State, t: nat, ok: bool)
    requires Inv(s) && t in s.threads
    ensures Inside(s.threads[t]) || Do(s.flags, s.threads[t], ok).next.Some? ==> OnlyInside(s.threads, t)
    ensures !Inside(s.threads[t]) && Do(s.flags, s.threads[t], ok).next.Some? ==> AtRest(s)
  {
    if !Inside(s.threads[t]) && Do(s.flags, s.threads[t], ok).next.Some? { WinnerIsAlone(s, t); }
  }

  lemma AdvanceKeepsInv(s: State, t: nat, ok: bool)
    requires Inv(s) && t in s.threads
    ensures Inv(Step(s, Advance(t, ok)))
  {
    var pc := s.threads[t];
    var e := Do(s.flags, pc, ok);
    AloneOrOutside(s, t, ok);
    DoKeepsFlags(s.flags, pc, ok);
    var n := Step(s, Advance(t, ok));
    assert n.threads == Threads(s.threads, t, e.next);
    ThreadsAfter(s.threads, t, e.next);
    hide Do, RestFlags, InsideFlags, KindOf, Inside, ThreadsInv, Threads, Step;
    if e.next.Some? {
      assert t in n.threads && Inside(n.threads[t]);
    } else if AtRest(n) && !Inside(pc) {
      forall x | x in s.threads ensures !Inside(s.threads[x]) { assert x == t || x in n.threads; }
    }
  }

  lemma StepKeepsInv(s: State, a: Action)
    requires Inv(s) && Disciplined(s, a)
    ensures Inv(Step(s, a))
  {
    hide Inv, Step;
    match a
    case Call(t, k) => CallKeepsInv(s, t, k);
    case Advance(t, ok) => AdvanceKeepsInv(s, t, ok);
  }

  /**
    Over every interleaving that keeps the callers' discipline: between two resets
    OnStart succeeds at most once, OnStop runs at most once and only after it, the
    quit channel is never closed twice, and a stopped service at rest was started.
   */
  lemma {:induction false} AnyInterleaving(s: State, run: seq<Action>)
    requires Inv(s) && DisciplinedRun(s, run)
    ensures var t := Run(s, run);
      && Inv(t) && t.flags.onStops <= t.flags.onStarts <= 1 && !t.flags.stoppedEarly && !t.flags.closedTwice
      && (AtRest(t) && t.flags.stopped ==> t.flags.started && t.flags.onStops == 1 && t.flags.quitClosed)
    decreases |run|
  {
    if run == [] {
      CountsAreBounded(s);
    } else {
      StepKeepsInv(s, run[0]);
      AnyInterleaving(Step(s, run[0]), run[1..]);
    }
  }

  lemma CountsAreBounded(s: State)
    requires Inv(s)
    ensures s.flags.onStops <= s.flags.onStarts <= 1
  {
    if !AtRest(s) {
      var t :| t in s.threads && Inside(s.threads[t]);
      assert InsideFlags(s.flags, s.threads[t]);
    }
  }

  lemma NewServiceInv()
    ensures Inv(NewService)
  {
  }

  /** And so from a new service on. */
  lemma AnyRunOfNewService(run: seq<Action>)
    requires DisciplinedRun(NewService, run)
    ensures var t := Run(NewService, run);
      && t.flags.onStops <= t.flags.onStarts <= 1 && !t.flags.stoppedEarly && !t.flags.closedTwice
      && (AtRest(t) && t.flags.stopped ==> t.flags.started && t.flags.onStops == 1 && t.flags.quitClosed)
  {
    NewServiceInv();
    AnyInterleaving(NewService, run);
  }

  /**
    The refusal to start an already stopped service is never taken: the flag
    started is still set then, so a second Start reports a started service.
   */
  lemma StartNeverSeesStopped(s: State, t: nat)
    requires Inv(s) && t in s.threads && s.threads[t] == StartLoad
    ensures Do(s.flags, StartLoad, true).next == Some(StartRun)
  {
    assert InsideFlags(s.flags, s.threads[t]);
  }

  // ---- Without the discipline ----

  /** The thread runs its call to the end, no other thread moving. */
  function FinishAlone(s: State, t: nat, ok: bool): State
    requires t in s.threads
    decreases Rank(s.threads[t])
  {
    var next := Step(s, Advance(t, ok));
    if t in next.threads then FinishAlone(next, t, ok) else next
  }

  lemma {:induction false} FinishAloneFlags(s: State, t: nat, ok: bool)
    requires t in s.threads
    ensures FinishAlone(s, t, ok).flags == Alone(s.flags, s.threads[t], ok)
    decreases Rank(s.threads[t])
  {
    var next := Step(s, Advance(t, ok));
    if t in next.threads { FinishAloneFlags(next, t, ok); }
  }

  /** Inside Start, or inside Reset before it has cleared started: started is set, but no OnStart has succeeded. */
  predicate Unready(pc: PC) {
    pc in {StartLoad, StartRun, StartRevert, ResetStarted}
  }

  /**
    In every reachable state, a Stop that does not wait for the others calls OnStop
    before any OnStart has succeeded exactly when it overlaps a Start that is past
    its compare-and-swap, or a Reset that has not yet cleared the flag started.
   */
  lemma OverlapStopsEarlyIff(s: State, u: nat)
    requires Inv(s) && u !in s.threads
    ensures var called := Step(s, Call(u, Stop));
      u in called.threads
      && (FinishAlone(called, u, true).flags.stoppedEarly <==> exists t :: t in s.threads && Unready(s.threads[t]))
  {
    var called := Step(s, Call(u, Stop));
    FinishAloneFlags(called, u, true);
    StopAlone(s.flags);
    if AtRest(s) {
      assert RestFlags(s.flags);
    } else {
      var t :| t in s.threads && Inside(s.threads[t]);
      assert InsideFlags(s.flags, s.threads[t]);
      assert forall x :: x in s.threads && x != t ==> !Unready(s.threads[x]);
    }
  }

  /**
    The mirrored overlap: a Stop has won its swap but not read started, and a Start
    comes in. If started was clear, the Start sets it, and the Stop going on from
    there calls OnStop too early; if it was set, the Start is refused and nothing
    goes wrong.
   */
  lemma StartInsideStopIff(s: State, u: nat, t: nat)
    requires Inv(s) && u in s.threads && s.threads[u] == StopLoad && t !in s.threads
    ensures var entered := Step(Step(s, Call(t, Start)), Advance(t, true));
      u in entered.threads
      && (FinishAlone(entered, u, true).flags.stoppedEarly <==> !s.flags.started)
  {
    assert InsideFlags(s.flags, s.threads[u]);
    var entered := Step(Step(s, Call(t, Start)), Advance(t, true));
    FinishAloneFlags(entered, u, true);
    StopFromLoad(entered.flags);
  }

  lemma StopFromLoad(f: Flags)
    ensures Alone(f, StopLoad, true).stoppedEarly <==> f.stoppedEarly || (f.started && f.onStarts == 0)
  {
    if f.started {
      var h := Do(f, StopRun, true).flags;
      assert Alone(f, StopLoad, true) == Alone(f, StopRun, true) == Alone(h, StopClose, true);
    }
  }

  // ---- Any interruption ----

  /** Steps of threads other than u. */
  predicate RunOfOthers(s: State, u: nat, run: seq<Action>)
    decreases |run|
  {
    run != [] ==> run[0].thread != u && Enabled(s, run[0]) && RunOfOthers(Step(s, run[0]), u, run[1..])
  }

  function OthersRun(s: State, u: nat, run: seq<Action>): State
    requires RunOfOthers(s, u, run)
    decreases |run|
  {
    if run == [] then s else OthersRun(Step(s, run[0]), u, run[1..])
  }

  lemma {:induction false} OthersKeepThread(s: State, u: nat, run: seq<Action>)
    requires RunOfOthers(s, u, run) && u in s.threads
    ensures u in OthersRun(s, u, run).threads && OthersRun(s, u, run).threads[u] == s.threads[u]
    decreases |run|
  {
    if run != [] { OthersKeepThread(Step(s, run[0]), u, run[1..]); }
  }

  /** The state in which a Stop that has won its swap reads started, after any steps of other threads. */
  function AtStopLoad(s: State, u: nat, before: seq<Action>): (t: State)
    requires u in s.threads && s.threads[u] == StopLoad && RunOfOthers(s, u, before)
    ensures u in t.threads && t.threads[u] == StopLoad
  {
    OthersKeepThread(s, u, before);
    OthersRun(s, u, before)
  }

  /**
    Whatever any number of other threads do before the Stop reads started and then
    before it calls OnStop: it calls OnStop too early exactly when it finds started
    set and no OnStart has succeeded by the time of the call.
   */
  lemma InterruptedStopIff(s: State, u: nat, before: seq<Action>, after: seq<Action>)
    requires u in s.threads && s.threads[u] == StopLoad && RunOfOthers(s, u, before)
    requires RunOfOthers(Step(AtStopLoad(s, u, before), Advance(u, true)), u, after)
    ensures var read := AtStopLoad(s, u, before);
      var ready := OthersRun(Step(read, Advance(u, true)), u, after);
      && u in ready.threads && ready.threads[u] == (if read.flags.started then StopRun else StopRevert)
      && (Step(ready, Advance(u, true)).flags.stoppedEarly <==>
            ready.flags.stoppedEarly || (read.flags.started && ready.flags.onStarts == 0))
  {
    OthersKeepThread(Step(AtStopLoad(s, u, before), Advance(u, true)), u, after);
  }

  lemma StopAlone(f: Flags)
    ensures Alone(f, StopCalled, true).stoppedEarly <==>
      f.stoppedEarly || (!f.stopped && f.started && f.onStarts == 0)
  {
    if !f.stopped {
      var g := f.(stopped := true);
      assert Alone(f, StopCalled, true) == Alone(g, StopLoad, true);
      if f.started {
        var h := Do(g, StopRun, true).flags;
        assert Alone(g, StopLoad, true) == Alone(g, StopRun, true) == Alone(h, StopClose, true);
      }
    }
  }
}
