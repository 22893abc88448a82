/**
 `BufferedWriteSyncer` as callers, its flush loop and its ticker share it: every lock,
 unlock, channel operation and critical section a step, in any interleaving.
 */
module BufferedProtocol {
  import opened Utf8
  import opened Sums
  import opened BufferedWriter

  datatype Call = WriteCall(bs: Bytes) | SyncCall | StopCall

  /** Where a caller is; comments say who holds the mutex. */
  datatype Pc =
    | Ready                                          // between calls
    | InWrite(bs: Bytes) | InSync | InStop           // holds it, critical section ahead
    | Leaving                                        // holds it, Write or Sync about to return
    | LeavingStop(won: bool)                         // holds it
    | AwaitDone                                      // Stop receiving from `done`
    | FinalSync                                      // Stop's own Sync, about to lock
    | InFinalSync                                    // holds it
    | LeavingFinal(failed: bool, accepted: Bytes)    // holds it, Stop about to return

  datatype Loop = NotStarted | Selecting | Wanting | Syncing | Releasing | Ending | Ended

  datatype Owner = Free | HeldBy(caller: nat) | HeldByLoop

  datatype Thread = Thread(pc: Pc, calls: seq<Call>)

  /** What the Stop that closed `stop` returned, and what had been accepted at its Sync. */
  datatype StopReturn = StopReturn(failed: bool, accepted: Bytes)

  datatype State = State(
    mutex: Owner,
    initialized: bool, stopped: bool,
    tickerOn: bool, tickPending: bool,
    loopStarts: nat, stopCloses: nat, doneCloses: nat,
    loop: Loop,
    store: Store,
    threads: seq<Thread>,
    stopReturns: seq<StopReturn>)

  datatype Step =
    | Lock(i: nat)
    | WriteBody(i: nat, t: Store, n: nat)
    | SyncBody(i: nat, t: Store)
    | StopBody(i: nat)
    | FinalBody(i: nat, t: Store, syncFails: bool)
    | Unlock(i: nat)
    | SeeDone(i: nat)
    | Tick | RecvTick | RecvStop | LoopLock | LoopBody(t: Store) | LoopUnlock | CloseDone

  function Init(programs: seq<seq<Call>>): (s: State) {
    State(Free, false, false, false, false, 0, 0, 0, NotStarted, Store([], [], false),
          seq(|programs|, i requires 0 <= i < |programs| => Thread(Ready, programs[i])), [])
  }

  predicate WantsLock(th: Thread) {
    (th.pc.Ready? && th.calls != []) || th.pc.FinalSync?
  }

  predicate Holds(pc: Pc) {
    !pc.Ready? && !pc.AwaitDone? && !pc.FinalSync?
  }

  predicate LoopHolds(l: Loop) {
    l.Syncing? || l.Releasing?
  }

  predicate AtUnlock(pc: Pc) {
    pc.Leaving? || pc.LeavingStop? || pc.LeavingFinal?
  }

  ghost predicate Enabled(s: State, step: Step) {
    match step
    case Lock(i) => i < |s.threads| && WantsLock(s.threads[i]) && s.mutex.Free?
    case WriteBody(i, t, n) =>
      i < |s.threads| && s.threads[i].pc.InWrite? && Writes(s.store, t, s.threads[i].pc.bs, n)
    case SyncBody(i, t) => i < |s.threads| && s.threads[i].pc.InSync? && Syncs(s, t)
    case StopBody(i) => i < |s.threads| && s.threads[i].pc.InStop?
    case FinalBody(i, t, _) => i < |s.threads| && s.threads[i].pc.InFinalSync? && Syncs(s, t)
    case Unlock(i) => i < |s.threads| && AtUnlock(s.threads[i].pc)
    case SeeDone(i) => i < |s.threads| && s.threads[i].pc.AwaitDone? && s.doneCloses > 0
    case Tick => s.tickerOn && !s.tickPending
    case RecvTick => s.loop.Selecting? && s.tickPending
    case RecvStop => s.loop.Selecting? && s.stopCloses > 0
    case LoopLock => s.loop.Wanting? && s.mutex.Free?
    case LoopBody(t) => s.loop.Syncing? && Syncs(s, t)
    case LoopUnlock => s.loop.Releasing?
    case CloseDone => s.loop.Ending?
  }

  /** The buffer is flushed only once there is one. */
  ghost predicate Syncs(s: State, t: Store) {
    if s.initialized then Flushes(s.store, t) else t == s.store
  }

  function Begin(c: Call): (pc: Pc) {
    match c
    case WriteCall(bs) => InWrite(bs)
    case SyncCall => InSync
    case StopCall => InStop
  }

  function Locked(th: Thread): (r: Thread)
    requires WantsLock(th)
  {
    if th.pc.FinalSync? then th.(pc := InFinalSync) else Thread(Begin(th.calls[0]), th.calls[1..])
  }

  function Unlocked(pc: Pc): (r: Pc)
    requires AtUnlock(pc)
  {
    if pc.LeavingStop? && pc.won then AwaitDone else Ready
  }

  function SetPc(s: State, i: nat, pc: Pc): (r: State)
    requires i < |s.threads|
  {
    s.(threads := s.threads[i := s.threads[i].(pc := pc)])
  }

  /** `initialize`, run under the mutex by the first Write: it starts the ticker and the loop. */
  function Initialized(s: State): (r: State) {
    if s.initialized then s
    else s.(initialized := true, tickerOn := true, loopStarts := s.loopStarts + 1, loop := Selecting)
  }

  ghost function Apply(s: State, step: Step): (r: State)
    requires Enabled(s, step)
  {
    match step
    case Lock(i) => s.(mutex := HeldBy(i), threads := s.threads[i := Locked(s.threads[i])])
    case WriteBody(i, t, n) => SetPc(Initialized(s).(store := t), i, Leaving)
    case SyncBody(i, t) => SetPc(s.(store := t), i, Leaving)
    case StopBody(i) =>
      if !s.initialized || s.stopped then SetPc(s, i, LeavingStop(false))
      else SetPc(s.(stopped := true, tickerOn := false, stopCloses := s.stopCloses + 1), i, LeavingStop(true))
    case FinalBody(i, t, syncFails) =>
      SetPc(s.(store := t), i, LeavingFinal(t.err || syncFails, Accepted(s.store)))
    case Unlock(i) =>
      var pc := s.threads[i].pc;
      SetPc(s.(mutex := Free,
               stopReturns := s.stopReturns + (if pc.LeavingFinal? then [StopReturn(pc.failed, pc.accepted)] else [])),
            i, Unlocked(pc))
    case SeeDone(i) => SetPc(s, i, FinalSync)
    case Tick => s.(tickPending := true)
    case RecvTick => s.(tickPending := false, loop := Wanting)
    case RecvStop => s.(loop := Ending)
    case LoopLock => s.(mutex := HeldByLoop, loop := Syncing)
    case LoopBody(t) => s.(store := t, loop := Releasing)
    case LoopUnlock => s.(mutex := Free, loop := Selecting)
    case CloseDone => s.(doneCloses := s.doneCloses + 1, loop := Ended)
  }

  /** `steps` is a possible interleaving from `s0` to `s`. */
  ghost predicate Run(s0: State, steps: seq<Step>, s: State)
    decreases |steps|
  {
    if steps == [] then s == s0
    else
      var n := |steps| - 1;
      exists before :: Run(s0, steps[..n], before) && Enabled(before, steps[n]) && s == Apply(before, steps[n])
  }

  // ---- The invariant ----

  ghost predicate MutexOk(s: State) {
    && (forall i :: 0 <= i < |s.threads| ==> (Holds(s.threads[i].pc) <==> s.mutex == HeldBy(i)))
    && (s.mutex.HeldBy? ==> s.mutex.caller < |s.threads|)
    && (LoopHolds(s.loop) <==> s.mutex.HeldByLoop?)
  }

  /** The loop starts once, and `stop` and `done` are closed once, each when it should be. */
  ghost predicate FlagsOk(s: State) {
    && (s.initialized <==> !s.loop.NotStarted?)
    && s.loopStarts == (if s.initialized then 1 else 0)
    && (s.stopped ==> s.initialized)
    && s.stopCloses == (if s.stopped then 1 else 0)
    && (s.tickerOn <==> s.initialized && !s.stopped)
    && s.doneCloses == (if s.loop.Ended? then 1 else 0)
    && (s.loop.Ending? || s.loop.Ended? ==> s.stopped)
    && (!s.initialized ==> s.store.buf == [] && !s.store.err && !s.tickPending)
  }

  ghost predicate PcOk(s: State, pc: Pc) {
    match pc
    case LeavingStop(won) => won ==> s.stopped
    case AwaitDone => s.stopped
    case FinalSync => s.loop.Ended?
    case InFinalSync => s.loop.Ended?
    case LeavingFinal(failed, accepted) => s.loop.Ended? && (!failed ==> accepted <= s.store.sink)
    case _ => true
  }

  ghost predicate ReturnsOk(s: State) {
    forall r :: r in s.stopReturns ==> s.loop.Ended? && (!r.failed ==> r.accepted <= s.store.sink)
  }

  ghost predicate Inv(s: State) {
    && MutexOk(s)
    && FlagsOk(s)
    && (forall i :: 0 <= i < |s.threads| ==> PcOk(s, s.threads[i].pc))
    && ReturnsOk(s)
  }

  lemma InitInv(programs: seq<seq<Call>>)
    ensures Inv(Init(programs))
  {
  }

  /** Only the thread of caller `i` has changed, and whether it holds the mutex is as `after` says. */
  lemma MutexAfter(s: State, after: State, i: nat)
    requires MutexOk(s) && i < |s.threads| == |after.threads| && after.loop == s.loop
    requires forall j :: 0 <= j < |s.threads| && j != i ==> after.threads[j] == s.threads[j]
    requires after.mutex == s.mutex || s.mutex.Free? || s.mutex == HeldBy(i)
    requires after.mutex == (if Holds(after.threads[i].pc) then HeldBy(i)
                             else if s.mutex == HeldBy(i) then Free else s.mutex)
    ensures MutexOk(after)
  {
  }

  lemma CallerKeepsMutex(s: State, step: Step)
    requires MutexOk(s) && Enabled(s, step)
    requires step.Lock? || step.SyncBody? || step.StopBody? || step.FinalBody? || step.Unlock? || step.SeeDone?
    ensures MutexOk(Apply(s, step))
  {
    hide Syncs, Accepted;
    MutexAfter(s, Apply(s, step), step.i);
  }

  lemma LoopKeepsMutex(s: State, step: Step)
    requires MutexOk(s) && FlagsOk(s) && Enabled(s, step)
    requires !(step.Lock? || step.SyncBody? || step.StopBody? || step.FinalBody? || step.Unlock? || step.SeeDone?)
    ensures MutexOk(Apply(s, step))
  {
    hide Writes, Syncs;
  }

  lemma StepKeepsMutex(s: State, step: Step)
    requires Inv(s) && Enabled(s, step)
    ensures MutexOk(Apply(s, step))
  {
    hide Enabled, Apply, MutexOk, FlagsOk;
    if step.Lock? || step.SyncBody? || step.StopBody? || step.FinalBody? || step.Unlock? || step.SeeDone? {
      CallerKeepsMutex(s, step);
    } else {
      LoopKeepsMutex(s, step);
    }
  }

  lemma StepKeepsFlags(s: State, step: Step)
    requires Inv(s) && Enabled(s, step)
    ensures FlagsOk(Apply(s, step))
  {
    hide Accepted, Writes, MutexOk, ReturnsOk;
  }

  /** The sink only grows, and a loop that has ended stays ended. */
  lemma StepGoesForward(s: State, step: Step)
    requires Inv(s) && Enabled(s, step)
    ensures s.store.sink <= Apply(s, step).store.sink
    ensures s.loop.Ended? ==> Apply(s, step).loop.Ended?
    ensures s.stopped ==> Apply(s, step).stopped
  {
    hide Accepted, MutexOk, ReturnsOk, PcOk;
  }

  lemma SyncedIsInSink(s: Store, t: Store)
    requires Flushes(s, t) && !t.err
    ensures Accepted(s) == t.sink
  {
  }

  lemma StepKeepsPcs(s: State, step: Step)
    requires Inv(s) && Enabled(s, step)
    ensures forall i :: 0 <= i < |s.threads| ==> PcOk(Apply(s, step), Apply(s, step).threads[i].pc)
  {
    hide Accepted, Writes, Flushes, MutexOk, ReturnsOk;
    var t := Apply(s, step);
    StepGoesForward(s, step);
    if step.FinalBody? {
      if !step.t.err {
        SyncedIsInSink(s.store, step.t);
      }
    }
    forall i | 0 <= i < |s.threads| ensures PcOk(t, t.threads[i].pc) {
      assert PcOk(s, s.threads[i].pc);
    }
  }

  lemma StepKeepsReturns(s: State, step: Step)
    requires Inv(s) && Enabled(s, step)
    ensures ReturnsOk(Apply(s, step))
  {
    hide Accepted, Writes, Flushes, MutexOk;
    StepGoesForward(s, step);
    if step.Unlock? {
      assert PcOk(s, s.threads[step.i].pc);
    }
  }

  lemma StepKeepsThreads(s: State, step: Step)
    requires Enabled(s, step)
    ensures |Apply(s, step).threads| == |s.threads|
  {
    hide Writes, Flushes, Accepted;
  }

  lemma {:induction false} RunInv(s0: State, steps: seq<Step>, s: State)
    requires Inv(s0) && Run(s0, steps, s)
    ensures Inv(s)
    decreases |steps|
  {
    if steps != [] {
      hide Enabled, Apply, MutexOk, FlagsOk, PcOk, ReturnsOk;
      var n := |steps| - 1;
      var before :| Run(s0, steps[..n], before) && Enabled(before, steps[n]) && s == Apply(before, steps[n]);
      RunInv(s0, steps[..n], before);
      StepKeepsMutex(before, steps[n]);
      StepKeepsFlags(before, steps[n]);
      StepKeepsPcs(before, steps[n]);
      StepKeepsReturns(before, steps[n]);
      StepKeepsThreads(before, steps[n]);
    }
  }

  // ---- What holds in every interleaving ----

  /** The loop starts once at most, `stop` and `done` are closed once at most; a Stop awaiting `done` holds nothing. */
  lemma AtMostOnce(programs: seq<seq<Call>>, steps: seq<Step>, s: State)
    requires Run(Init(programs), steps, s)
    ensures s.loopStarts <= 1 && s.stopCloses <= 1 && s.doneCloses <= 1
    ensures s.loopStarts == 1 <==> s.initialized
    ensures s.doneCloses <= s.stopCloses
    ensures forall i :: 0 <= i < |s.threads| && s.threads[i].pc.AwaitDone? ==> s.mutex != HeldBy(i)
    ensures forall i, j | 0 <= i < |s.threads| && 0 <= j < |s.threads| ::
              Holds(s.threads[i].pc) && Holds(s.threads[j].pc) ==> i == j
  {
    hide Run, Init;
    InitInv(programs);
    RunInv(Init(programs), steps, s);
  }

  /** If the Stop that closed `stop` returned nil, the loop is over and all it had accepted is in the sink. */
  lemma StopFlushesEverything(programs: seq<seq<Call>>, steps: seq<Step>, s: State)
    requires Run(Init(programs), steps, s)
    ensures forall r :: r in s.stopReturns && !r.failed ==>
              s.loop.Ended? && s.doneCloses == 1 && r.accepted <= s.store.sink
  {
    hide Run, Init, MutexOk, PcOk;
    InitInv(programs);
    RunInv(Init(programs), steps, s);
  }

  /** Every call has returned and no loop is running. */
  ghost predicate Quiet(s: State) {
    && (forall i :: 0 <= i < |s.threads| ==> s.threads[i] == Thread(Ready, []))
    && (s.loop.NotStarted? || s.loop.Ended?)
  }

  ghost function SomeSync(s: State): (t: Store)
    ensures Syncs(s, t)
  {
    if !s.initialized || s.store.err then s.store else Store(s.store.sink + s.store.buf, [], false)
  }

  /** Someone can take a step of their own, without waiting for the clock. */
  ghost predicate Moves(s: State) {
    exists step :: Enabled(s, step) && !step.Tick?
  }

  /** A step for whoever holds the mutex. */
  lemma HolderMoves(s: State, i: nat)
    requires i < |s.threads| && Holds(s.threads[i].pc)
    ensures Moves(s)
  {
    hide Syncs;
    var pc := s.threads[i].pc;
    if pc.InWrite? {
      var bs := pc.bs;
      if s.store.err {
        assert bs[..0] == [] && Accepted(s.store) + [] == Accepted(s.store);
        assert Enabled(s, WriteBody(i, s.store, 0));
      } else {
        var t := s.store.(buf := s.store.buf + bs);
        AppendToBuffer(s.store, bs);
        assert bs[..|bs|] == bs;
        assert Enabled(s, WriteBody(i, t, |bs|));
      }
    } else if pc.InSync? {
      assert Enabled(s, SyncBody(i, SomeSync(s)));
    } else if pc.InStop? {
      assert Enabled(s, StopBody(i));
    } else if pc.InFinalSync? {
      assert Enabled(s, FinalBody(i, SomeSync(s), false));
    } else {
      assert Enabled(s, Unlock(i));
    }
  }

  /** A step for a loop that has started and not ended, and is not waiting for the clock or the mutex. */
  lemma LoopMoves(s: State)
    requires FlagsOk(s) && !s.loop.NotStarted? && !s.loop.Ended?
    requires s.mutex.Free? || LoopHolds(s.loop)
    requires s.loop.Selecting? ==> s.tickPending || s.stopped
    ensures Moves(s)
  {
    hide Syncs;
    match s.loop {
      case Selecting =>
        if s.tickPending {
          assert Enabled(s, RecvTick);
        } else {
          assert Enabled(s, RecvStop);
        }
      case Wanting => assert Enabled(s, LoopLock);
      case Syncing => assert Enabled(s, LoopBody(SomeSync(s)));
      case Releasing => assert Enabled(s, LoopUnlock);
      case Ending => assert Enabled(s, CloseDone);
    }
  }

  /** A call is under way or still to be made. */
  predicate HasWork(th: Thread) {
    th != Thread(Ready, [])
  }

  /** A step for a caller with work left, when the mutex is free. */
  lemma CallerMoves(s: State, i: nat)
    requires FlagsOk(s) && MutexOk(s) && s.mutex.Free?
    requires i < |s.threads| && PcOk(s, s.threads[i].pc) && HasWork(s.threads[i])
    ensures Moves(s)
  {
    if !s.threads[i].pc.AwaitDone? {
      assert Enabled(s, Lock(i));
    } else if s.loop.Ended? {
      assert Enabled(s, SeeDone(i));
    } else {
      LoopMoves(s);
    }
  }

  /**
   No interleaving deadlocks: until all is quiet, some step can be taken. It need not be the
   clock's: while a caller has work left, or once stopped, someone can always move.
   */
  lemma AlwaysProgress(programs: seq<seq<Call>>, steps: seq<Step>, s: State)
    requires Run(Init(programs), steps, s) && !Quiet(s)
    ensures exists step :: Enabled(s, step)
    ensures s.stopped || (exists i :: 0 <= i < |s.threads| && HasWork(s.threads[i])) ==> Moves(s)
  {
    hide Run, Init, Enabled;
    InitInv(programs);
    RunInv(Init(programs), steps, s);
    if s.mutex.HeldBy? {
      HolderMoves(s, s.mutex.caller);
    } else if s.mutex.HeldByLoop? {
      LoopMoves(s);
    } else if i :| 0 <= i < |s.threads| && HasWork(s.threads[i]) {
      CallerMoves(s, i);
    } else if s.stopped || s.tickPending || !s.loop.Selecting? {
      LoopMoves(s);
    } else {
      ClockMoves(s);
    }
  }

  lemma ClockMoves(s: State)
    requires FlagsOk(s) && s.loop.Selecting? && !s.stopped && !s.tickPending
    ensures Enabled(s, Tick)
  {
  }

  // ---- After the ticker is stopped, every run ends ----

  /** Steps a caller may still take, at most. */
  function Rank(th: Thread): (n: nat) {
    8 * |th.calls| +
    match th.pc
    case Ready => 0
    case InWrite(_) => 2
    case InSync => 2
    case InStop => 6
    case Leaving => 1
    case LeavingStop(_) => 5
    case AwaitDone => 4
    case FinalSync => 3
    case InFinalSync => 2
    case LeavingFinal(_, _) => 1
  }

  function LoopRank(s: State): (n: nat) {
    (if s.tickPending then 4 else 0) +
    match s.loop
    case NotStarted => 0
    case Selecting => 2
    case Wanting => 5
    case Syncing => 4
    case Releasing => 3
    case Ending => 1
    case Ended => 0
  }

  function Ranks(ths: seq<Thread>): (ns: seq<nat>) {
    seq(|ths|, i requires 0 <= i < |ths| => Rank(ths[i]))
  }

  function Measure(s: State): (n: nat) {
    Sum(Ranks(s.threads)) + LoopRank(s)
  }

  lemma RankUpdate(ths: seq<Thread>, i: nat, th: Thread)
    requires i < |ths|
    ensures Sum(Ranks(ths[i := th])) == Sum(Ranks(ths)) - Rank(ths[i]) + Rank(th)
  {
    hide Rank;
    assert Ranks(ths[i := th]) == Ranks(ths)[i := Rank(th)];
    SumUpdate(Ranks(ths), i, Rank(th));
  }

  /** Once stopped, every step of anyone brings the end nearer. */
  lemma StepDescends(s: State, step: Step)
    requires Inv(s) && s.stopped && Enabled(s, step)
    ensures Measure(Apply(s, step)) < Measure(s)
  {
    hide Writes, Flushes, Accepted, MutexOk, PcOk, ReturnsOk, Sum, Ranks;
    var t := Apply(s, step);
    match step {
      case Tick => assert false;
      case RecvTick =>
      case RecvStop =>
      case LoopLock =>
      case LoopBody(_) =>
      case LoopUnlock =>
      case CloseDone =>
      case _ =>
        RankUpdate(s.threads, step.i, t.threads[step.i]);
        assert t.threads == s.threads[step.i := t.threads[step.i]];
    }
  }

  /** So a run that goes on after Stop has closed `stop` is no longer than the measure at that point. */
  lemma {:induction false} StoppedRunsAreBounded(s0: State, steps: seq<Step>, s: State)
    requires Inv(s0) && s0.stopped && Run(s0, steps, s)
    ensures s.stopped && |steps| + Measure(s) <= Measure(s0)
    decreases |steps|
  {
    if steps != [] {
      hide Enabled, Apply, Inv, Measure;
      var n := |steps| - 1;
      var before :| Run(s0, steps[..n], before) && Enabled(before, steps[n]) && s == Apply(before, steps[n]);
      StoppedRunsAreBounded(s0, steps[..n], before);
      RunInv(s0, steps[..n], before);
      StepGoesForward(before, steps[n]);
      StepDescends(before, steps[n]);
    }
  }
}
