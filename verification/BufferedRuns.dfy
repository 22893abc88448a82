/**
 What callers of a `BufferedWriteSyncer` get out of every interleaving: their calls are made in
 order, exactly the bytes they were told are accepted, and ticks, Sync and Stop flush.
 */
module BufferedRuns {
  import opened Utf8
  import opened Sequences
  import opened Sums
  import opened BufferedWriter
  import opened BufferedProtocol

  // ---- Calls and bytes ----

  /** A call whose critical section is over, and the count it will return. */
  datatype Done = Done(caller: nat, call: Call, n: nat)

  /** Who ran a critical section in these steps, and the counts they reported. */
  function Bodies(steps: seq<Step>): (r: seq<(nat, nat)>) {
    if steps == [] then [] else Bodies(steps[..|steps| - 1]) + BodyIn(steps[|steps| - 1])
  }

  function BodyIn(step: Step): (r: seq<(nat, nat)>) {
    match step
    case WriteBody(i, _, n) => [(i, n)]
    case SyncBody(i, _) => [(i, 0)]
    case StopBody(i) => [(i, 0)]
    case _ => []
  }

  function Reports(h: seq<Done>): (r: seq<(nat, nat)>) {
    seq(|h|, k requires 0 <= k < |h| => (h[k].caller, h[k].n))
  }

  /** The calls of one caller. */
  function CallsOf(h: seq<Done>, i: nat): (r: seq<Call>) {
    if h == [] then []
    else
      var n := |h| - 1;
      CallsOf(h[..n], i) + (if h[n].caller == i then [h[n].call] else [])
  }

  function Part(d: Done): (r: Bytes) {
    if d.call.WriteCall? && d.n <= |d.call.bs| then d.call.bs[..d.n] else []
  }

  function Parts(h: seq<Done>): (r: seq<Bytes>) {
    seq(|h|, k requires 0 <= k < |h| => Part(h[k]))
  }

  /** The call whose critical section a caller is about to run. */
  function InProgress(pc: Pc): (r: seq<Call>) {
    match pc
    case InWrite(bs) => [WriteCall(bs)]
    case InSync => [SyncCall]
    case InStop => [StopCall]
    case _ => []
  }

  predicate AnyWrite(h: seq<Done>) {
    exists k :: 0 <= k < |h| && h[k].call.WriteCall?
  }

  /** There was a Stop after the first Write. */
  predicate AnyStop(h: seq<Done>) {
    exists j, k :: 0 <= j < k < |h| && h[j].call.WriteCall? && h[k].call.StopCall?
  }

  /** What each caller has done, is doing and has left to do is its program. */
  ghost predicate InOrder(programs: seq<seq<Call>>, s: State, h: seq<Done>) {
    && |s.threads| == |programs|
    && forall i :: 0 <= i < |programs| ==>
         CallsOf(h, i) + InProgress(s.threads[i].pc) + s.threads[i].calls == programs[i]
  }

  ghost predicate HistoryOk(programs: seq<seq<Call>>, s: State, h: seq<Done>) {
    && InOrder(programs, s, h)
    && Accepted(s.store) == Flatten(Parts(h))
    && (s.initialized <==> AnyWrite(h))
    && (s.stopped <==> AnyStop(h))
  }

  /** The call that a step's critical section completes. */
  ghost function Completed(s: State, step: Step): (r: seq<Done>)
    requires Enabled(s, step)
  {
    match step
    case WriteBody(i, _, n) => [Done(i, WriteCall(s.threads[i].pc.bs), n)]
    case SyncBody(i, _) => [Done(i, SyncCall, 0)]
    case StopBody(i) => [Done(i, StopCall, 0)]
    case _ => []
  }

  lemma CallsOfPush(h: seq<Done>, d: Done, i: nat)
    ensures CallsOf(h + [d], i) == CallsOf(h, i) + (if d.caller == i then [d.call] else [])
  {
    assert (h + [d])[..|h|] == h;
  }

  lemma PartsPush(h: seq<Done>, d: Done)
    ensures Flatten(Parts(h + [d])) == Flatten(Parts(h)) + Part(d)
    ensures Reports(h + [d]) == Reports(h) + [(d.caller, d.n)]
    ensures AnyWrite(h + [d]) <==> AnyWrite(h) || d.call.WriteCall?
    ensures AnyStop(h + [d]) <==> AnyStop(h) || (AnyWrite(h) && d.call.StopCall?)
  {
    assert Parts(h + [d]) == Parts(h) + [Part(d)];
    FlattenPush(Parts(h), Part(d));
    assert forall k :: 0 <= k < |h| ==> (h + [d])[k] == h[k];
    assert (h + [d])[|h|] == d;
  }

  /** Only writes add bytes, and exactly those they report; nothing is ever taken back. */
  lemma StepAccepts(s: State, step: Step)
    requires Enabled(s, step)
    ensures Accepted(Apply(s, step).store)
         == Accepted(s.store) + (if step.WriteBody? then s.threads[step.i].pc.bs[..step.n] else [])
  {
    assert Accepted(s.store) + [] == Accepted(s.store);
  }

  predicate OfCaller(step: Step) {
    || step.Lock? || step.WriteBody? || step.SyncBody? || step.StopBody?
    || step.FinalBody? || step.Unlock? || step.SeeDone?
  }

  /** The step is one of this caller. */
  predicate Moves(step: Step, i: nat) {
    OfCaller(step) && step.i == i
  }

  lemma OthersStay(s: State, step: Step, i: nat)
    requires Enabled(s, step) && i < |s.threads|
    ensures |Apply(s, step).threads| == |s.threads|
    ensures !Moves(step, i) ==> Apply(s, step).threads[i] == s.threads[i]
  {
    if OfCaller(step) {
      hide Writes, Syncs, Accepted, Locked, Unlocked;
      assert Apply(s, step).threads == s.threads[step.i := Apply(s, step).threads[step.i]];
    } else {
      LoopLeavesCallers(s, step);
    }
  }

  lemma LoopLeavesCallers(s: State, step: Step)
    requires Enabled(s, step) && !OfCaller(step)
    ensures Apply(s, step).threads == s.threads
  {
    hide Writes, Syncs, Accepted;
  }

  lemma OthersDoNotComplete(s: State, step: Step, i: nat)
    requires Enabled(s, step) && !Moves(step, i)
    ensures CallsOf(Completed(s, step), i) == []
  {
    CallsOfNone(i);
    if Completed(s, step) != [] {
      hide CallsOf, Enabled;
      AtMostOneDone(s, step);
      assert Completed(s, step) == [Completed(s, step)[0]];
      CallsOfOne(Completed(s, step)[0], i);
    }
  }

  /** A caller's own step takes its next call, completes the one in progress or touches neither. */
  lemma OwnStep(s: State, step: Step, i: nat)
    requires Enabled(s, step) && i < |s.threads| && Moves(step, i)
    ensures |Apply(s, step).threads| == |s.threads|
    ensures var (th, th') := (s.threads[i], Apply(s, step).threads[i]);
      || (Completed(s, step) == [] && InProgress(th'.pc) == InProgress(th.pc) && th'.calls == th.calls)
      || (Completed(s, step) == [] && InProgress(th.pc) == [] && th.calls == InProgress(th'.pc) + th'.calls)
      || (|Completed(s, step)| == 1 && Completed(s, step)[0].caller == i && InProgress(th'.pc) == []
          && InProgress(th.pc) == [Completed(s, step)[0].call] && th'.calls == th.calls)
  {
    hide Writes, Syncs, Accepted;
    if step.Lock? && s.threads[i].pc.Ready? {
      assert s.threads[i].calls == [s.threads[i].calls[0]] + s.threads[i].calls[1..];
    }
  }

  lemma CallerOrder(s: State, step: Step, i: nat)
    requires Enabled(s, step) && i < |s.threads|
    ensures |Apply(s, step).threads| == |s.threads|
    ensures var (th, th') := (s.threads[i], Apply(s, step).threads[i]);
      InProgress(th.pc) + th.calls
      == CallsOf(Completed(s, step), i) + (InProgress(th'.pc) + th'.calls)
  {
    hide Enabled, Apply, Completed, InProgress;
    OthersStay(s, step, i);
    if Moves(step, i) {
      OwnStep(s, step, i);
    } else {
      OthersDoNotComplete(s, step, i);
    }
    if |Completed(s, step)| == 1 {
      CallsOfOne(Completed(s, step)[0], i);
      assert Completed(s, step) == [Completed(s, step)[0]];
    }
  }

  lemma CallsOfNone(i: nat)
    ensures CallsOf([], i) == []
  {
  }

  lemma CallsOfOne(d: Done, i: nat)
    ensures CallsOf([d], i) == if d.caller == i then [d.call] else []
  {
    CallsOfPush([], d, i);
    assert [] + [d] == [d];
  }

  lemma StepKeepsOrder(programs: seq<seq<Call>>, s: State, step: Step, h: seq<Done>)
    requires InOrder(programs, s, h) && Enabled(s, step)
    ensures InOrder(programs, Apply(s, step), h + Completed(s, step))
  {
    hide Enabled, Apply, InProgress, Completed;
    var t, done := Apply(s, step), Completed(s, step);
    StepKeepsThreads(s, step);
    forall i | 0 <= i < |programs|
      ensures CallsOf(h + done, i) + InProgress(t.threads[i].pc) + t.threads[i].calls == programs[i]
    {
      CallerOrder(s, step, i);
      AtMostOneDone(s, step);
      CallsOfConcat(h, done, i);
      var rest := InProgress(t.threads[i].pc) + t.threads[i].calls;
      assert CallsOf(h, i) + (InProgress(s.threads[i].pc) + s.threads[i].calls) == programs[i];
      assert CallsOf(h, i) + (CallsOf(done, i) + rest) == CallsOf(h, i) + CallsOf(done, i) + rest;
      assert CallsOf(h + done, i) + InProgress(t.threads[i].pc) + t.threads[i].calls == CallsOf(h + done, i) + rest;
    }
  }

  lemma AtMostOneDone(s: State, step: Step)
    requires Enabled(s, step)
    ensures |Completed(s, step)| <= 1
  {
  }

  lemma CallsOfConcat(h: seq<Done>, done: seq<Done>, i: nat)
    requires |done| <= 1
    ensures CallsOf(h + done, i) == CallsOf(h, i) + CallsOf(done, i)
  {
    CallsOfNone(i);
    hide CallsOf;
    if done == [] {
      assert h + done == h;
    } else {
      assert done == [done[0]];
      CallsOfPush(h, done[0], i);
      CallsOfOne(done[0], i);
    }
  }

  lemma StepKeepsHistory(programs: seq<seq<Call>>, s: State, step: Step, h: seq<Done>)
    requires HistoryOk(programs, s, h) && Enabled(s, step)
    ensures HistoryOk(programs, Apply(s, step), h + Completed(s, step))
    ensures Reports(h + Completed(s, step)) == Reports(h) + BodyIn(step)
  {
    hide InOrder, Writes, Syncs, CallsOf, AnyWrite, AnyStop;
    StepKeepsOrder(programs, s, step, h);
    StepAccepts(s, step);
    var done := Completed(s, step);
    if done == [] {
      assert h + done == h && Reports(h) + [] == Reports(h);
    } else {
      PartsPush(h, done[0]);
      CountFits(s, step);
    }
  }

  lemma CountFits(s: State, step: Step)
    requires Enabled(s, step)
    ensures step.WriteBody? ==> step.n <= |s.threads[step.i].pc.bs|
  {
  }

  /**
   Over every interleaving: each caller's calls take effect in the order of its program, with the
   counts that were reported; what has been accepted is exactly the bytes those counts speak of,
   one call after the other; the loop has been started exactly if there was a Write, and told to stop
   exactly if there was a Stop after it.
   */
  lemma {:induction false} RunHistory(programs: seq<seq<Call>>, steps: seq<Step>, s: State) returns (h: seq<Done>)
    requires Run(Init(programs), steps, s)
    ensures HistoryOk(programs, s, h) && Reports(h) == Bodies(steps)
    decreases |steps|
  {
    if steps == [] {
      h := [];
      StartHistory(programs);
    } else {
      hide Enabled, Apply, HistoryOk, Completed;
      var n := |steps| - 1;
      var before :| Run(Init(programs), steps[..n], before) && Enabled(before, steps[n])
                    && s == Apply(before, steps[n]);
      var earlier := RunHistory(programs, steps[..n], before);
      StepKeepsHistory(programs, before, steps[n], earlier);
      h := earlier + Completed(before, steps[n]);
    }
  }

  lemma StartHistory(programs: seq<seq<Call>>)
    ensures HistoryOk(programs, Init(programs), [])
  {
  }

  // ---- Flushing ----

  /** What had been accepted has reached the sink, or a write to it has failed. */
  ghost predicate Flushed(accepted: Bytes, s: State) {
    accepted <= s.store.sink || s.store.err
  }

  lemma {:induction false} FlushedForGood(accepted: Bytes, s0: State, steps: seq<Step>, s: State)
    requires Inv(s0) && Flushed(accepted, s0) && Run(s0, steps, s)
    ensures Flushed(accepted, s)
    decreases |steps|
  {
    if steps != [] {
      hide Enabled, Apply, Inv;
      var n := |steps| - 1;
      var before :| Run(s0, steps[..n], before) && Enabled(before, steps[n]) && s == Apply(before, steps[n]);
      FlushedForGood(accepted, s0, steps[..n], before);
      RunInv(s0, steps[..n], before);
      StepGoesForward(before, steps[n]);
      ErrorsStay(before, steps[n]);
    }
  }

  lemma ErrorsStay(s: State, step: Step)
    requires Enabled(s, step)
    ensures s.store.err ==> Apply(s, step).store.err
  {
  }

  lemma SyncFlushes(s: State, t: Store)
    requires Inv(s) && Syncs(s, t)
    ensures Accepted(s.store) <= t.sink || t.err
  {
    if s.initialized && !t.err {
      SyncedIsInSink(s.store, t);
    }
  }

  /** Once a Sync has run, all that was accepted before it is in the sink for good, or a flush has failed. */
  lemma SyncIsForGood(programs: seq<seq<Call>>, steps: seq<Step>, b: State, i: nat, t: Store,
                      later: seq<Step>, s: State)
    requires Run(Init(programs), steps, b) && Enabled(b, SyncBody(i, t))
    requires Run(Apply(b, SyncBody(i, t)), later, s)
    ensures Flushed(Accepted(b.store), s)
  {
    hide Run, Init, Inv;
    InitInv(programs);
    RunInv(Init(programs), steps, b);
    SyncFlushes(b, t);
    StepKeepsInv(b, SyncBody(i, t));
    FlushedForGood(Accepted(b.store), Apply(b, SyncBody(i, t)), later, s);
  }

  lemma StepKeepsInv(s: State, step: Step)
    requires Inv(s) && Enabled(s, step)
    ensures Inv(Apply(s, step))
  {
    assert [step][..0] == [];
    assert Run(s, [], s);
    assert Run(s, [step][..0], s);
    RunInv(s, [step], Apply(s, step));
  }

  // ---- Ticks ----

  /** The loop is on its way to a Sync for a tick it has received. */
  predicate Owes(s: State) {
    s.loop.Wanting? || s.loop.Syncing?
  }

  /** It has flushed since, or will before it looks for another tick. */
  ghost predicate Owed(accepted: Bytes, s: State) {
    Flushed(accepted, s) || (Owes(s) && accepted <= Accepted(s.store))
  }

  lemma StepPays(accepted: Bytes, s: State, step: Step)
    requires Inv(s) && Enabled(s, step) && Owed(accepted, s)
    ensures Owed(accepted, Apply(s, step))
  {
    hide MutexOk, PcOk, ReturnsOk;
    StepGoesForward(s, step);
    ErrorsStay(s, step);
    StepAccepts(s, step);
    if step.LoopBody? {
      SyncFlushes(s, step.t);
    }
  }

  lemma {:induction false} RunPays(accepted: Bytes, s0: State, steps: seq<Step>, s: State)
    requires Inv(s0) && Owed(accepted, s0) && Run(s0, steps, s)
    ensures Owed(accepted, s)
    decreases |steps|
  {
    if steps != [] {
      hide Enabled, Apply, Inv, Owed;
      var n := |steps| - 1;
      var before :| Run(s0, steps[..n], before) && Enabled(before, steps[n]) && s == Apply(before, steps[n]);
      RunPays(accepted, s0, steps[..n], before);
      RunInv(s0, steps[..n], before);
      StepPays(accepted, before, steps[n]);
    }
  }

  /**
   A tick flushes: when the loop has received one and is waiting for the next, all that had been
   accepted when it received it is in the sink, or a flush has failed.
   */
  lemma TickFlushes(programs: seq<seq<Call>>, steps: seq<Step>, b: State, later: seq<Step>, s: State)
    requires Run(Init(programs), steps, b) && Enabled(b, RecvTick)
    requires Run(Apply(b, RecvTick), later, s) && s.loop.Selecting?
    ensures Flushed(Accepted(b.store), s)
  {
    hide Run, Init, Inv;
    InitInv(programs);
    RunInv(Init(programs), steps, b);
    StepKeepsInv(b, RecvTick);
    RunPays(Accepted(b.store), Apply(b, RecvTick), later, s);
  }

  /** Ticks of the ticker, ticks the loop has received, and its Syncs. */
  function Fired(steps: seq<Step>): (n: nat) {
    if steps == [] then 0 else Fired(steps[..|steps| - 1]) + (if steps[|steps| - 1].Tick? then 1 else 0)
  }

  function Ticks(steps: seq<Step>): (n: nat) {
    if steps == [] then 0 else Ticks(steps[..|steps| - 1]) + (if steps[|steps| - 1].RecvTick? then 1 else 0)
  }

  function LoopSyncs(steps: seq<Step>): (n: nat) {
    if steps == [] then 0 else LoopSyncs(steps[..|steps| - 1]) + (if steps[|steps| - 1].LoopBody? then 1 else 0)
  }

  /** A Sync of the loop for each tick: none missing but the pending one and the one it is on its way to, none more. */
  lemma {:induction false} OneSyncPerTick(programs: seq<seq<Call>>, steps: seq<Step>, s: State)
    requires Run(Init(programs), steps, s)
    ensures Fired(steps) == Ticks(steps) + (if s.tickPending then 1 else 0)
    ensures Ticks(steps) == LoopSyncs(steps) + (if Owes(s) then 1 else 0)
    decreases |steps|
  {
    if steps != [] {
      hide Enabled, Apply, Inv;
      var n := |steps| - 1;
      var before :| Run(Init(programs), steps[..n], before) && Enabled(before, steps[n])
                    && s == Apply(before, steps[n]);
      OneSyncPerTick(programs, steps[..n], before);
      InitInv(programs);
      RunInv(Init(programs), steps[..n], before);
      StepOwes(before, steps[n]);
    }
  }

  lemma StepOwes(s: State, step: Step)
    requires Inv(s) && Enabled(s, step)
    ensures step.RecvTick? ==> !Owes(s) && Owes(Apply(s, step))
    ensures step.LoopBody? ==> Owes(s) && !Owes(Apply(s, step))
    ensures !step.RecvTick? && !step.LoopBody? ==> Owes(Apply(s, step)) == Owes(s)
    ensures step.Tick? ==> !s.tickPending && Apply(s, step).tickPending
    ensures step.RecvTick? ==> s.tickPending && !Apply(s, step).tickPending
    ensures !step.Tick? && !step.RecvTick? ==> Apply(s, step).tickPending == s.tickPending
  {
    hide MutexOk, PcOk, ReturnsOk, Writes, Accepted;
  }

  // ---- Stop ----

  /** The caller's Stop has closed `stop` and has not returned yet. */
  predicate Stopping(th: Thread) {
    || (th.pc.LeavingStop? && th.pc.won)
    || th.pc.AwaitDone? || th.pc.FinalSync? || th.pc.InFinalSync? || th.pc.LeavingFinal?
  }

  function StoppingFlags(ths: seq<Thread>): (ns: seq<nat>) {
    seq(|ths|, i requires 0 <= i < |ths| => if Stopping(ths[i]) then 1 else 0)
  }

  lemma FlagUpdate(ths: seq<Thread>, i: nat, th: Thread)
    requires i < |ths|
    ensures Sum(StoppingFlags(ths[i := th]))
         == Sum(StoppingFlags(ths)) - (if Stopping(ths[i]) then 1 else 0) + (if Stopping(th) then 1 else 0)
  {
    hide Stopping;
    assert StoppingFlags(ths[i := th]) == StoppingFlags(ths)[i := if Stopping(th) then 1 else 0];
    SumUpdate(StoppingFlags(ths), i, if Stopping(th) then 1 else 0);
  }

  lemma StepKeepsStops(s: State, step: Step)
    requires Enabled(s, step)
    requires |s.stopReturns| + Sum(StoppingFlags(s.threads)) == s.stopCloses
    ensures var t := Apply(s, step); |t.stopReturns| + Sum(StoppingFlags(t.threads)) == t.stopCloses
  {
    hide Writes, Syncs, Accepted, Sum, StoppingFlags;
    var t := Apply(s, step);
    if OfCaller(step) {
      FlagUpdate(s.threads, step.i, t.threads[step.i]);
      assert t.threads == s.threads[step.i := t.threads[step.i]];
    }
  }

  /** Exactly the Stop that closed `stop` waits for the loop and has its own Sync to report: in the end it has. */
  lemma {:induction false} OneStopReports(programs: seq<seq<Call>>, steps: seq<Step>, s: State)
    requires Run(Init(programs), steps, s)
    ensures |s.stopReturns| + Sum(StoppingFlags(s.threads)) == s.stopCloses
    ensures Quiet(s) && s.stopped ==> |s.stopReturns| == 1
    decreases |steps|
  {
    InitInv(programs);
    RunInv(Init(programs), steps, s);
    if steps == [] {
      SumZero(StoppingFlags(s.threads));
    } else {
      hide Enabled, Apply;
      var n := |steps| - 1;
      var before :| Run(Init(programs), steps[..n], before) && Enabled(before, steps[n])
                    && s == Apply(before, steps[n]);
      OneStopReports(programs, steps[..n], before);
      StepKeepsStops(before, steps[n]);
      if Quiet(s) {
        SumZero(StoppingFlags(s.threads));
      }
    }
  }

  /** Caller `i` is about to return this from Stop, or has. */
  ghost predicate Returning(s: State, i: nat, r: StopReturn) {
    || (i < |s.threads| && s.threads[i].pc == LeavingFinal(r.failed, r.accepted))
    || r in s.stopReturns
  }

  lemma StepKeepsReport(s: State, step: Step, i: nat, r: StopReturn)
    requires Inv(s) && Enabled(s, step) && Returning(s, i, r)
    ensures Returning(Apply(s, step), i, r)
  {
    hide Writes, Syncs, Accepted;
  }

  lemma {:induction false} RunKeepsReport(s0: State, steps: seq<Step>, s: State, i: nat, r: StopReturn)
    requires Inv(s0) && Returning(s0, i, r) && Run(s0, steps, s)
    ensures Returning(s, i, r)
    decreases |steps|
  {
    if steps != [] {
      hide Enabled, Apply, Inv, Returning;
      var n := |steps| - 1;
      var before :| Run(s0, steps[..n], before) && Enabled(before, steps[n]) && s == Apply(before, steps[n]);
      RunKeepsReport(s0, steps[..n], before, i, r);
      RunInv(s0, steps[..n], before);
      StepKeepsReport(before, steps[n], i, r);
    }
  }

  /**
   Stop's own Sync flushes for good all that had been accepted, and Stop fails exactly if that
   flush or the sink's Sync did.
   */
  lemma StopReports(programs: seq<seq<Call>>, steps: seq<Step>, b: State, i: nat, t: Store, syncFails: bool,
                    later: seq<Step>, s: State)
    requires Run(Init(programs), steps, b) && Enabled(b, FinalBody(i, t, syncFails))
    requires Run(Apply(b, FinalBody(i, t, syncFails)), later, s)
    ensures Flushed(Accepted(b.store), s)
    ensures Returning(s, i, StopReturn(t.err || syncFails, Accepted(b.store)))
  {
    hide Run, Init, Inv;
    InitInv(programs);
    RunInv(Init(programs), steps, b);
    SyncFlushes(b, t);
    StepKeepsInv(b, FinalBody(i, t, syncFails));
    FlushedForGood(Accepted(b.store), Apply(b, FinalBody(i, t, syncFails)), later, s);
    RunKeepsReport(Apply(b, FinalBody(i, t, syncFails)), later, s, i,
                   StopReturn(t.err || syncFails, Accepted(b.store)));
  }
}
