/**
 The sampler's lock-free counter as a state machine: T callers, each making calls of
 `IncCheckReset` one after another, every atomic operation a step of its own, in any
 interleaving.
 */
module SamplerCounter {
  import opened Sums

  /**
   Where a caller is in `IncCheckReset`. `seen` is the reset time it loaded and `tn` its own
   time; `at` is how many resets had happened when it loaded.
   */
  datatype Pc =
    | Idle
    | Counting                                   // the window is open: about to Add
    | Resetting(tn: int, seen: int, at: nat)     // about to Store(1)
    | Swapping(tn: int, seen: int, at: nat)      // about to CompareAndSwap
    | Recounting                                 // lost the swap: about to Add

  datatype Step =
    | Load(caller: nat, tn: int)
    | Add(caller: nat)
    | Store(caller: nat)
    | Swap(caller: nat)

  /** The two atomics, the callers, and a record of what has happened. */
  datatype State = State(
    resetAt: int,
    counter: nat,
    pcs: seq<Pc>,
    resets: seq<int>,      // values installed by successful swaps
    stores: seq<nat>,      // Store(1) operations, by caller
    wins: seq<nat>,        // successful swaps, by caller
    added: seq<nat>)       // values returned by Add; a winner returns 1

  function Init(callers: nat): (s: State) {
    State(0, 0, seq(callers, _ => Idle), [], seq(callers, _ => 0), seq(callers, _ => 0), [])
  }

  predicate Enabled(s: State, step: Step) {
    && step.caller < |s.pcs| == |s.stores| == |s.wins|
    && match step
       case Load(c, tn) => s.pcs[c].Idle? && tn >= 0
       case Add(c) => s.pcs[c].Counting? || s.pcs[c].Recounting?
       case Store(c) => s.pcs[c].Resetting?
       case Swap(c) => s.pcs[c].Swapping?
  }

  function Apply(s: State, step: Step, tick: int): (r: State)
    requires Enabled(s, step)
  {
    match step
    case Load(c, tn) =>
      s.(pcs := s.pcs[c := if s.resetAt > tn then Counting else Resetting(tn, s.resetAt, |s.resets|)])
    case Add(c) =>
      s.(counter := s.counter + 1, pcs := s.pcs[c := Idle], added := s.added + [s.counter + 1])
    case Store(c) =>
      var p := s.pcs[c];
      s.(counter := 1, pcs := s.pcs[c := Swapping(p.tn, p.seen, p.at)], stores := s.stores[c := s.stores[c] + 1])
    case Swap(c) =>
      var p := s.pcs[c];
      if s.resetAt == p.seen then
        s.(resetAt := p.tn + tick, resets := s.resets + [p.tn + tick],
           pcs := s.pcs[c := Idle], wins := s.wins[c := s.wins[c] + 1])
      else s.(pcs := s.pcs[c := Recounting])
  }

  /** `steps` is a possible interleaving, ending in `s`. */
  ghost predicate Run(callers: nat, tick: int, steps: seq<Step>, s: State)
    decreases |steps|
  {
    if steps == [] then s == Init(callers)
    else
      var n := |steps| - 1;
      exists before :: Run(callers, tick, steps[..n], before) && Enabled(before, steps[n])
                       && s == Apply(before, steps[n], tick)
  }

  /** How many of the values are at most `bound`. */
  function AtMost(xs: seq<nat>, bound: nat): (n: nat) {
    if xs == [] then 0 else (if xs[|xs| - 1] <= bound then 1 else 0) + AtMost(xs[..|xs| - 1], bound)
  }

  ghost predicate Increasing(xs: seq<int>) {
    forall i, j :: 0 <= i < j < |xs| ==> xs[i] < xs[j]
  }

  // ---- The invariant ----

  /** `resetAt` is the last value swapped in, and it has only ever grown. */
  ghost predicate ResetsOk(s: State) {
    && Increasing(s.resets)
    && (forall i :: 0 <= i < |s.resets| ==> 0 < s.resets[i])
    && s.resetAt == (if s.resets == [] then 0 else s.resets[|s.resets| - 1])
  }

  /** The swap succeeds exactly when nobody has reset since the load. */
  ghost predicate SeenOk(s: State, p: Pc) {
    p.Resetting? || p.Swapping? ==>
      && p.at <= |s.resets|
      && p.seen <= p.tn
      && (p.at == |s.resets| ==> s.resetAt == p.seen)
      && (p.at < |s.resets| ==> s.resetAt > p.seen)
  }

  /** A caller's stores are paid for by resets it has lived through. */
  ghost predicate StoresOk(s: State, p: Pc, stores: nat) {
    match p
    case Resetting(_, _, at) => stores <= at
    case Swapping(_, _, at) => stores <= at + 1
    case _ => stores <= |s.resets|
  }

  ghost predicate CallerOk(s: State, c: nat)
    requires c < |s.pcs| == |s.stores| == |s.wins|
  {
    && SeenOk(s, s.pcs[c])
    && StoresOk(s, s.pcs[c], s.stores[c])
    && s.wins[c] + (if s.pcs[c].Swapping? then 1 else 0) <= s.stores[c]
  }

  /** Nothing counts before the first store. */
  ghost predicate NothingYet(s: State) {
    && s.resets == [] && s.counter == 0 && s.added == []
    && forall c :: 0 <= c < |s.pcs| ==> s.pcs[c].Idle? || s.pcs[c].Resetting?
  }

  ghost predicate CountsOk(s: State) {
    && (Sum(s.stores) == 0 ==> NothingYet(s))
    && (Sum(s.stores) > 0 ==> s.counter > 0 && forall first: nat :: first > 0 ==> AddsBounded(s, first))
  }

  /** Each store starts a run of Adds that return 2, 3, ... */
  ghost predicate AddsBounded(s: State, first: nat)
    requires first > 0
  {
    AtMost(s.added, first) <= Share(first, Sum(s.stores) - 1) + (if s.counter < first then s.counter else first) - 1
  }

  /** The Adds of finished runs: at most `first - 1` low ones each. */
  function Share(first: nat, runs: int): (n: int) {
    (first - 1) * runs
  }

  ghost predicate Inv(s: State) {
    && |s.pcs| == |s.stores| == |s.wins|
    && Sum(s.wins) == |s.resets|
    && ResetsOk(s)
    && (forall c :: 0 <= c < |s.pcs| ==> CallerOk(s, c))
    && CountsOk(s)
  }

  // ---- Every step keeps it ----

  lemma AtMostPush(xs: seq<nat>, x: nat, bound: nat)
    ensures AtMost(xs + [x], bound) == AtMost(xs, bound) + (if x <= bound then 1 else 0)
  {
    assert (xs + [x])[..|xs|] == xs;
  }

  lemma InitInv(callers: nat)
    ensures Inv(Init(callers))
  {
    SumZero(Init(callers).stores);
    SumZero(Init(callers).wins);
  }

  lemma LoadKeeps(s: State, step: Step, tick: int)
    requires Inv(s) && Enabled(s, step) && step.Load?
    ensures Inv(Apply(s, step, tick))
  {
    var t := Apply(s, step, tick);
    assert CallerOk(s, step.caller);
    forall c | 0 <= c < |t.pcs| ensures CallerOk(t, c) {
      assert CallerOk(s, c);
    }
    assert forall first: nat :: first > 0 && AddsBounded(s, first) ==> AddsBounded(t, first);
  }

  lemma AddKeeps(s: State, step: Step, tick: int)
    requires Inv(s) && Enabled(s, step) && step.Add?
    ensures Inv(Apply(s, step, tick))
  {
    hide Share, Sum, AtMost;
    var t := Apply(s, step, tick);
    assert CallerOk(s, step.caller);
    forall c | 0 <= c < |t.pcs| ensures CallerOk(t, c) {
      assert CallerOk(s, c);
    }
    assert Sum(s.stores) > 0;
    forall first: nat | first > 0 ensures AddsBounded(t, first) {
      assert AddsBounded(s, first);
      AtMostPush(s.added, t.counter, first);
    }
  }

  lemma StoreKeeps(s: State, step: Step, tick: int)
    requires Inv(s) && Enabled(s, step) && step.Store?
    ensures Inv(Apply(s, step, tick))
  {
    var t := Apply(s, step, tick);
    var c0 := step.caller;
    assert CallerOk(s, c0);
    forall c | 0 <= c < |t.pcs| ensures CallerOk(t, c) {
      assert CallerOk(s, c);
    }
    SumUpdate(s.stores, c0, s.stores[c0] + 1);
    forall first: nat | first > 0 ensures AddsBounded(t, first) {
      if Sum(s.stores) > 0 {
        assert AddsBounded(s, first);
        NextEpoch(first, Sum(s.stores));
      }
    }
  }

  lemma NextEpoch(first: nat, stores: nat)
    requires first > 0 && stores > 0
    ensures Share(first, stores - 1) + (first - 1) == Share(first, stores)
  {
  }

  lemma SwapKeeps(s: State, step: Step, tick: int)
    requires Inv(s) && Enabled(s, step) && step.Swap? && tick > 0
    ensures Inv(Apply(s, step, tick))
  {
    var t := Apply(s, step, tick);
    var c0 := step.caller;
    assert CallerOk(s, c0);
    SumUpdate(s.wins, c0, s.wins[c0] + 1);
    SumPositive(s.stores, c0);
    forall c | 0 <= c < |t.pcs| ensures CallerOk(t, c) {
      assert CallerOk(s, c);
    }
    forall first: nat | first > 0 ensures AddsBounded(t, first) {
      assert AddsBounded(s, first);
    }
  }

  /** The invariant holds after every run. */
  lemma {:induction false} RunInv(callers: nat, tick: int, steps: seq<Step>, s: State)
    requires tick > 0 && Run(callers, tick, steps, s)
    ensures Inv(s) && |s.pcs| == callers
    decreases |steps|
  {
    if steps == [] {
      InitInv(callers);
    } else {
      hide Inv;
      var n := |steps| - 1;
      var before :| Run(callers, tick, steps[..n], before) && Enabled(before, steps[n])
                    && s == Apply(before, steps[n], tick);
      RunInv(callers, tick, steps[..n], before);
      match steps[n] {
        case Load(_, _) => LoadKeeps(before, steps[n], tick);
        case Add(_) => AddKeeps(before, steps[n], tick);
        case Store(_) => StoreKeeps(before, steps[n], tick);
        case Swap(_) => SwapKeeps(before, steps[n], tick);
      }
    }
  }

  // ---- What follows for every interleaving ----

  /**
   Each successful swap moves `resetAt` strictly forward, so no reset value is ever installed
   twice and every one has exactly one winner.
   */
  lemma OneWinnerPerReset(callers: nat, tick: int, steps: seq<Step>, s: State)
    requires tick > 0 && Run(callers, tick, steps, s)
    ensures Increasing(s.resets) && Sum(s.wins) == |s.resets|
    ensures forall c: nat :: Enabled(s, Swap(c)) ==> SwapMovesForward(s, Apply(s, Swap(c), tick))
  {
    hide Run, SwapMovesForward, CountsOk, Enabled;
    RunInv(callers, tick, steps, s);
    forall c: nat | Enabled(s, Swap(c)) ensures SwapMovesForward(s, Apply(s, Swap(c), tick)) {
      ForwardSwap(s, c, tick);
    }
  }

  lemma ForwardSwap(s: State, c: nat, tick: int)
    requires Inv(s) && Enabled(s, Swap(c)) && tick > 0
    ensures SwapMovesForward(s, Apply(s, Swap(c), tick))
  {
    hide CountsOk, Sum;
    assert CallerOk(s, c);
    SumUpdate(s.wins, c, s.wins[c] + 1);
  }

  /** Either the swap changed nothing shared, or it is a reset later than all before it, with one more winner. */
  ghost predicate SwapMovesForward(s: State, t: State) {
    || (t.resetAt == s.resetAt && t.resets == s.resets && t.wins == s.wins)
    || (t.resetAt > s.resetAt && t.resets == s.resets + [t.resetAt] && t.resetAt !in s.resets
        && Sum(t.wins) == Sum(s.wins) + 1)
  }

  /** How many calls have returned a count of at most `first`: Adds, and winners returning 1. */
  function LowReturns(s: State, first: nat): (n: nat) {
    AtMost(s.added, first) + (if first > 0 then Sum(s.wins) else 0)
  }

  lemma {:induction false} AtMostMonotone(xs: seq<nat>, a: nat, b: nat)
    requires a <= b
    ensures AtMost(xs, a) <= AtMost(xs, b)
  {
    if xs != [] {
      AtMostMonotone(xs[..|xs| - 1], a, b);
    }
  }

  /** At any point of any run, at most `first` low counts per store of 1, and fewer when stores lose. */
  lemma LowReturnsPerStore(callers: nat, tick: int, steps: seq<Step>, s: State, first: nat)
    requires tick > 0 && Run(callers, tick, steps, s)
    ensures first > 0 ==> LowReturns(s, first) <= Share(first, Sum(s.stores)) + |s.resets|
    ensures LowReturns(s, first) <= first * Sum(s.stores)
  {
    hide Run, Share, Sum, AtMost;
    RunInv(callers, tick, steps, s);
    NoShare(first);
    assert Sum(s.wins) <= Sum(s.stores) by {
      forall c | 0 <= c < |s.wins| ensures s.wins[c] <= s.stores[c] {
        assert CallerOk(s, c);
      }
      SumDominated(s.wins, s.stores);
    }
    if Sum(s.stores) > 0 {
      if first == 0 {
        assert AddsBounded(s, 1);
        AtMostMonotone(s.added, 0, 1);
      } else {
        assert AddsBounded(s, first);
        NextEpoch(first, Sum(s.stores));
        WholeShare(first, Sum(s.stores));
      }
    }
  }

  lemma WholeShare(first: nat, runs: nat)
    ensures first * runs == Share(first, runs) + runs
  {
  }

  lemma NoShare(first: nat)
    ensures Share(first, 0) == 0 && AtMost([], first) == 0
    ensures forall runs :: Share(1, runs) == 0
  {
  }

  ghost predicate Completed(s: State) {
    forall c :: 0 <= c < |s.pcs| ==> s.pcs[c].Idle?
  }

  /** Once all calls have returned, each reset has cost at most one store per caller. */
  lemma StoresPerReset(callers: nat, tick: int, steps: seq<Step>, s: State)
    requires tick > 0 && Run(callers, tick, steps, s) && Completed(s)
    ensures |s.stores| == callers && forall c :: 0 <= c < callers ==> s.stores[c] <= |s.resets|
    ensures Sum(s.stores) <= callers * |s.resets|
  {
    RunInv(callers, tick, steps, s);
    forall c | 0 <= c < callers ensures s.stores[c] <= |s.resets| {
      assert CallerOk(s, c);
    }
    SumBounded(s.stores, |s.resets|);
  }

  /** So each reset lets `first - 1` low counts through per caller, and the winner's 1. */
  lemma LowReturnsPerReset(callers: nat, tick: int, steps: seq<Step>, s: State, first: nat)
    requires tick > 0 && Run(callers, tick, steps, s) && Completed(s)
    ensures LowReturns(s, first) <= if first == 0 then 0 else (first - 1) * (callers * |s.resets|) + |s.resets|
  {
    hide Run, LowReturns;
    LowReturnsPerStore(callers, tick, steps, s, first);
    StoresPerReset(callers, tick, steps, s);
    if first > 0 {
      Scaled(first - 1, Sum(s.stores), callers * |s.resets|);
    }
  }

  lemma Scaled(k: nat, a: nat, b: nat)
    requires a <= b
    ensures k * a <= k * b
  {
  }

  // ---- The bound is attained ----

  lemma Extend(callers: nat, tick: int, steps: seq<Step>, s: State, step: Step, t: State)
    requires Run(callers, tick, steps, s) && Enabled(s, step) && t == Apply(s, step, tick)
    ensures Run(callers, tick, steps + [step], t)
  {
    assert (steps + [step])[..|steps|] == steps;
  }

  /** The first `k` callers have seen the first window closed. */
  lemma {:induction false} AllLoad(callers: nat, tick: int, k: nat) returns (steps: seq<Step>, s: State)
    requires k <= callers
    ensures Run(callers, tick, steps, s)
    ensures s == Init(callers).(pcs := s.pcs) && |s.pcs| == callers
    ensures forall i :: 0 <= i < callers ==> s.pcs[i] == if i < k then Resetting(0, 0, 0) else Idle
    decreases k
  {
    if k == 0 {
      steps, s := [], Init(callers);
    } else {
      hide Run;
      var before, s0 := AllLoad(callers, tick, k - 1);
      s := s0.(pcs := s0.pcs[k - 1 := Resetting(0, 0, 0)]);
      Extend(callers, tick, before, s0, Load(k - 1, 0), s);
      steps := before + [Load(k - 1, 0)];
    }
  }

  /** One reset has happened; callers from 1 up to `c` have stored since, the later ones are about to. */
  ghost predicate Late(s: State, callers: nat, tick: int, c: nat) {
    && 1 <= c <= callers == |s.pcs| == |s.stores| == |s.wins|
    && s.resetAt == tick && s.resets == [tick]
    && s.pcs[0].Idle?
    && (forall i :: 1 <= i < c ==> s.pcs[i] == Swapping(0, 0, 0))
    && (forall i :: c <= i < callers ==> s.pcs[i] == Resetting(0, 0, 0))
  }

  /** Caller 0 wins the reset that all have seen due. */
  lemma OneWinner(callers: nat, tick: int) returns (steps: seq<Step>, s: State)
    requires callers > 0 && tick > 0
    ensures Run(callers, tick, steps, s) && Late(s, callers, tick, 1) && s.counter == 1 && s.added == []
  {
    hide Run;
    var loaded, s0 := AllLoad(callers, tick, callers);
    var s1 := Apply(s0, Store(0), tick);
    Extend(callers, tick, loaded, s0, Store(0), s1);
    s := Apply(s1, Swap(0), tick);
    steps := loaded + [Store(0)];
    Extend(callers, tick, steps, s1, Swap(0), s);
    steps := steps + [Swap(0)];
  }

  /** Caller 0 counts in the open window `n` times. */
  lemma {:induction false} CountOn(callers: nat, tick: int, steps: seq<Step>, s: State, first: nat, n: nat)
    returns (all: seq<Step>, t: State)
    requires Run(callers, tick, steps, s) && tick > 0 && s.resetAt == tick
    requires 0 < |s.pcs| == |s.stores| == |s.wins| && s.pcs[0].Idle? && s.counter + n <= first
    ensures Run(callers, tick, all, t) && t == s.(counter := s.counter + n, added := t.added)
    ensures AtMost(t.added, first) == AtMost(s.added, first) + n
    decreases n
  {
    hide Run, AtMost;
    if n == 0 {
      all, t := steps, s;
    } else {
      var s1 := s.(pcs := s.pcs[0 := Counting]);
      Extend(callers, tick, steps, s, Load(0, 0), s1);
      var s2 := s.(counter := s.counter + 1, added := s.added + [s.counter + 1]);
      assert s1.pcs[0 := Idle] == s.pcs;
      Extend(callers, tick, steps + [Load(0, 0)], s1, Add(0), s2);
      AtMostPush(s.added, s.counter + 1, first);
      all, t := CountOn(callers, tick, steps + [Load(0, 0)] + [Add(0)], s2, first, n - 1);
    }
  }

  /** One after the other, late callers store 1 again, each followed by all low counts but the first. */
  lemma {:induction false} LateStores(callers: nat, tick: int, first: nat, c: nat) returns (steps: seq<Step>, s: State)
    requires 1 <= c <= callers && tick > 0 && first > 0
    ensures Run(callers, tick, steps, s) && Late(s, callers, tick, c)
    ensures AtMost(s.added, first) == (first - 1) * c
    decreases c
  {
    hide Run, AtMost;
    var before, s0;
    if c == 1 {
      before, s0 := OneWinner(callers, tick);
      NoShare(first);
      steps, s := CountOn(callers, tick, before, s0, first, first - 1);
    } else {
      before, s0 := LateStores(callers, tick, first, c - 1);
      var s1 := Apply(s0, Store(c - 1), tick);
      Extend(callers, tick, before, s0, Store(c - 1), s1);
      steps, s := CountOn(callers, tick, before + [Store(c - 1)], s1, first, first - 1);
      assert (first - 1) * (c - 1) + (first - 1) == (first - 1) * c;
    }
  }

  /** Callers from 1 up to `c` are still to lose their swap; the others are done. */
  ghost predicate Losing(s: State, callers: nat, tick: int, c: nat) {
    && 1 <= c <= callers == |s.pcs| == |s.stores| == |s.wins|
    && s.resetAt == tick && s.resets == [tick]
    && (forall i :: 0 <= i < callers ==> s.pcs[i] == if 1 <= i < c then Swapping(0, 0, 0) else Idle)
  }

  /** They lose it and count once more; no low count is taken back. */
  lemma {:induction false} AllLose(callers: nat, tick: int, first: nat, c: nat, steps: seq<Step>, s: State)
    returns (all: seq<Step>, t: State)
    requires Run(callers, tick, steps, s) && tick > 0 && Losing(s, callers, tick, c)
    ensures Run(callers, tick, all, t) && Losing(t, callers, tick, 1)
    ensures AtMost(t.added, first) >= AtMost(s.added, first)
    decreases c
  {
    hide Run, AtMost;
    if c == 1 {
      all, t := steps, s;
    } else {
      var s1 := Apply(s, Swap(c - 1), tick);
      Extend(callers, tick, steps, s, Swap(c - 1), s1);
      var s2 := Apply(s1, Add(c - 1), tick);
      Extend(callers, tick, steps + [Swap(c - 1)], s1, Add(c - 1), s2);
      AtMostPush(s.added, s.counter + 1, first);
      all, t := AllLose(callers, tick, first, c - 1, steps + [Swap(c - 1)] + [Add(c - 1)], s2);
    }
  }

  /** For any callers, `first` and tick, some run with one reset lets through as many as the bound allows. */
  lemma RacesOversample(callers: nat, tick: int, first: nat)
    requires callers > 0 && tick > 0 && first > 0
    ensures exists steps, s ::
      && Run(callers, tick, steps, s) && Completed(s) && |s.resets| == 1
      && LowReturns(s, first) == (first - 1) * callers + 1
  {
    hide Run, AtMost, Sum;
    var before, s0 := LateStores(callers, tick, first, callers);
    var steps, s := AllLose(callers, tick, first, callers, before, s0);
    RunInv(callers, tick, steps, s);
    assert callers * |s.resets| == callers;
    LowReturnsPerReset(callers, tick, steps, s, first);
  }

  /** In every completed run, at most `first` calls per reset return a count of at most `first`. */
  ghost predicate FirstPerReset(callers: nat, tick: int, first: nat) {
    forall steps, s :: Run(callers, tick, steps, s) && Completed(s) ==> LowReturns(s, first) <= first * |s.resets|
  }

  /** That promise holds exactly if there is nobody to race with, or only one entry to let through. */
  lemma FirstPerResetExactly(callers: nat, tick: int, first: nat)
    requires tick > 0
    ensures FirstPerReset(callers, tick, first) <==> callers <= 1 || first <= 1
  {
    hide Run, LowReturns, Completed;
    if callers <= 1 || first <= 1 {
      forall steps, s | Run(callers, tick, steps, s) && Completed(s)
        ensures LowReturns(s, first) <= first * |s.resets|
      {
        LowReturnsPerReset(callers, tick, steps, s, first);
        NoInflation(callers, first, |s.resets|);
      }
    } else {
      RacesOversample(callers, tick, first);
      Inflation(callers, first);
    }
  }

  lemma NoInflation(callers: nat, first: nat, resets: nat)
    requires callers <= 1 || first <= 1
    ensures first > 0 ==> (first - 1) * (callers * resets) + resets <= first * resets
  {
    if first > 1 {
      Scaled(first - 1, callers * resets, resets);
    }
  }

  lemma Inflation(callers: nat, first: nat)
    requires callers > 1 && first > 1
    ensures (first - 1) * callers + 1 > first * 1
  {
    Scaled(first - 1, 2, callers);
  }
}
