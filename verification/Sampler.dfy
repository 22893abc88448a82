/**
 The sampler run one call at a time: which entries it lets through, window by window and
 bucket by bucket.
 */
module Sampler {
  import opened Utf8
  import opened Sequences
  import opened Hash
  import SamplerCounter

  const MIN_LEVEL := -1
  const MAX_LEVEL := 5
  const NUM_LEVELS := 7

  /** One counter: its `resetAt` and `counter` atomics. */
  datatype Cell = Cell(resetAt: int, counter: nat)

  /** `IncCheckReset` without a race: the swap always succeeds. */
  function Inc(c: Cell, tn: int, tick: int): (r: Cell) {
    if c.resetAt > tn then c.(counter := c.counter + 1) else Cell(tn + tick, 1)
  }

  /** The steps of one call that nobody interrupts. */
  function AloneSteps(s: SamplerCounter.State, c: nat, tn: int): (steps: seq<SamplerCounter.Step>) {
    if s.resetAt > tn then [SamplerCounter.Load(c, tn), SamplerCounter.Add(c)]
    else [SamplerCounter.Load(c, tn), SamplerCounter.Store(c), SamplerCounter.Swap(c)]
  }

  /**
   A call that runs alone, from any state of the lock-free counter: it goes through, takes the
   two atomics where `Inc` takes them, and what it returns is the new count.
   */
  lemma AloneIsInc(s: SamplerCounter.State, c: nat, tn: int, tick: int)
    requires c < |s.pcs| == |s.stores| == |s.wins| && s.pcs[c].Idle? && tn >= 0
    ensures var steps := AloneSteps(s, c, tn);
      && SamplerCounter.Enabled(s, steps[0])
      && var s1 := SamplerCounter.Apply(s, steps[0], tick);
      && SamplerCounter.Enabled(s1, steps[1])
      && var s2 := SamplerCounter.Apply(s1, steps[1], tick);
      && (|steps| == 3 ==> SamplerCounter.Enabled(s2, steps[2]))
      && var t := if |steps| == 3 then SamplerCounter.Apply(s2, steps[2], tick) else s2;
      && Cell(t.resetAt, t.counter) == Inc(Cell(s.resetAt, s.counter), tn, tick)
      && t.pcs == s.pcs
      && (|steps| == 2 ==> t.added == s.added + [t.counter] && t.resets == s.resets)
      && (|steps| == 3 ==> t.counter == 1 && t.added == s.added && t.resets == s.resets + [t.resetAt])
  {
    var p := SamplerCounter.Resetting(tn, s.resetAt, |s.resets|);
    var q := SamplerCounter.Swapping(tn, s.resetAt, |s.resets|);
    assert s.pcs[c := SamplerCounter.Counting][c := SamplerCounter.Idle] == s.pcs;
    assert s.pcs[c := p][c := q][c := SamplerCounter.Idle] == s.pcs;
  }

  /** The test `Check` makes of the returned count. */
  predicate Admits(n: nat, first: nat, thereafter: nat) {
    n <= first || (thereafter != 0 && (n - first) % thereafter == 0)
  }

  /** A counter after entries at these times. */
  function After(c: Cell, times: seq<int>, tick: int): (r: Cell) {
    if times == [] then c else Inc(After(c, times[..|times| - 1], tick), times[|times| - 1], tick)
  }

  /** The counts returned for entries at these times. */
  function Counts(c: Cell, times: seq<int>, tick: int): (ns: seq<nat>)
    ensures |ns| == |times|
    decreases |times|
  {
    if times == [] then []
    else [Inc(c, times[0], tick).counter] + Counts(Inc(c, times[0], tick), times[1..], tick)
  }

  // ---- Windows ----

  /** How many entries follow one another before one at or after `end`. */
  function RunBefore(times: seq<int>, end: int): (n: nat)
    ensures n <= |times|
  {
    if times != [] && times[0] < end then 1 + RunBefore(times[1..], end) else 0
  }

  /** Windows by time alone: each opens at its first entry and lasts one tick. */
  function Windows(times: seq<int>, tick: int): (ws: seq<seq<int>>) {
    if times == [] then []
    else
      var n := 1 + RunBefore(times[1..], times[0] + tick);
      [times[..n]] + Windows(times[n..], tick)
  }

  function Numbered(ws: seq<seq<int>>): (r: seq<seq<nat>>) {
    if ws == [] then [] else [UpFrom(1, |ws[0]|)] + Numbered(ws[1..])
  }

  lemma {:induction false} WindowsSplitTimes(times: seq<int>, tick: int)
    ensures Flatten(Windows(times, tick)) == times
    decreases |times|
  {
    if times != [] {
      var n := 1 + RunBefore(times[1..], times[0] + tick);
      var rest := Windows(times[n..], tick);
      WindowsSplitTimes(times[n..], tick);
      assert ([times[..n]] + rest)[1..] == rest;
      assert times[..n] + times[n..] == times;
    }
  }

  /** Inside a window the counter only counts up. */
  lemma {:induction false} CountsInWindow(c: Cell, times: seq<int>, tick: int)
    ensures var n := RunBefore(times, c.resetAt);
            Counts(c, times, tick) ==
            UpFrom(c.counter + 1, n) + Counts(c.(counter := c.counter + n), times[n..], tick)
    decreases |times|
  {
    if times != [] && times[0] < c.resetAt {
      var n := RunBefore(times[1..], c.resetAt);
      CountsInWindow(Inc(c, times[0], tick), times[1..], tick);
      assert times[1..][n..] == times[n + 1..];
    }
  }

  /** How many entries the first window holds after the one that opens it. */
  function FirstMore(times: seq<int>, tick: int): (m: nat)
    requires times != []
    ensures m + 1 <= |times|
  {
    RunBefore(times[1..], times[0] + tick)
  }

  /** The first window, numbered, and the others. */
  lemma FirstWindow(times: seq<int>, tick: int)
    requires times != []
    ensures var m := FirstMore(times, tick);
      Flatten(Numbered(Windows(times, tick)))
      == UpFrom(1, m + 1) + Flatten(Numbered(Windows(times[m + 1..], tick)))
  {
    hide RunBefore, UpFrom;
    var m := FirstMore(times, tick);
    var ws := Windows(times, tick);
    assert ws[0] == times[..m + 1] && ws[1..] == Windows(times[m + 1..], tick);
    assert Numbered(ws)[1..] == Numbered(ws[1..]);
  }

  /** The counts of the first window, and the others. */
  lemma FirstCounts(c: Cell, times: seq<int>, tick: int)
    requires times != [] && c.resetAt <= times[0]
    ensures var m := FirstMore(times, tick);
      Counts(c, times, tick)
      == UpFrom(1, m + 1) + Counts(Cell(times[0] + tick, 1 + m), times[m + 1..], tick)
  {
    hide RunBefore;
    var c1 := Cell(times[0] + tick, 1);
    var m := FirstMore(times, tick);
    var rest := times[m + 1..];
    CountsInWindow(c1, times[1..], tick);
    assert times[1..][m..] == rest;
    assert Counts(c, times, tick) == [1] + Counts(c1, times[1..], tick);
    assert UpFrom(1, m + 1) == [1] + UpFrom(2, m);
    var later := Counts(c1.(counter := 1 + m), rest, tick);
    assert [1] + (UpFrom(2, m) + later) == [1] + UpFrom(2, m) + later;
  }

  lemma NoWindows(c: Cell, tick: int)
    ensures Counts(c, [], tick) == Flatten(Numbered(Windows([], tick)))
  {
  }

  /** Every window's entries are counted 1, 2, 3, ... and every count belongs to one window. */
  lemma {:induction false} CountsByWindow(c: Cell, times: seq<int>, tick: int)
    requires times == [] || c.resetAt <= times[0]
    ensures Counts(c, times, tick) == Flatten(Numbered(Windows(times, tick)))
    decreases |times|
  {
    hide Flatten, Numbered, Windows, Counts, UpFrom, RunBefore;
    if times == [] {
      NoWindows(c, tick);
    } else {
      var m := FirstMore(times, tick);
      var rest := times[m + 1..];
      FirstWindow(times, tick);
      FirstCounts(c, times, tick);
      NextWindowIsLater(times[1..], times[0] + tick);
      assert rest != [] ==> rest[0] == times[1..][m];
      CountsByWindow(Cell(times[0] + tick, 1 + m), rest, tick);
    }
  }

  lemma {:induction false} NextWindowIsLater(times: seq<int>, end: int)
    ensures var n := RunBefore(times, end); n == |times| || times[n] >= end
  {
    if times != [] && times[0] < end {
      NextWindowIsLater(times[1..], end);
    }
  }

  // ---- How many a window admits ----

  function Admitted(ns: seq<nat>, first: nat, thereafter: nat): (k: nat) {
    if ns == [] then 0 else (if Admits(ns[0], first, thereafter) then 1 else 0) + Admitted(ns[1..], first, thereafter)
  }

  /** The documented quota of a window of `n` entries. */
  function Quota(n: nat, first: nat, thereafter: nat): (k: nat) {
    if n <= first then n
    else first + (if thereafter == 0 then 0 else (n - first) / thereafter)
  }

  lemma DivStep(x: nat, d: nat)
    requires d > 0
    ensures (x + 1) / d == x / d + (if (x + 1) % d == 0 then 1 else 0)
  {
    var q, r := x / d, x % d;
    if r + 1 < d {
      QuotientIs(x + 1, d, q, r + 1);
    } else {
      assert (q + 1) * d == q * d + d;
      QuotientIs(x + 1, d, q + 1, 0);
    }
  }

  lemma AtLeastOne(a: nat, d: nat)
    requires a > 0
    ensures a * d >= d
  {
  }

  lemma Distribute(a: int, b: int, d: int)
    ensures (a - b) * d == a * d - b * d
  {
  }

  lemma QuotientIs(x: nat, d: nat, q: nat, r: nat)
    requires r < d && x == q * d + r
    ensures x / d == q && x % d == r
  {
    var q' := x / d;
    if q > q' {
      AtLeastOne(q - q', d);
      Distribute(q, q', d);
    } else if q < q' {
      AtLeastOne(q' - q, d);
      Distribute(q', q, d);
    }
  }

  lemma QuotaStep(n: nat, first: nat, thereafter: nat)
    ensures Quota(n + 1, first, thereafter)
         == Quota(n, first, thereafter) + (if Admits(n + 1, first, thereafter) then 1 else 0)
  {
    hide Admits;
    if n + 1 > first && thereafter != 0 {
      AdmitsLate(n + 1, first, thereafter);
      if n >= first {
        DivStep(n - first, thereafter);
      }
    } else {
      AdmitsEarly(n + 1, first, thereafter);
    }
  }

  lemma AdmitsLate(n: nat, first: nat, thereafter: nat)
    requires n > first && thereafter != 0
    ensures Admits(n, first, thereafter) == ((n - first) % thereafter == 0)
  {
  }

  lemma AdmitsEarly(n: nat, first: nat, thereafter: nat)
    requires n <= first || thereafter == 0
    ensures Admits(n, first, thereafter) == (n <= first)
  {
  }

  lemma {:induction false} AdmittedUpFrom(k: nat, n: nat, first: nat, thereafter: nat)
    ensures Admitted(UpFrom(k + 1, n), first, thereafter)
         == Quota(k + n, first, thereafter) - Quota(k, first, thereafter)
    decreases n
  {
    if n > 0 {
      AdmittedUpFrom(k + 1, n - 1, first, thereafter);
      QuotaStep(k, first, thereafter);
      assert UpFrom(k + 1, n)[1..] == UpFrom(k + 2, n - 1);
    }
  }

  /** A window of N entries lets through exactly min(N, first) and then every thereafter-th. */
  lemma WindowQuota(n: nat, first: nat, thereafter: nat)
    ensures Admitted(UpFrom(1, n), first, thereafter) ==
            (if n < first then n else first)
            + (if thereafter == 0 || n <= first then 0 else (n - first) / thereafter)
  {
    hide Admitted;
    AdmittedUpFrom(0, n, first, thereafter);
  }

  function TotalQuota(ws: seq<seq<int>>, first: nat, thereafter: nat): (k: nat) {
    if ws == [] then 0 else Quota(|ws[0]|, first, thereafter) + TotalQuota(ws[1..], first, thereafter)
  }

  lemma {:induction false} AdmittedConcat(a: seq<nat>, b: seq<nat>, first: nat, thereafter: nat)
    ensures Admitted(a + b, first, thereafter) == Admitted(a, first, thereafter) + Admitted(b, first, thereafter)
  {
    hide Admits;
    if a == [] {
      assert a + b == b;
    } else {
      AdmittedConcat(a[1..], b, first, thereafter);
      assert (a + b)[1..] == a[1..] + b;
    }
  }

  lemma {:induction false} AdmittedByWindow(ws: seq<seq<int>>, first: nat, thereafter: nat)
    ensures Admitted(Flatten(Numbered(ws)), first, thereafter) == TotalQuota(ws, first, thereafter)
  {
    if ws != [] {
      hide Admitted, Quota;
      AdmittedByWindow(ws[1..], first, thereafter);
      AdmittedUpFrom(0, |ws[0]|, first, thereafter);
      AdmittedConcat(UpFrom(1, |ws[0]|), Flatten(Numbered(ws[1..])), first, thereafter);
      assert Numbered(ws)[1..] == Numbered(ws[1..]);
      assert Quota(0, first, thereafter) == 0 by { EmptyQuota(first, thereafter); }
    }
  }

  lemma EmptyQuota(first: nat, thereafter: nat)
    ensures Quota(0, first, thereafter) == 0
  {
  }

  // ---- Buckets ----

  /** A log entry as the sampler sees it; `enabled` is what the wrapped core says of its level. */
  datatype Record = Record(level: int, message: Bytes, time: int, enabled: bool)

  datatype Decision = Disabled | PassedThrough | Sampled | Dropped

  predicate Counted(e: Record) {
    e.enabled && MIN_LEVEL <= e.level <= MAX_LEVEL
  }

  /** The entry uses the counter of level row `i` and column `j`. */
  predicate InBucket(e: Record, i: int, j: int) {
    Counted(e) && e.level - MIN_LEVEL == i && Slot(e.message) == j
  }

  /** Times of the entries that use one counter, in order. */
  function TimesOf(es: seq<Record>, i: int, j: int): (ts: seq<int>) {
    if es == [] then []
    else
      var n := |es| - 1;
      TimesOf(es[..n], i, j) + (if InBucket(es[n], i, j) then [es[n].time] else [])
  }

  datatype Settings = Settings(tick: int, first: nat, thereafter: nat)

  const ZERO_CELL := Cell(0, 0)

  /** What should happen to the last entry of a run: a matter of its own bucket's times alone. */
  function DecisionFor(cfg: Settings, es: seq<Record>): (d: Decision)
    requires es != []
  {
    var e := es[|es| - 1];
    if !e.enabled then Disabled
    else if !Counted(e) then PassedThrough
    else
      var n := After(ZERO_CELL, TimesOf(es, e.level - MIN_LEVEL, Slot(e.message)), cfg.tick).counter;
      if Admits(n, cfg.first, cfg.thereafter) then Sampled else Dropped
  }

  class SamplerCore {
    const cfg: Settings
    const cells: array2<Cell>
    var hooks: seq<Decision>  // decisions reported to the sampling hook

    ghost predicate Valid() {
      cells.Length0 == NUM_LEVELS && cells.Length1 == COUNTERS_PER_LEVEL
    }

    constructor (cfg: Settings)
      ensures Valid() && fresh(cells) && this.cfg == cfg && hooks == []
      ensures Tracks([])
    {
      this.cfg := cfg;
      cells := new Cell[NUM_LEVELS, COUNTERS_PER_LEVEL]((i, j) => ZERO_CELL);
      hooks := [];
    }

    method Check(e: Record) returns (d: Decision)
      requires Valid()
      modifies cells, this`hooks
      ensures hooks == old(hooks) + (if Counted(e) then [d] else [])
      ensures !Counted(e) ==> d == (if e.enabled then PassedThrough else Disabled)
      ensures forall i, j :: 0 <= i < NUM_LEVELS && 0 <= j < COUNTERS_PER_LEVEL ==>
                cells[i, j] == if InBucket(e, i, j) then Inc(old(cells[i, j]), e.time, cfg.tick) else old(cells[i, j])
      ensures Counted(e) ==>
                d == if Admits(cells[e.level - MIN_LEVEL, Slot(e.message)].counter, cfg.first, cfg.thereafter)
                     then Sampled else Dropped
    {
      hide Fnv;
      if !e.enabled {
        return Disabled;
      }
      if MIN_LEVEL <= e.level <= MAX_LEVEL {
        var hash := Fnv32a(e.message);
        var i, j := e.level - MIN_LEVEL, SlotOf(hash);
        var n := IncCheckReset(i, j, e.time);
        if n > cfg.first && (cfg.thereafter == 0 || (n - cfg.first) % cfg.thereafter != 0) {
          hooks := hooks + [Dropped];
          return Dropped;
        }
        hooks := hooks + [Sampled];
        return Sampled;
      }
      return PassedThrough;
    }

    method IncCheckReset(i: nat, j: nat, tn: int) returns (n: nat)
      requires Valid() && i < NUM_LEVELS && j < COUNTERS_PER_LEVEL
      modifies cells
      ensures n == cells[i, j].counter
      ensures forall k, l :: 0 <= k < NUM_LEVELS && 0 <= l < COUNTERS_PER_LEVEL ==>
                cells[k, l] == if k == i && l == j then Inc(old(cells[i, j]), tn, cfg.tick) else old(cells[k, l])
    {
      var resetAfter := cells[i, j].resetAt;
      if resetAfter > tn {
        cells[i, j] := Cell(resetAfter, cells[i, j].counter + 1);
        return cells[i, j].counter;
      }
      cells[i, j] := Cell(resetAfter, 1);
      var newResetAfter := tn + cfg.tick;
      cells[i, j] := Cell(newResetAfter, cells[i, j].counter);
      return 1;
    }

    /** Every counter stands where its own bucket's entries have put it. */
    ghost predicate Tracks(es: seq<Record>)
      requires Valid()
      reads cells
    {
      forall i, j :: 0 <= i < NUM_LEVELS && 0 <= j < COUNTERS_PER_LEVEL ==>
        cells[i, j] == After(ZERO_CELL, TimesOf(es, i, j), cfg.tick)
    }

    method CheckNext(ghost es: seq<Record>, e: Record) returns (d: Decision)
      requires Valid() && Tracks(es)
      modifies cells, this`hooks
      ensures Tracks(es + [e])
      ensures d == DecisionFor(cfg, es + [e])
      ensures hooks == old(hooks) + (if Counted(e) then [d] else [])
    {
      hide Slot, Inc, Admits, After, TimesOf;
      d := Check(e);
      forall i, j | 0 <= i < NUM_LEVELS && 0 <= j < COUNTERS_PER_LEVEL
        ensures cells[i, j] == After(ZERO_CELL, TimesOf(es + [e], i, j), cfg.tick)
      {
        NextTime(es, e, i, j, cfg.tick);
      }
    }

    /** A run of entries: every decision depends only on the times in its own bucket. */
    method CheckAll(es: seq<Record>) returns (ds: seq<Decision>)
      requires Valid() && hooks == [] && Tracks([])
      modifies cells, this`hooks
      ensures |ds| == |es| && Tracks(es)
      ensures forall k :: 0 <= k < |es| ==> ds[k] == DecisionFor(cfg, es[..k + 1])
      ensures hooks == Reported(es, ds)
    {
      hide DecisionFor, Tracks;
      ds := [];
      assert es[..0] == [];
      for n := 0 to |es|
        invariant |ds| == n && Tracks(es[..n])
        invariant forall k :: 0 <= k < n ==> ds[k] == DecisionFor(cfg, es[..k + 1])
        invariant hooks == Reported(es[..n], ds)
      {
        assert es[..n + 1] == es[..n] + [es[n]];
        assert es[..n + 1][..n] == es[..n];
        var d := CheckNext(es[..n], es[n]);
        ds := ds + [d];
        assert ds[..n] + [d] == ds;
      }
      assert es[..|es|] == es;
    }
  }

  lemma NextTime(es: seq<Record>, e: Record, i: int, j: int, tick: int)
    ensures var before := After(ZERO_CELL, TimesOf(es, i, j), tick);
            After(ZERO_CELL, TimesOf(es + [e], i, j), tick) ==
            if InBucket(e, i, j) then Inc(before, e.time, tick) else before
  {
    hide Inc, InBucket;
    var times := TimesOf(es, i, j);
    assert (es + [e])[..|es|] == es;
    assert (times + [e.time])[..|times|] == times;
    assert times + [] == times;
  }

  /** The decisions that reach the hook. */
  function Reported(es: seq<Record>, ds: seq<Decision>): (r: seq<Decision>)
    requires |es| == |ds|
  {
    if es == [] then []
    else
      var n := |es| - 1;
      Reported(es[..n], ds[..n]) + (if Counted(es[n]) then [ds[n]] else [])
  }

  // ---- What every run amounts to ----

  /** Entries of one bucket let through by a run. */
  function SampledIn(cfg: Settings, es: seq<Record>, i: int, j: int): (k: nat) {
    if es == [] then 0
    else
      SampledIn(cfg, es[..|es| - 1], i, j)
      + (if InBucket(es[|es| - 1], i, j) && DecisionFor(cfg, es).Sampled? then 1 else 0)
  }

  lemma {:induction false} CountsPush(c: Cell, times: seq<int>, t: int, tick: int)
    ensures Counts(c, times + [t], tick) == Counts(c, times, tick) + [After(c, times + [t], tick).counter]
    ensures After(c, times + [t], tick) == Inc(After(c, times, tick), t, tick)
    decreases |times|
  {
    hide Inc;
    assert (times + [t])[..|times|] == times;
    if times == [] {
      assert (times + [t])[1..] == [];
    } else {
      CountsPush(Inc(c, times[0], tick), times[1..], t, tick);
      assert (times + [t])[1..] == times[1..] + [t];
      AfterTail(c, times + [t], tick);
    }
  }

  lemma {:induction false} AfterTail(c: Cell, times: seq<int>, tick: int)
    requires times != []
    ensures After(c, times, tick) == After(Inc(c, times[0], tick), times[1..], tick)
    decreases |times|
  {
    hide Inc;
    var n := |times| - 1;
    if n == 0 {
      assert times[..0] == [] && times[1..] == [];
    } else {
      AfterTail(c, times[..n], tick);
      assert times[..n][1..] == times[1..][..n - 1];
    }
  }

  lemma {:induction false} SampledAreAdmitted(cfg: Settings, es: seq<Record>, i: int, j: int)
    ensures SampledIn(cfg, es, i, j) ==
            Admitted(Counts(ZERO_CELL, TimesOf(es, i, j), cfg.tick), cfg.first, cfg.thereafter)
    decreases |es|
  {
    if es != [] {
      hide Admits, Slot, After, Counts, Inc;
      var n := |es| - 1;
      var times := TimesOf(es[..n], i, j);
      SampledAreAdmitted(cfg, es[..n], i, j);
      assert times + [] == times;
      if InBucket(es[n], i, j) {
        CountsPush(ZERO_CELL, times, es[n].time, cfg.tick);
        var last := After(ZERO_CELL, times + [es[n].time], cfg.tick).counter;
        AdmittedConcat(Counts(ZERO_CELL, times, cfg.tick), [last], cfg.first, cfg.thereafter);
        assert [last][1..] == [];
      }
    }
  }

  /**
   In every run each bucket lets through exactly the quota of each of its windows: the
   first `first` entries of a window and then every `thereafter`-th.
   */
  lemma BucketQuota(cfg: Settings, es: seq<Record>, i: int, j: int)
    requires forall e :: e in es ==> e.time >= 0
    ensures SampledIn(cfg, es, i, j) ==
            TotalQuota(Windows(TimesOf(es, i, j), cfg.tick), cfg.first, cfg.thereafter)
  {
    hide SampledIn, Admitted, TotalQuota, Windows, Counts;
    var times := TimesOf(es, i, j);
    TimesAreFromEntries(es, i, j);
    assert times != [] ==> times[0] in times;
    SampledAreAdmitted(cfg, es, i, j);
    CountsByWindow(ZERO_CELL, times, cfg.tick);
    AdmittedByWindow(Windows(times, cfg.tick), cfg.first, cfg.thereafter);
  }

  lemma {:induction false} TimesAreFromEntries(es: seq<Record>, i: int, j: int)
    requires forall e :: e in es ==> e.time >= 0
    ensures forall t :: t in TimesOf(es, i, j) ==> t >= 0
    decreases |es|
  {
    if es != [] {
      TimesAreFromEntries(es[..|es| - 1], i, j);
    }
  }

  function CountOf(ds: seq<Decision>, d: Decision): (k: nat) {
    if ds == [] then 0 else CountOf(ds[..|ds| - 1], d) + (if ds[|ds| - 1] == d then 1 else 0)
  }

  function CountedIn(es: seq<Record>): (k: nat) {
    if es == [] then 0 else CountedIn(es[..|es| - 1]) + (if Counted(es[|es| - 1]) then 1 else 0)
  }

  lemma CountPush(ds: seq<Decision>, x: Decision, d: Decision)
    ensures CountOf(ds + [x], d) == CountOf(ds, d) + (if x == d then 1 else 0)
  {
    assert (ds + [x])[..|ds|] == ds;
  }

  lemma CountedIsSampledOrDropped(cfg: Settings, es: seq<Record>)
    requires es != [] && Counted(es[|es| - 1])
    ensures DecisionFor(cfg, es).Sampled? || DecisionFor(cfg, es).Dropped?
  {
    hide Slot, After, TimesOf, Admits;
  }

  /** The hook hears of every enabled entry in range exactly once, as sampled or as dropped. */
  lemma {:induction false} HookConservation(cfg: Settings, es: seq<Record>, ds: seq<Decision>)
    requires |ds| == |es| && forall k :: 0 <= k < |es| ==> ds[k] == DecisionFor(cfg, es[..k + 1])
    ensures var r := Reported(es, ds); CountOf(r, Sampled) + CountOf(r, Dropped) == CountedIn(es)
    decreases |es|
  {
    if es != [] {
      hide DecisionFor, CountOf;
      var n := |es| - 1;
      forall k | 0 <= k < n ensures ds[..n][k] == DecisionFor(cfg, es[..n][..k + 1]) {
        assert es[..n][..k + 1] == es[..k + 1];
      }
      HookConservation(cfg, es[..n], ds[..n]);
      assert es[..n + 1] == es;
      var r := Reported(es[..n], ds[..n]);
      assert r + [] == r;
      if Counted(es[n]) {
        CountedIsSampledOrDropped(cfg, es);
        CountPush(r, ds[n], Sampled);
        CountPush(r, ds[n], Dropped);
      }
    } else {
      assert Reported(es, ds) == [];
    }
  }

  // ---- Entries that have nothing to do with each other ----

  /** Equally long, and different in exactly one byte. */
  ghost predicate Neighbours(a: Bytes, b: Bytes) {
    && |a| == |b|
    && exists k :: DifferAt(a, b, k)
  }

  predicate DifferAt(a: Bytes, b: Bytes, k: int) {
    0 <= k < |a| && |a| == |b| && a[..k] == b[..k] && a[k] != b[k] && a[k + 1..] == b[k + 1..]
  }

  lemma NeighboursApart(a: Bytes, b: Bytes)
    requires Neighbours(a, b)
    ensures Slot(a) != Slot(b)
  {
    hide Slot;
    var k :| DifferAt(a, b, k);
    OneByteApart(a[..k], a[k], b[k], a[k + 1..]);
    assert a == a[..k] + [a[k]] + a[k + 1..] && b == b[..k] + [b[k]] + b[k + 1..];
  }

  /** An entry of another level, or whose message differs in one byte. */
  ghost predicate Unrelated(e: Record, f: Record) {
    e.level != f.level || Neighbours(e.message, f.message)
  }

  /** `fewer` is `es` without some entries unrelated to `e`. */
  ghost predicate Without(es: seq<Record>, fewer: seq<Record>, e: Record)
    decreases |es|
  {
    if es == [] then fewer == []
    else
      var n := |es| - 1;
      || (Unrelated(es[n], e) && Without(es[..n], fewer, e))
      || (fewer != [] && fewer[|fewer| - 1] == es[n] && Without(es[..n], fewer[..|fewer| - 1], e))
  }

  lemma {:induction false} UnrelatedTimes(es: seq<Record>, fewer: seq<Record>, e: Record)
    requires Without(es, fewer, e)
    ensures TimesOf(es, e.level - MIN_LEVEL, Slot(e.message)) == TimesOf(fewer, e.level - MIN_LEVEL, Slot(e.message))
    decreases |es|
  {
    hide Slot;
    if es != [] {
      var n := |es| - 1;
      if Unrelated(es[n], e) && Without(es[..n], fewer, e) {
        UnrelatedTimes(es[..n], fewer, e);
        if es[n].level == e.level {
          NeighboursApart(es[n].message, e.message);
        }
      } else {
        UnrelatedTimes(es[..n], fewer[..|fewer| - 1], e);
      }
    }
  }

  /**
   What happens to an entry does not depend on entries of other levels, nor on entries whose
   messages differ from its own in one byte: leaving any of them out of the run changes nothing.
   */
  lemma UnrelatedDoNotMatter(cfg: Settings, es: seq<Record>, fewer: seq<Record>, e: Record)
    requires Without(es, fewer, e)
    ensures DecisionFor(cfg, es + [e]) == DecisionFor(cfg, fewer + [e])
  {
    hide Slot, After, Admits;
    var (row, slot) := (e.level - MIN_LEVEL, Slot(e.message));
    UnrelatedTimes(es, fewer, e);
    assert (es + [e])[..|es|] == es && (fewer + [e])[..|fewer|] == fewer;
    assert TimesOf(es + [e], row, slot) == TimesOf(es, row, slot) + (if InBucket(e, row, slot) then [e.time] else []);
    assert TimesOf(fewer + [e], row, slot)
        == TimesOf(fewer, row, slot) + (if InBucket(e, row, slot) then [e.time] else []);
  }
}
