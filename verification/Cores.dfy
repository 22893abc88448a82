/**
 Core trees: io, nop, tee, hooked, level filter, sampler and lazy cores, and what Enabled,
 With, Check, Write and Sync do on every such tree.
 */
module Cores {
  import opened Utf8
  import opened EncoderOps
  import Hash
  import Sampler

  const INFO_LEVEL := 0
  const ERROR_LEVEL := 2

  datatype Entry = Entry(level: int, message: Bytes, time: int)

  /** A fixed rule for levels, or a level that can be changed while in use (`AtomicLevel`). */
  datatype Enabler = Rule(f: int -> bool) | Atomic(id: nat)

  /**
   A core. An io core's encoder is the list of fields given to it so far; a sampler's counters
   and a lazy core's once-flag live in the world, under `id` and `cell`.
   */
  datatype Core =
    | Nop
    | Io(sink: nat, enab: Enabler, context: seq<Field>)
    | Tee(cores: seq<Core>)
    | Hooked(core: Core, hooks: nat)
    | Filter(core: Core, enab: Enabler)
    | Sampling(core: Core, id: nat, cfg: Sampler.Settings)
    | Lazy(cell: nat, original: Core, fields: seq<Field>)

  datatype Event =
    | Wrote(sink: nat, ent: Entry, fields: seq<Field>)
    | WriteFailed(sink: nat, ent: Entry)
    | RanHooks(hooks: nat, ent: Entry)
    | Synced(sink: nat)

  /** Counter of sampler `id` for a level row and a message slot. */
  datatype CounterKey = CounterKey(id: nat, row: int, slot: nat)

  datatype World = World(
    levels: map<nat, int>,   // atomic levels, info level until set
    counters: map<CounterKey, Sampler.Cell>,
    inited: set<nat>,        // lazy cores whose `initOnce` has run
    broken: set<nat>,        // sinks that fail, or whose encoder does
    hookErrors: set<nat>,    // hooks that return an error
    log: seq<Event>)

  /** A CheckedEntry: the entry and the cores that have agreed to write it. */
  datatype Checked = Checked(ent: Entry, cores: seq<Core>)

  predicate Allows(w: World, en: Enabler, level: int) {
    match en
    case Rule(f) => f(level)
    case Atomic(id) => level >= (if id in w.levels then w.levels[id] else INFO_LEVEL)
  }

  predicate Enabled(w: World, c: Core, level: int)
    decreases c
  {
    match c
    case Nop => false
    case Io(_, en, _) => Allows(w, en, level)
    case Tee(cores) => AnyEnabled(w, cores, level)
    case Hooked(core, _) => Enabled(w, core, level)
    case Filter(_, en) => Allows(w, en, level)
    case Sampling(core, _, _) => Enabled(w, core, level)
    case Lazy(_, original, _) => Enabled(w, original, level)
  }

  predicate AnyEnabled(w: World, cores: seq<Core>, level: int)
    decreases cores
  {
    cores != [] && (Enabled(w, cores[0], level) || AnyEnabled(w, cores[1..], level))
  }

  // ---- With ----

  function Weight(c: Core): (n: nat)
    decreases c
  {
    match c
    case Nop => 1
    case Io(_, _, _) => 1
    case Tee(cores) => 1 + TotalWeight(cores)
    case Hooked(core, _) => 1 + Weight(core)
    case Filter(core, _) => 1 + Weight(core)
    case Sampling(core, _, _) => 1 + Weight(core)
    case Lazy(_, original, _) => 1 + Weight(original)
  }

  function TotalWeight(cores: seq<Core>): (n: nat)
    decreases cores
  {
    if cores == [] then 0 else 1 + Weight(cores[0]) + TotalWeight(cores[1..])
  }

  predicate NoLazy(c: Core)
    decreases c
  {
    match c
    case Tee(cores) => NoneLazy(cores)
    case Hooked(core, _) => NoLazy(core)
    case Filter(core, _) => NoLazy(core)
    case Sampling(core, _, _) => NoLazy(core)
    case Lazy(_, _, _) => false
    case _ => true
  }

  predicate NoneLazy(cores: seq<Core>)
    decreases cores
  {
    cores != [] ==> NoLazy(cores[0]) && NoneLazy(cores[1..])
  }

  /** The core `With` returns: a lazy core hands over to the core it makes of its original. */
  function Applied(c: Core, fs: seq<Field>): (r: Core)
    ensures NoLazy(r) && Weight(r) <= Weight(c)
    decreases Weight(c)
  {
    match c
    case Nop => Nop
    case Io(sink, en, context) => Io(sink, en, context + fs)
    case Tee(cores) => Tee(AppliedAll(cores, fs))
    case Hooked(core, hooks) => Hooked(Applied(core, fs), hooks)
    case Filter(core, en) => Filter(Applied(core, fs), en)
    case Sampling(core, id, cfg) => Sampling(Applied(core, fs), id, cfg)
    case Lazy(_, original, fields) => Applied(Applied(original, fields), fs)
  }

  function AppliedAll(cores: seq<Core>, fs: seq<Field>): (r: seq<Core>)
    ensures NoneLazy(r) && TotalWeight(r) <= TotalWeight(cores)
    decreases TotalWeight(cores)
  {
    if cores == [] then [] else [Applied(cores[0], fs)] + AppliedAll(cores[1..], fs)
  }

  /** The lazy cores that `With` initializes on its way: those not yet initialized, and what their originals hold. */
  function WithInits(w: World, c: Core): (r: World)
    decreases c, 0
  {
    match c
    case Nop => w
    case Io(_, _, _) => w
    case Tee(cores) => WithInitsAll(w, cores)
    case Hooked(core, _) => WithInits(w, core)
    case Filter(core, _) => WithInits(w, core)
    case Sampling(core, _, _) => WithInits(w, core)
    case Lazy(cell, original, _) => InitOnce(w, cell, original)
  }

  function WithInitsAll(w: World, cores: seq<Core>): (r: World)
    decreases cores, 0
  {
    if cores == [] then w else WithInitsAll(WithInits(w, cores[0]), cores[1..])
  }

  /** `initOnce`: `With` on the original, the first time only. */
  function InitOnce(w: World, cell: nat, original: Core): (r: World)
    decreases original, 1
  {
    if cell in w.inited then w
    else
      var w' := WithInits(w, original);
      w'.(inited := w'.inited + {cell})
  }

  // ---- Check ----

  function AddCore(ce: Option<Checked>, ent: Entry, c: Core): (r: Option<Checked>)
    ensures r.Some?
  {
    if ce.None? then Some(Checked(ent, [c])) else Some(ce.value.(cores := ce.value.cores + [c]))
  }

  function CellAt(w: World, key: CounterKey): (cell: Sampler.Cell) {
    if key in w.counters then w.counters[key] else Sampler.ZERO_CELL
  }

  /** `IncCheckReset` on the entry's counter, and whether the entry is let through. */
  function Sample(w: World, id: nat, cfg: Sampler.Settings, ent: Entry): (r: (World, bool)) {
    if Sampler.MIN_LEVEL <= ent.level <= Sampler.MAX_LEVEL then
      var key := CounterKey(id, ent.level - Sampler.MIN_LEVEL, Hash.Slot(ent.message));
      var cell := Sampler.Inc(CellAt(w, key), ent.time, cfg.tick);
      (w.(counters := w.counters[key := cell]), Sampler.Admits(cell.counter, cfg.first, cfg.thereafter))
    else (w, true)
  }

  function Check(w: World, c: Core, ent: Entry, ce: Option<Checked>): (r: (World, Option<Checked>))
    decreases Weight(c)
  {
    match c
    case Nop => (w, ce)
    case Io(_, en, _) => (w, if Allows(w, en, ent.level) then AddCore(ce, ent, c) else ce)
    case Tee(cores) => CheckAll(w, cores, ent, ce)
    case Hooked(core, _) =>
      var (w', down) := Check(w, core, ent, ce);
      (w', if down.Some? then AddCore(down, ent, c) else ce)
    case Filter(core, en) => if Allows(w, en, ent.level) then Check(w, core, ent, ce) else (w, ce)
    case Sampling(core, id, cfg) =>
      if !Enabled(w, core, ent.level) then (w, ce)
      else
        var (w', admitted) := Sample(w, id, cfg, ent);
        if admitted then Check(w', core, ent, ce) else (w', ce)
    case Lazy(cell, original, fields) =>
      if !Enabled(w, original, ent.level) then (w, ce)
      else Check(InitOnce(w, cell, original), Applied(original, fields), ent, ce)
  }

  function CheckAll(w: World, cores: seq<Core>, ent: Entry, ce: Option<Checked>): (r: (World, Option<Checked>))
    decreases TotalWeight(cores)
  {
    if cores == [] then (w, ce)
    else
      var (w', ce') := Check(w, cores[0], ent, ce);
      CheckAll(w', cores[1..], ent, ce')
  }

  // ---- Write and Sync ----

  /** Where a Write can end up: in a sink, behind the fields given so far, or in hooks. */
  datatype Target = ToSink(sink: nat, context: seq<Field>) | ToHooks(hooks: nat)

  /**
   What a write of an entry does at a target. A sink that fails is not synced; one that does not
   fail is, if the entry may be the last thing the program does.
   */
  function EffectAt(t: Target, ent: Entry, fs: seq<Field>, broken: set<nat>): (r: seq<Event>) {
    if t.ToHooks? then [RanHooks(t.hooks, ent)]
    else if t.sink in broken then [WriteFailed(t.sink, ent)]
    else [Wrote(t.sink, ent, t.context + fs)] + if ent.level > ERROR_LEVEL then [Synced(t.sink)] else []
  }

  function Write(w: World, c: Core, ent: Entry, fs: seq<Field>): (r: World)
    decreases Weight(c)
  {
    match c
    case Nop => w
    case Io(sink, _, context) => w.(log := w.log + EffectAt(ToSink(sink, context), ent, fs, w.broken))
    case Tee(cores) => WriteAll(w, cores, ent, fs)
    case Hooked(_, hooks) => w.(log := w.log + [RanHooks(hooks, ent)])
    case Filter(core, _) => Write(w, core, ent, fs)
    case Sampling(core, _, _) => Write(w, core, ent, fs)
    case Lazy(cell, original, fields) =>
      Write(InitOnce(w, cell, original), Applied(original, fields), ent, fs)
  }

  function WriteAll(w: World, cores: seq<Core>, ent: Entry, fs: seq<Field>): (r: World)
    decreases TotalWeight(cores)
  {
    if cores == [] then w else WriteAll(Write(w, cores[0], ent, fs), cores[1..], ent, fs)
  }

  function Sync(w: World, c: Core): (r: World)
    decreases Weight(c)
  {
    match c
    case Nop => w
    case Io(sink, _, _) => w.(log := w.log + [Synced(sink)])
    case Tee(cores) => SyncAll(w, cores)
    case Hooked(core, _) => Sync(w, core)
    case Filter(core, _) => Sync(w, core)
    case Sampling(core, _, _) => Sync(w, core)
    case Lazy(cell, original, fields) => Sync(InitOnce(w, cell, original), Applied(original, fields))
  }

  function SyncAll(w: World, cores: seq<Core>): (r: World)
    decreases TotalWeight(cores)
  {
    if cores == [] then w else SyncAll(Sync(w, cores[0]), cores[1..])
  }

  /** `CheckedEntry.Write` on what Check returned, without pre-write hooks. */
  function WriteChecked(w: World, ce: Option<Checked>, fs: seq<Field>): (r: World) {
    if ce.None? then w else WriteAll(w, ce.value.cores, ce.value.ent, fs)
  }

  function LogEntry(w: World, c: Core, ent: Entry, fs: seq<Field>): (r: World) {
    var (w', ce) := Check(w, c, ent, None);
    WriteChecked(w', ce, fs)
  }

  /** Every write in the log is followed at once by a sync of the same sink. */
  predicate WritesSynced(log: seq<Event>) {
    forall i :: 0 <= i < |log| && log[i].Wrote? ==> i + 1 < |log| && log[i + 1] == Synced(log[i].sink)
  }

  /** The events added to a log. */
  ghost predicate Grows(before: World, after: World, ent: Entry)
  {
    && before.log <= after.log
    && (ent.level > ERROR_LEVEL ==> WritesSynced(after.log[|before.log|..]))
  }

  lemma GrowsOn(a: World, b: World, c: World, ent: Entry)
    requires Grows(a, b, ent) && Grows(b, c, ent)
    ensures Grows(a, c, ent)
  {
    var p, q := b.log[|a.log|..], c.log[|b.log|..];
    assert c.log[|a.log|..] == p + q;
    if ent.level > ERROR_LEVEL {
      assert forall i :: |p| <= i < |p + q| ==> (p + q)[i] == q[i - |p|];
    }
  }

  /**
   Entries above error level may be the last thing a program does: on every tree, whatever Write
   puts in a sink it also syncs, at once, and nothing already logged is touched.
   */
  lemma {:induction false} CrashWritesAreSynced(w: World, c: Core, ent: Entry, fs: seq<Field>)
    ensures Grows(w, Write(w, c, ent, fs), ent)
    decreases Weight(c)
  {
    match c {
      case Tee(cores) => CrashWritesAreSyncedAll(w, cores, ent, fs);
      case Filter(core, _) => CrashWritesAreSynced(w, core, ent, fs);
      case Sampling(core, _, _) => CrashWritesAreSynced(w, core, ent, fs);
      case Lazy(cell, original, fields) =>
        InitKeepsWorld(w, original);
        CrashWritesAreSynced(InitOnce(w, cell, original), Applied(original, fields), ent, fs);
      case _ =>
    }
  }

  lemma {:induction false} CrashWritesAreSyncedAll(w: World, cores: seq<Core>, ent: Entry, fs: seq<Field>)
    ensures Grows(w, WriteAll(w, cores, ent, fs), ent)
    decreases TotalWeight(cores)
  {
    if cores != [] {
      var w' := Write(w, cores[0], ent, fs);
      CrashWritesAreSynced(w, cores[0], ent, fs);
      CrashWritesAreSyncedAll(w', cores[1..], ent, fs);
      GrowsOn(w, w', WriteAll(w', cores[1..], ent, fs), ent);
    }
  }

  // ---- What a tree reaches ----

  function Extended(ts: seq<Target>, fs: seq<Field>): (r: seq<Target>) {
    seq(|ts|, i requires 0 <= i < |ts| => if ts[i].ToSink? then ts[i].(context := ts[i].context + fs) else ts[i])
  }

  /** The io cores of a tree, left to right, with everything given to them so far. */
  function Sinks(c: Core): (r: seq<Target>)
    decreases c
  {
    match c
    case Nop => []
    case Io(sink, _, context) => [ToSink(sink, context)]
    case Tee(cores) => AllSinks(cores)
    case Hooked(core, _) => Sinks(core)
    case Filter(core, _) => Sinks(core)
    case Sampling(core, _, _) => Sinks(core)
    case Lazy(_, original, fields) => Extended(Sinks(original), fields)
  }

  function AllSinks(cores: seq<Core>): (r: seq<Target>)
    decreases cores
  {
    if cores == [] then [] else Sinks(cores[0]) + AllSinks(cores[1..])
  }

  /** The same for Write, which goes no further than a hooked core. */
  function Targets(c: Core): (r: seq<Target>)
    decreases c
  {
    match c
    case Nop => []
    case Io(sink, _, context) => [ToSink(sink, context)]
    case Tee(cores) => AllTargets(cores)
    case Hooked(_, hooks) => [ToHooks(hooks)]
    case Filter(core, _) => Targets(core)
    case Sampling(core, _, _) => Targets(core)
    case Lazy(_, original, fields) => Extended(Targets(original), fields)
  }

  function AllTargets(cores: seq<Core>): (r: seq<Target>)
    decreases cores
  {
    if cores == [] then [] else Targets(cores[0]) + AllTargets(cores[1..])
  }

  lemma ExtendedConcat(a: seq<Target>, b: seq<Target>, fs: seq<Field>)
    ensures Extended(a + b, fs) == Extended(a, fs) + Extended(b, fs)
  {
  }

  /** With gives the fields to every io core of the tree, behind what it already has. */
  lemma {:induction false} WithReachesEverySink(c: Core, fs: seq<Field>)
    ensures Sinks(Applied(c, fs)) == Extended(Sinks(c), fs)
    ensures Targets(Applied(c, fs)) == Extended(Targets(c), fs)
    decreases Weight(c)
  {
    match c {
      case Tee(cores) => WithReachesAllSinks(cores, fs);
      case Hooked(core, _) => WithReachesEverySink(core, fs);
      case Filter(core, _) => WithReachesEverySink(core, fs);
      case Sampling(core, _, _) => WithReachesEverySink(core, fs);
      case Lazy(_, original, fields) =>
        WithReachesEverySink(original, fields);
        WithReachesEverySink(Applied(original, fields), fs);
      case _ =>
    }
  }

  lemma {:induction false} WithReachesAllSinks(cores: seq<Core>, fs: seq<Field>)
    ensures AllSinks(AppliedAll(cores, fs)) == Extended(AllSinks(cores), fs)
    ensures AllTargets(AppliedAll(cores, fs)) == Extended(AllTargets(cores), fs)
    decreases TotalWeight(cores)
  {
    hide Extended;
    if cores == [] {
      NothingExtended(fs);
    } else {
      WithReachesEverySink(cores[0], fs);
      WithReachesAllSinks(cores[1..], fs);
      assert AppliedAll(cores, fs)[1..] == AppliedAll(cores[1..], fs);
      ExtendedConcat(Sinks(cores[0]), AllSinks(cores[1..]), fs);
      ExtendedConcat(Targets(cores[0]), AllTargets(cores[1..]), fs);
    }
  }

  lemma NothingExtended(fs: seq<Field>)
    ensures Extended([], fs) == []
  {
  }

  function Effects(ts: seq<Target>, ent: Entry, fs: seq<Field>, broken: set<nat>): (r: seq<Event>) {
    if ts == [] then [] else EffectAt(ts[0], ent, fs, broken) + Effects(ts[1..], ent, fs, broken)
  }

  lemma {:induction false} EffectsConcat(a: seq<Target>, b: seq<Target>, ent: Entry, fs: seq<Field>, broken: set<nat>)
    ensures Effects(a + b, ent, fs, broken) == Effects(a, ent, fs, broken) + Effects(b, ent, fs, broken)
    decreases a
  {
    hide EffectAt;
    if a == [] {
      assert a + b == b;
    } else {
      assert (a + b)[1..] == a[1..] + b;
      EffectsConcat(a[1..], b, ent, fs, broken);
      var head, tail := EffectAt(a[0], ent, fs, broken), Effects(a[1..], ent, fs, broken);
      assert head + (tail + Effects(b, ent, fs, broken)) == head + tail + Effects(b, ent, fs, broken);
    }
  }

  /** Nothing has changed but the log, which has these events more, and once-flags. */
  ghost predicate Emitted(before: World, after: World, events: seq<Event>) {
    after == before.(log := before.log + events, inited := after.inited)
  }

  /** Write reaches every target of the tree once, in order, failing sinks or not, and changes nothing else. */
  lemma {:induction false} WriteReachesEveryTarget(w: World, c: Core, ent: Entry, fs: seq<Field>)
    ensures Emitted(w, Write(w, c, ent, fs), Effects(Targets(c), ent, fs, w.broken))
    decreases Weight(c)
  {
    hide EffectAt;
    match c {
      case Nop => assert w.log + [] == w.log;
      case Io(sink, _, context) => OneEffect(ToSink(sink, context), ent, fs, w.broken);
      case Tee(cores) => WriteReachesAllTargets(w, cores, ent, fs);
      case Hooked(_, hooks) =>
        OneEffect(ToHooks(hooks), ent, fs, w.broken);
        HookEffect(hooks, ent, fs, w.broken);
      case Filter(core, _) => WriteReachesEveryTarget(w, core, ent, fs);
      case Sampling(core, _, _) => WriteReachesEveryTarget(w, core, ent, fs);
      case Lazy(cell, original, fields) =>
        InitKeepsWorld(w, original);
        WithReachesEverySink(original, fields);
        WriteReachesEveryTarget(InitOnce(w, cell, original), Applied(original, fields), ent, fs);
    }
  }

  lemma OneEffect(t: Target, ent: Entry, fs: seq<Field>, broken: set<nat>)
    ensures Effects([t], ent, fs, broken) == EffectAt(t, ent, fs, broken)
  {
    hide EffectAt;
    assert EffectAt(t, ent, fs, broken) + [] == EffectAt(t, ent, fs, broken);
  }

  lemma HookEffect(hooks: nat, ent: Entry, fs: seq<Field>, broken: set<nat>)
    ensures EffectAt(ToHooks(hooks), ent, fs, broken) == [RanHooks(hooks, ent)]
  {
  }

  lemma {:induction false} WriteReachesAllTargets(w: World, cores: seq<Core>, ent: Entry, fs: seq<Field>)
    ensures Emitted(w, WriteAll(w, cores, ent, fs), Effects(AllTargets(cores), ent, fs, w.broken))
    decreases TotalWeight(cores)
  {
    hide Effects, Targets, Write;
    NoEffects(ent, fs, w.broken);
    if cores == [] {
      assert w.log + [] == w.log;
    } else {
      var w' := Write(w, cores[0], ent, fs);
      var first, rest := Targets(cores[0]), AllTargets(cores[1..]);
      WriteReachesEveryTarget(w, cores[0], ent, fs);
      WriteReachesAllTargets(w', cores[1..], ent, fs);
      EffectsConcat(first, rest, ent, fs, w.broken);
      assert w.log + Effects(first, ent, fs, w.broken) + Effects(rest, ent, fs, w.broken)
          == w.log + (Effects(first, ent, fs, w.broken) + Effects(rest, ent, fs, w.broken));
    }
  }

  lemma NoEffects(ent: Entry, fs: seq<Field>, broken: set<nat>)
    ensures Effects([], ent, fs, broken) == []
  {
  }

  /** What one target receives: the entry itself, and its own fields before those of the call. */
  lemma TargetReceives(t: Target, ent: Entry, fs: seq<Field>, broken: set<nat>)
    ensures t.ToHooks? ==> Effects([t], ent, fs, broken) == [RanHooks(t.hooks, ent)]
    ensures t.ToSink? && t.sink in broken ==> Effects([t], ent, fs, broken) == [WriteFailed(t.sink, ent)]
    ensures t.ToSink? && t.sink !in broken && ent.level <= ERROR_LEVEL ==>
      Effects([t], ent, fs, broken) == [Wrote(t.sink, ent, t.context + fs)]
    ensures t.ToSink? && t.sink !in broken && ent.level > ERROR_LEVEL ==>
      Effects([t], ent, fs, broken) == [Wrote(t.sink, ent, t.context + fs), Synced(t.sink)]
  {
    OneEffect(t, ent, fs, broken);
  }

  /** A log call writes exactly at the targets of the cores that joined the entry, in order. */
  lemma LogEntryWrites(w: World, c: Core, ent: Entry, fs: seq<Field>)
    ensures LogEntry(w, c, ent, fs).log
         == w.log + Effects(AllTargets(Joins(w, c, ent, false)), ent, fs, w.broken)
  {
    hide Check, Joins, WriteAll, Effects;
    var joins := Joins(w, c, ent, false);
    var w' := Check(w, c, ent, None).0;
    CheckAdds(w, c, ent, None);
    CheckKeepsLog(w, c, ent, None);
    if joins == [] {
      NoEffects(ent, fs, w.broken);
      assert w.log + [] == w.log;
    } else {
      WriteReachesAllTargets(w', joins, ent, fs);
    }
  }

  // ---- Leaves by path ----

  /** Following `path` down the tree leads to an io core with this sink and, lazy fields included, these fields. */
  ghost predicate LeafAt(c: Core, path: seq<nat>, t: Target)
    requires t.ToSink?
    decreases path
  {
    if path == [] then c.Io? && c.sink == t.sink && c.context == t.context
    else
      match c
      case Tee(cores) => path[0] < |cores| && LeafAt(cores[path[0]], path[1..], t)
      case Hooked(core, _) => LeafAt(core, path[1..], t)
      case Filter(core, _) => LeafAt(core, path[1..], t)
      case Sampling(core, _, _) => LeafAt(core, path[1..], t)
      case Lazy(_, original, fields) =>
        exists own :: LeafAt(original, path[1..], ToSink(t.sink, own)) && t.context == own + fields
      case _ => false
  }

  /** No hooked core on the way. */
  predicate Unhooked(c: Core, path: seq<nat>)
    decreases path
  {
    path != [] ==>
      match c
      case Tee(cores) => path[0] < |cores| && Unhooked(cores[path[0]], path[1..])
      case Hooked(_, _) => false
      case Filter(core, _) => Unhooked(core, path[1..])
      case Sampling(core, _, _) => Unhooked(core, path[1..])
      case Lazy(_, original, _) => Unhooked(original, path[1..])
      case _ => true
  }

  lemma {:induction false} ChildSinksAreSinks(cores: seq<Core>, k: nat, t: Target)
    requires k < |cores|
    ensures t in Sinks(cores[k]) ==> t in AllSinks(cores)
    ensures t in Targets(cores[k]) ==> t in AllTargets(cores)
    decreases k
  {
    hide Sinks, Targets;
    if k > 0 {
      ChildSinksAreSinks(cores[1..], k - 1, t);
    }
  }

  /** Every io core of the tree is among those that With, Write and Sync reach. */
  lemma {:induction false} LeavesAreReached(c: Core, path: seq<nat>, t: Target)
    requires t.ToSink? && LeafAt(c, path, t)
    ensures t in Sinks(c)
    ensures Unhooked(c, path) ==> t in Targets(c)
    decreases path
  {
    if path != [] {
      match c {
        case Tee(cores) =>
          LeavesAreReached(cores[path[0]], path[1..], t);
          ChildSinksAreSinks(cores, path[0], t);
        case Hooked(core, _) => LeavesAreReached(core, path[1..], t);
        case Filter(core, _) => LeavesAreReached(core, path[1..], t);
        case Sampling(core, _, _) => LeavesAreReached(core, path[1..], t);
        case Lazy(_, original, fields) =>
          var own :| LeafAt(original, path[1..], ToSink(t.sink, own)) && t.context == own + fields;
          LeavesAreReached(original, path[1..], ToSink(t.sink, own));
          ExtendedHas(Sinks(original), ToSink(t.sink, own), fields);
          ExtendedHas(Targets(original), ToSink(t.sink, own), fields);
        case _ =>
      }
    }
  }

  /** And nothing else is. */
  lemma {:induction false} ReachedAreLeaves(c: Core, t: Target) returns (path: seq<nat>)
    requires t in Sinks(c)
    ensures t.ToSink? && LeafAt(c, path, t)
    decreases Weight(c)
  {
    match c {
      case Io(_, _, _) => path := [];
      case Tee(cores) =>
        var k, rest := ReachedAreChildLeaves(cores, t);
        path := [k] + rest;
      case Hooked(core, _) =>
        path := ReachedAreLeaves(core, t);
        path := [0] + path;
      case Filter(core, _) =>
        path := ReachedAreLeaves(core, t);
        path := [0] + path;
      case Sampling(core, _, _) =>
        path := ReachedAreLeaves(core, t);
        path := [0] + path;
      case Lazy(_, original, fields) =>
        var i :| 0 <= i < |Extended(Sinks(original), fields)| && Extended(Sinks(original), fields)[i] == t;
        var own := Sinks(original)[i];
        path := ReachedAreLeaves(original, own);
        path := [0] + path;
    }
  }

  lemma {:induction false} ReachedAreChildLeaves(cores: seq<Core>, t: Target) returns (k: nat, path: seq<nat>)
    requires t in AllSinks(cores)
    ensures t.ToSink? && k < |cores| && LeafAt(cores[k], path, t)
    decreases TotalWeight(cores)
  {
    hide LeafAt, Sinks;
    if t in Sinks(cores[0]) {
      k := 0;
      path := ReachedAreLeaves(cores[0], t);
    } else {
      k, path := ReachedAreChildLeaves(cores[1..], t);
      k := k + 1;
    }
  }

  lemma ExtendedHas(ts: seq<Target>, t: Target, fs: seq<Field>)
    requires t.ToSink?
    ensures t in ts ==> ToSink(t.sink, t.context + fs) in Extended(ts, fs)
  {
    if t in ts {
      var i :| 0 <= i < |ts| && ts[i] == t;
      assert Extended(ts, fs)[i] == ToSink(t.sink, t.context + fs);
    }
  }

  // ---- The error that Write returns ----

  /** Whether Write returns an error: a tee collects its children's, hooks run to the end and give theirs. */
  predicate WriteError(w: World, c: Core)
    decreases Weight(c)
  {
    match c
    case Nop => false
    case Io(sink, _, _) => sink in w.broken
    case Tee(cores) => AnyWriteError(w, cores)
    case Hooked(_, hooks) => hooks in w.hookErrors
    case Filter(core, _) => WriteError(w, core)
    case Sampling(core, _, _) => WriteError(w, core)
    case Lazy(_, original, fields) => WriteError(w, Applied(original, fields))
  }

  predicate AnyWriteError(w: World, cores: seq<Core>)
    decreases TotalWeight(cores)
  {
    cores != [] && (WriteError(w, cores[0]) || AnyWriteError(w, cores[1..]))
  }

  predicate TargetFails(w: World, t: Target) {
    match t
    case ToSink(sink, _) => sink in w.broken
    case ToHooks(hooks) => hooks in w.hookErrors
  }

  predicate AnyTargetFails(w: World, ts: seq<Target>) {
    exists i :: 0 <= i < |ts| && TargetFails(w, ts[i])
  }

  /** Write returns an error exactly if some target it reaches fails. */
  lemma {:induction false} ErrorIsATargets(w: World, c: Core)
    ensures WriteError(w, c) <==> AnyTargetFails(w, Targets(c))
    decreases Weight(c)
  {
    match c {
      case Io(sink, _, context) => assert Targets(c)[0] == ToSink(sink, context);
      case Tee(cores) => AnyErrorIsATargets(w, cores);
      case Hooked(_, hooks) => assert Targets(c)[0] == ToHooks(hooks);
      case Filter(core, _) => ErrorIsATargets(w, core);
      case Sampling(core, _, _) => ErrorIsATargets(w, core);
      case Lazy(_, original, fields) =>
        ErrorIsATargets(w, Applied(original, fields));
        WithReachesEverySink(original, fields);
        FailuresOfExtended(w, Targets(original), fields);
      case _ =>
    }
  }

  lemma {:induction false} AnyErrorIsATargets(w: World, cores: seq<Core>)
    ensures AnyWriteError(w, cores) <==> AnyTargetFails(w, AllTargets(cores))
    decreases TotalWeight(cores)
  {
    hide TargetFails, Targets;
    if cores != [] {
      ErrorIsATargets(w, cores[0]);
      AnyErrorIsATargets(w, cores[1..]);
      FailuresConcat(w, Targets(cores[0]), AllTargets(cores[1..]));
    }
  }

  lemma FailuresConcat(w: World, a: seq<Target>, b: seq<Target>)
    ensures AnyTargetFails(w, a + b) <==> AnyTargetFails(w, a) || AnyTargetFails(w, b)
  {
    hide TargetFails;
    assert forall i :: 0 <= i < |a| ==> (a + b)[i] == a[i];
    assert forall i :: 0 <= i < |b| ==> (a + b)[|a| + i] == b[i];
    assert forall i :: |a| <= i < |a + b| ==> (a + b)[i] == b[i - |a|];
  }

  lemma FailuresOfExtended(w: World, ts: seq<Target>, fs: seq<Field>)
    ensures AnyTargetFails(w, Extended(ts, fs)) <==> AnyTargetFails(w, ts)
  {
    assert forall i :: 0 <= i < |ts| ==> TargetFails(w, Extended(ts, fs)[i]) == TargetFails(w, ts[i]);
  }

  /** The error depends on which sinks and hooks fail, and on nothing else. */
  lemma SameFailures(w1: World, w2: World, c: Core)
    requires w1.broken == w2.broken && w1.hookErrors == w2.hookErrors
    ensures WriteError(w1, c) == WriteError(w2, c)
  {
    hide WriteError;
    ErrorIsATargets(w1, c);
    ErrorIsATargets(w2, c);
    assert forall t :: TargetFails(w1, t) == TargetFails(w2, t);
  }

  /** The event is of a failed write, or of hooks that return an error. */
  predicate Failing(w: World, e: Event) {
    e.WriteFailed? || (e.RanHooks? && e.hooks in w.hookErrors)
  }

  predicate AnyFailing(w: World, es: seq<Event>) {
    exists i :: 0 <= i < |es| && Failing(w, es[i])
  }

  lemma FailingConcat(w: World, a: seq<Event>, b: seq<Event>)
    ensures AnyFailing(w, a + b) <==> AnyFailing(w, a) || AnyFailing(w, b)
  {
    hide Failing;
    assert forall i :: 0 <= i < |a| ==> (a + b)[i] == a[i];
    assert forall i :: 0 <= i < |b| ==> (a + b)[|a| + i] == b[i];
    assert forall i :: |a| <= i < |a + b| ==> (a + b)[i] == b[i - |a|];
  }

  lemma {:induction false} FailuresAreEvents(w: World, ts: seq<Target>, ent: Entry, fs: seq<Field>)
    ensures AnyTargetFails(w, ts) <==> AnyFailing(w, Effects(ts, ent, fs, w.broken))
    decreases ts
  {
    if ts != [] {
      hide TargetFails, EffectAt, Failing;
      assert ts == [ts[0]] + ts[1..];
      FailuresConcat(w, [ts[0]], ts[1..]);
      FailuresAreEvents(w, ts[1..], ent, fs);
      FailingConcat(w, EffectAt(ts[0], ent, fs, w.broken), Effects(ts[1..], ent, fs, w.broken));
      OneFailure(w, ts[0], ent, fs);
    }
  }

  lemma OneFailure(w: World, t: Target, ent: Entry, fs: seq<Field>)
    ensures AnyTargetFails(w, [t]) <==> AnyFailing(w, EffectAt(t, ent, fs, w.broken))
  {
    assert [t][0] == t;
    var es := EffectAt(t, ent, fs, w.broken);
    assert TargetFails(w, t) <==> Failing(w, es[0]);
  }

  /** An error is returned exactly if what Write has added to the log holds a failed write or a failing hook. */
  lemma ErrorIsLogged(w: World, c: Core, ent: Entry, fs: seq<Field>)
    ensures w.log <= Write(w, c, ent, fs).log
    ensures WriteError(w, c) <==> AnyFailing(w, Write(w, c, ent, fs).log[|w.log|..])
  {
    hide Write, WriteError, AnyFailing, AnyTargetFails, Effects, Targets;
    WriteReachesEveryTarget(w, c, ent, fs);
    ErrorIsATargets(w, c);
    FailuresAreEvents(w, Targets(c), ent, fs);
    var es := Effects(Targets(c), ent, fs, w.broken);
    assert (w.log + es)[|w.log|..] == es;
  }

  function SyncOf(t: Target): (r: seq<Event>) {
    if t.ToSink? then [Synced(t.sink)] else []
  }

  /** A sync for each of the given sinks. */
  function Syncs(ts: seq<Target>): (r: seq<Event>) {
    if ts == [] then [] else SyncOf(ts[0]) + Syncs(ts[1..])
  }

  lemma {:induction false} SyncsConcat(a: seq<Target>, b: seq<Target>)
    ensures Syncs(a + b) == Syncs(a) + Syncs(b)
    decreases a
  {
    hide SyncOf;
    if a == [] {
      assert a + b == b;
    } else {
      assert (a + b)[1..] == a[1..] + b;
      SyncsConcat(a[1..], b);
      assert SyncOf(a[0]) + (Syncs(a[1..]) + Syncs(b)) == SyncOf(a[0]) + Syncs(a[1..]) + Syncs(b);
    }
  }

  lemma {:induction false} SyncsOfExtended(ts: seq<Target>, fs: seq<Field>)
    ensures Syncs(Extended(ts, fs)) == Syncs(ts)
    decreases ts
  {
    if ts != [] {
      assert Extended(ts, fs)[1..] == Extended(ts[1..], fs);
      SyncsOfExtended(ts[1..], fs);
    }
  }

  /** Sync reaches every sink of the tree once, those under hooked cores included. */
  lemma {:induction false} SyncReachesEverySink(w: World, c: Core)
    ensures Sync(w, c).log == w.log + Syncs(Sinks(c))
    decreases Weight(c)
  {
    match c {
      case Tee(cores) => SyncReachesAllSinks(w, cores);
      case Hooked(core, _) => SyncReachesEverySink(w, core);
      case Filter(core, _) => SyncReachesEverySink(w, core);
      case Sampling(core, _, _) => SyncReachesEverySink(w, core);
      case Lazy(cell, original, fields) =>
        InitKeepsWorld(w, original);
        WithReachesEverySink(original, fields);
        SyncsOfExtended(Sinks(original), fields);
        SyncReachesEverySink(InitOnce(w, cell, original), Applied(original, fields));
      case _ =>
    }
  }

  lemma {:induction false} SyncReachesAllSinks(w: World, cores: seq<Core>)
    ensures SyncAll(w, cores).log == w.log + Syncs(AllSinks(cores))
    decreases TotalWeight(cores)
  {
    hide Sync, SyncOf, Sinks;
    if cores != [] {
      var w' := Sync(w, cores[0]);
      var first, rest := Sinks(cores[0]), AllSinks(cores[1..]);
      SyncReachesEverySink(w, cores[0]);
      SyncReachesAllSinks(w', cores[1..]);
      SyncsConcat(first, rest);
      assert w.log + (Syncs(first) + Syncs(rest)) == w.log + Syncs(first) + Syncs(rest);
    }
  }

  // ---- Levels ----

  /** Whether a level is enabled depends on the atomic levels alone. */
  lemma {:induction false} EnabledByLevels(w1: World, w2: World, c: Core, level: int)
    requires w1.levels == w2.levels
    ensures Enabled(w1, c, level) == Enabled(w2, c, level)
    decreases c
  {
    match c {
      case Tee(cores) => AnyEnabledByLevels(w1, w2, cores, level);
      case Hooked(core, _) => EnabledByLevels(w1, w2, core, level);
      case Sampling(core, _, _) => EnabledByLevels(w1, w2, core, level);
      case Lazy(_, original, _) => EnabledByLevels(w1, w2, original, level);
      case _ =>
    }
  }

  lemma {:induction false} AnyEnabledByLevels(w1: World, w2: World, cores: seq<Core>, level: int)
    requires w1.levels == w2.levels
    ensures AnyEnabled(w1, cores, level) == AnyEnabled(w2, cores, level)
    decreases cores
  {
    if cores != [] {
      EnabledByLevels(w1, w2, cores[0], level);
      AnyEnabledByLevels(w1, w2, cores[1..], level);
    }
  }

  /** `With` on any tree leaves every level as enabled or disabled as it was. */
  lemma {:induction false} WithKeepsEnabled(w: World, c: Core, fs: seq<Field>, level: int)
    ensures Enabled(w, Applied(c, fs), level) == Enabled(w, c, level)
    decreases Weight(c)
  {
    match c {
      case Tee(cores) => WithKeepsAnyEnabled(w, cores, fs, level);
      case Hooked(core, _) => WithKeepsEnabled(w, core, fs, level);
      case Sampling(core, _, _) => WithKeepsEnabled(w, core, fs, level);
      case Lazy(_, original, fields) =>
        WithKeepsEnabled(w, original, fields, level);
        WithKeepsEnabled(w, Applied(original, fields), fs, level);
      case _ =>
    }
  }

  lemma {:induction false} WithKeepsAnyEnabled(w: World, cores: seq<Core>, fs: seq<Field>, level: int)
    ensures AnyEnabled(w, AppliedAll(cores, fs), level) == AnyEnabled(w, cores, level)
    decreases TotalWeight(cores)
  {
    if cores != [] {
      WithKeepsEnabled(w, cores[0], fs, level);
      WithKeepsAnyEnabled(w, cores[1..], fs, level);
      assert AppliedAll(cores, fs)[1..] == AppliedAll(cores[1..], fs);
    }
  }

  /** Two Withs are one With of both lists, on every tree. */
  lemma {:induction false} WithTwice(c: Core, a: seq<Field>, b: seq<Field>)
    ensures Applied(Applied(c, a), b) == Applied(c, a + b)
    decreases Weight(c)
  {
    match c {
      case Io(_, _, context) => assert context + a + b == context + (a + b);
      case Tee(cores) => WithTwiceAll(cores, a, b);
      case Hooked(core, _) => WithTwice(core, a, b);
      case Filter(core, _) => WithTwice(core, a, b);
      case Sampling(core, _, _) => WithTwice(core, a, b);
      case Lazy(_, original, fields) => WithTwice(Applied(original, fields), a, b);
      case _ =>
    }
  }

  lemma {:induction false} WithTwiceAll(cores: seq<Core>, a: seq<Field>, b: seq<Field>)
    ensures AppliedAll(AppliedAll(cores, a), b) == AppliedAll(cores, a + b)
    decreases TotalWeight(cores)
  {
    if cores != [] {
      WithTwice(cores[0], a, b);
      WithTwiceAll(cores[1..], a, b);
      assert AppliedAll(cores, a)[1..] == AppliedAll(cores[1..], a);
    }
  }

  /** Initializing lazy cores changes their once-flags and nothing else. */
  lemma {:induction false} InitKeepsWorld(w: World, c: Core)
    ensures var r := WithInits(w, c); r == w.(inited := r.inited) && w.inited <= r.inited
    decreases c
  {
    match c {
      case Tee(cores) => InitAllKeepsWorld(w, cores);
      case Hooked(core, _) => InitKeepsWorld(w, core);
      case Filter(core, _) => InitKeepsWorld(w, core);
      case Sampling(core, _, _) => InitKeepsWorld(w, core);
      case Lazy(_, original, _) => InitKeepsWorld(w, original);
      case _ =>
    }
  }

  lemma {:induction false} InitAllKeepsWorld(w: World, cores: seq<Core>)
    ensures var r := WithInitsAll(w, cores); r == w.(inited := r.inited) && w.inited <= r.inited
    decreases cores
  {
    if cores != [] {
      InitKeepsWorld(w, cores[0]);
      InitAllKeepsWorld(WithInits(w, cores[0]), cores[1..]);
    }
  }

  /**
   The fast path of the loggers is sound: on every tree, a level that is not enabled makes Check
   on a nil entry return nil and change nothing, no counter and no lazy core.
   */
  lemma {:induction false} DisabledChecksNothing(w: World, c: Core, ent: Entry)
    requires !Enabled(w, c, ent.level)
    ensures Check(w, c, ent, None) == (w, None)
    decreases Weight(c)
  {
    match c {
      case Tee(cores) => DisabledChecksNothingAll(w, cores, ent);
      case Hooked(core, _) => DisabledChecksNothing(w, core, ent);
      case _ =>
    }
  }

  lemma {:induction false} DisabledChecksNothingAll(w: World, cores: seq<Core>, ent: Entry)
    requires !AnyEnabled(w, cores, ent.level)
    ensures CheckAll(w, cores, ent, None) == (w, None)
    decreases TotalWeight(cores)
  {
    if cores != [] {
      DisabledChecksNothing(w, cores[0], ent);
      DisabledChecksNothingAll(w, cores[1..], ent);
    }
  }

  // ---- What Check adds ----

  /** The entry so far, with more cores on its list. */
  function AddCores(ce: Option<Checked>, ent: Entry, cores: seq<Core>): (r: Option<Checked>) {
    if cores == [] then ce
    else if ce.None? then Some(Checked(ent, cores))
    else Some(ce.value.(cores := ce.value.cores + cores))
  }

  lemma AddCoresTwice(ce: Option<Checked>, ent: Entry, a: seq<Core>, b: seq<Core>)
    ensures AddCores(AddCores(ce, ent, a), ent, b) == AddCores(ce, ent, a + b)
  {
    if ce.Some? {
      assert ce.value.cores + a + b == ce.value.cores + (a + b);
    }
    if b == [] {
      assert a + b == a;
    }
    if a == [] {
      assert a + b == b;
    }
  }

  /**
   The cores a Check adds, as a function of whether the entry was already accepted by some core:
   a hooked core joins whenever the entry is non-nil after its wrapped core was asked.
   */
  function Joins(w: World, c: Core, ent: Entry, accepted: bool): (r: seq<Core>)
    decreases Weight(c)
  {
    match c
    case Nop => []
    case Io(_, en, _) => if Allows(w, en, ent.level) then [c] else []
    case Tee(cores) => JoinsAll(w, cores, ent, accepted)
    case Hooked(core, _) =>
      var down := Joins(w, core, ent, accepted);
      if accepted || down != [] then down + [c] else []
    case Filter(core, en) => if Allows(w, en, ent.level) then Joins(w, core, ent, accepted) else []
    case Sampling(core, id, cfg) =>
      if !Enabled(w, core, ent.level) then []
      else
        var (w', admitted) := Sample(w, id, cfg, ent);
        if admitted then Joins(w', core, ent, accepted) else []
    case Lazy(cell, original, fields) =>
      if !Enabled(w, original, ent.level) then []
      else Joins(InitOnce(w, cell, original), Applied(original, fields), ent, accepted)
  }

  function JoinsAll(w: World, cores: seq<Core>, ent: Entry, accepted: bool): (r: seq<Core>)
    decreases TotalWeight(cores)
  {
    if cores == [] then []
    else
      var first := Joins(w, cores[0], ent, accepted);
      first + JoinsAll(Check(w, cores[0], ent, None).0, cores[1..], ent, accepted || first != [])
  }

  /**
   Check only ever adds to an entry: it keeps the entry and the cores already on it, in order,
   it adds the same cores to every non-nil entry, and what it does to counters and lazy cores
   does not depend on the entry it was given.
   */
  lemma {:induction false} CheckAdds(w: World, c: Core, ent: Entry, ce: Option<Checked>)
    ensures Check(w, c, ent, ce) == (Check(w, c, ent, None).0, AddCores(ce, ent, Joins(w, c, ent, ce.Some?)))
    decreases Weight(c)
  {
    match c {
      case Tee(cores) =>
        CheckAllAdds(w, cores, ent, ce);
        CheckAllAdds(w, cores, ent, None);
      case Hooked(core, _) =>
        CheckAdds(w, core, ent, ce);
        CheckAdds(w, core, ent, None);
        AddCoresTwice(ce, ent, Joins(w, core, ent, ce.Some?), [c]);
      case Filter(core, _) => CheckAdds(w, core, ent, ce);
      case Sampling(core, id, cfg) => CheckAdds(Sample(w, id, cfg, ent).0, core, ent, ce);
      case Lazy(cell, original, fields) =>
        CheckAdds(InitOnce(w, cell, original), Applied(original, fields), ent, ce);
      case _ =>
    }
  }

  lemma {:induction false} CheckAllAdds(w: World, cores: seq<Core>, ent: Entry, ce: Option<Checked>)
    ensures CheckAll(w, cores, ent, ce)
         == (CheckAll(w, cores, ent, None).0, AddCores(ce, ent, JoinsAll(w, cores, ent, ce.Some?)))
    decreases TotalWeight(cores)
  {
    if cores != [] {
      var first := Joins(w, cores[0], ent, ce.Some?);
      CheckAdds(w, cores[0], ent, ce);
      CheckAdds(w, cores[0], ent, None);
      var w' := Check(w, cores[0], ent, None).0;
      CheckAllAdds(w', cores[1..], ent, AddCores(ce, ent, first));
      CheckAllAdds(w', cores[1..], ent, Check(w, cores[0], ent, None).1);
      AddCoresTwice(ce, ent, first, JoinsAll(w', cores[1..], ent, ce.Some? || first != []));
    }
  }

  // ---- Hooks ----

  /**
   When a hooked core joins: exactly when its wrapped core accepts the entry or some other core
   accepted it before.
   */
  lemma HookJoinsExactly(w: World, core: Core, hooks: nat, ent: Entry, ce: Option<Checked>)
    ensures var down := Joins(w, core, ent, ce.Some?);
      Joins(w, Hooked(core, hooks), ent, ce.Some?)
      == if ce.Some? || Check(w, core, ent, None).1.Some? then down + [Hooked(core, hooks)] else []
  {
    CheckAdds(w, core, ent, None);
  }

  /** Asked first, hooks run exactly when the wrapped core logs; after an accepting sibling they run regardless. */
  lemma HooksAfterASibling(w: World, first: Core, core: Core, hooks: nat, ent: Entry)
    ensures var w' := Check(w, first, ent, None).0;
      (Hooked(core, hooks) in JoinsAll(w, [first, Hooked(core, hooks)], ent, false))
      == (Check(w, first, ent, None).1.Some? || Check(w', core, ent, None).1.Some?)
  {
    var w' := Check(w, first, ent, None).0;
    var pair := [first, Hooked(core, hooks)];
    var earlier := Joins(w, first, ent, false);
    CheckAdds(w, first, ent, None);
    CheckAdds(w', core, ent, None);
    assert pair[1..] == [Hooked(core, hooks)];
    var own := Joins(w', Hooked(core, hooks), ent, earlier != []);
    assert JoinsAll(w', pair[1..], ent, earlier != []) == own + [] == own;
    assert JoinsAll(w, pair, ent, false) == earlier + own;
    if earlier == [] {
      if Joins(w', core, ent, false) == [] {
        assert own == [];
      }
    }
  }

  /** A hook on a core that logs errors only runs for an info entry that its sibling logs. */
  lemma HooksRunWithoutTheirCore()
    ensures exists w: World, core: Core, ent: Entry, first: Core ::
      Check(w, core, ent, None).1.None?
      && Hooked(core, 0) in JoinsAll(w, [first, Hooked(core, 0)], ent, false)
  {
    var w := World(map[], map[], {}, {}, {}, []);
    var ent := Entry(0, [], 0);
    var core, first := Io(0, Rule(level => level >= ERROR_LEVEL), []), Io(1, Rule(level => true), []);
    assert Check(w, core, ent, None) == (w, None);
    HooksAfterASibling(w, first, core, 0, ent);
    assert Check(w, first, ent, None).1.Some?;
  }

  // ---- With and then Log ----

  /** Equal but for which lazy cores have been initialized. */
  ghost predicate Same(w1: World, w2: World) {
    w1 == w2.(inited := w1.inited)
  }

  ghost predicate KeepsLog(after: World, before: World) {
    after.log == before.log && after.broken == before.broken && after.hookErrors == before.hookErrors
  }

  /** Check writes nothing. */
  lemma {:induction false} CheckKeepsLog(w: World, c: Core, ent: Entry, ce: Option<Checked>)
    ensures KeepsLog(Check(w, c, ent, ce).0, w)
    decreases Weight(c)
  {
    match c {
      case Tee(cores) => CheckAllKeepsLog(w, cores, ent, ce);
      case Hooked(core, _) => CheckKeepsLog(w, core, ent, ce);
      case Filter(core, _) => CheckKeepsLog(w, core, ent, ce);
      case Sampling(core, id, cfg) => CheckKeepsLog(Sample(w, id, cfg, ent).0, core, ent, ce);
      case Lazy(cell, original, fields) =>
        InitKeepsWorld(w, original);
        CheckKeepsLog(InitOnce(w, cell, original), Applied(original, fields), ent, ce);
      case _ =>
    }
  }

  lemma {:induction false} CheckAllKeepsLog(w: World, cores: seq<Core>, ent: Entry, ce: Option<Checked>)
    ensures KeepsLog(CheckAll(w, cores, ent, ce).0, w)
    decreases TotalWeight(cores)
  {
    if cores != [] {
      CheckKeepsLog(w, cores[0], ent, ce);
      var (w', ce') := Check(w, cores[0], ent, ce);
      CheckAllKeepsLog(w', cores[1..], ent, ce');
    }
  }

  lemma {:induction false} AppliedAllConcat(a: seq<Core>, b: seq<Core>, fs: seq<Field>)
    ensures AppliedAll(a + b, fs) == AppliedAll(a, fs) + AppliedAll(b, fs)
    decreases a
  {
    hide Applied;
    if a == [] {
      assert a + b == b;
    } else {
      assert (a + b)[1..] == a[1..] + b;
      AppliedAllConcat(a[1..], b, fs);
    }
  }

  lemma OneApplied(c: Core, fs: seq<Field>)
    ensures AppliedAll([c], fs) == [Applied(c, fs)]
  {
    hide Applied;
    assert [c][1..] == [];
  }

  /** The child's Check does what its parent's does, and the cores that join are the parent's with the fields. */
  lemma {:induction false} ChildJoins(w: World, c: Core, fs: seq<Field>, ent: Entry, accepted: bool)
    requires NoLazy(c)
    ensures Joins(w, Applied(c, fs), ent, accepted) == AppliedAll(Joins(w, c, ent, accepted), fs)
    ensures Check(w, Applied(c, fs), ent, None).0 == Check(w, c, ent, None).0
    decreases Weight(c)
  {
    WithKeepsEnabled(w, c, fs, ent.level);
    match c {
      case Io(_, _, _) => OneApplied(c, fs);
      case Tee(cores) => ChildrenJoin(w, cores, fs, ent, accepted);
      case Hooked(core, _) =>
        ChildJoins(w, core, fs, ent, accepted);
        AppliedAllConcat(Joins(w, core, ent, accepted), [c], fs);
        OneApplied(c, fs);
        JoinsAppliedEmpty(Joins(w, core, ent, accepted), fs);
      case Filter(core, _) => ChildJoins(w, core, fs, ent, accepted);
      case Sampling(core, id, cfg) =>
        WithKeepsEnabled(w, core, fs, ent.level);
        ChildJoins(Sample(w, id, cfg, ent).0, core, fs, ent, accepted);
      case _ =>
    }
  }

  lemma JoinsAppliedEmpty(cores: seq<Core>, fs: seq<Field>)
    ensures AppliedAll(cores, fs) == [] <==> cores == []
  {
  }

  lemma {:induction false} ChildrenJoin(w: World, cores: seq<Core>, fs: seq<Field>, ent: Entry, accepted: bool)
    requires NoneLazy(cores)
    ensures JoinsAll(w, AppliedAll(cores, fs), ent, accepted) == AppliedAll(JoinsAll(w, cores, ent, accepted), fs)
    ensures CheckAll(w, AppliedAll(cores, fs), ent, None).0 == CheckAll(w, cores, ent, None).0
    decreases TotalWeight(cores)
  {
    if cores != [] {
      hide Joins, Check, Applied;
      var first := Joins(w, cores[0], ent, accepted);
      var w' := Check(w, cores[0], ent, None).0;
      var children := AppliedAll(cores, fs);
      assert children[0] == Applied(cores[0], fs) && children[1..] == AppliedAll(cores[1..], fs);
      ChildJoins(w, cores[0], fs, ent, accepted);
      ChildrenJoin(w', cores[1..], fs, ent, accepted || first != []);
      AppliedAllConcat(first, JoinsAll(w', cores[1..], ent, accepted || first != []), fs);
      JoinsAppliedEmpty(first, fs);
      CheckAllFirst(w, cores, ent);
      CheckAllFirst(w, AppliedAll(cores, fs), ent);
    }
  }

  /** What the first child returns makes no difference to what the others do to the world. */
  lemma CheckAllFirst(w: World, cores: seq<Core>, ent: Entry)
    requires cores != []
    ensures CheckAll(w, cores, ent, None).0 == CheckAll(Check(w, cores[0], ent, None).0, cores[1..], ent, None).0
  {
    hide Check;
    var r := Check(w, cores[0], ent, None);
    CheckAllAdds(r.0, cores[1..], ent, r.1);
  }

  lemma {:induction false} EffectsOfExtended(ts: seq<Target>, ent: Entry, a: seq<Field>, b: seq<Field>,
                                             broken: set<nat>)
    ensures Effects(Extended(ts, a), ent, b, broken) == Effects(ts, ent, a + b, broken)
    decreases ts
  {
    if ts != [] {
      assert Extended(ts, a)[1..] == Extended(ts[1..], a);
      EffectsOfExtended(ts[1..], ent, a, b, broken);
      if ts[0].ToSink? {
        assert ts[0].context + a + b == ts[0].context + (a + b);
      }
    }
  }

  /**
   Fields given by With and fields given with the entry come to the same: logging `b` through the
   child that was given `a` is logging `a + b` through its parent, on every tree without lazy
   cores inside.
   */
  lemma WithThenLog(w: World, c: Core, ent: Entry, a: seq<Field>, b: seq<Field>)
    requires NoLazy(c)
    ensures Same(LogEntry(w, Applied(c, a), ent, b), LogEntry(w, c, ent, a + b))
  {
    hide Check, Joins, Applied, WriteAll, Effects;
    var joins := Joins(w, c, ent, false);
    CheckAdds(w, c, ent, None);
    CheckAdds(w, Applied(c, a), ent, None);
    ChildJoins(w, c, a, ent, false);
    JoinsAppliedEmpty(joins, a);
    if joins != [] {
      var w' := Check(w, c, ent, None).0;
      WriteReachesAllTargets(w', joins, ent, a + b);
      WriteReachesAllTargets(w', AppliedAll(joins, a), ent, b);
      WithReachesAllSinks(joins, a);
      EffectsOfExtended(AllTargets(joins), ent, a, b, w'.broken);
    }
  }

  // ---- Loops ----

  /** `multiCore.Enabled`: some child is enabled. */
  method TeeEnabled(w: World, cores: seq<Core>, level: int) returns (r: bool)
    ensures r <==> exists i :: 0 <= i < |cores| && Enabled(w, cores[i], level)
    ensures r == Enabled(w, Tee(cores), level)
  {
    for i := 0 to |cores|
      invariant forall j :: 0 <= j < i ==> !Enabled(w, cores[j], level)
      invariant AnyEnabled(w, cores, level) == AnyEnabled(w, cores[i..], level)
    {
      assert cores[i..][1..] == cores[i + 1..];
      if Enabled(w, cores[i], level) {
        return true;
      }
    }
    return false;
  }

  /** `multiCore.Check`: the children are asked in order, each given what the ones before it returned. */
  method TeeCheck(w: World, cores: seq<Core>, ent: Entry, ce: Option<Checked>) returns (r: World, ce': Option<Checked>)
    ensures (r, ce') == Check(w, Tee(cores), ent, ce)
    ensures ce' == AddCores(ce, ent, Joins(w, Tee(cores), ent, ce.Some?))
  {
    r, ce' := w, ce;
    for i := 0 to |cores|
      invariant CheckAll(w, cores, ent, ce) == CheckAll(r, cores[i..], ent, ce')
    {
      assert cores[i..][1..] == cores[i + 1..];
      var result := Check(r, cores[i], ent, ce');
      r, ce' := result.0, result.1;
    }
    CheckAdds(w, Tee(cores), ent, ce);
  }

  lemma {:induction false} EachIsApplied(cores: seq<Core>, fs: seq<Field>)
    ensures var r := AppliedAll(cores, fs);
      |r| == |cores| && forall i :: 0 <= i < |r| ==> r[i] == Applied(cores[i], fs)
    decreases cores
  {
    hide Applied;
    if cores != [] {
      EachIsApplied(cores[1..], fs);
    }
  }

  /** `multiCore.With`: fills a slice of the same length. */
  method TeeWith(cores: seq<Core>, fs: seq<Field>) returns (r: seq<Core>)
    ensures r == AppliedAll(cores, fs)
    ensures |r| == |cores| && forall i :: 0 <= i < |r| ==> r[i] == Applied(cores[i], fs)
  {
    hide Applied, AppliedAll;
    r := [];
    for i := 0 to |cores|
      invariant |r| == i && forall j :: 0 <= j < i ==> r[j] == Applied(cores[j], fs)
    {
      r := r + [Applied(cores[i], fs)];
    }
    EachIsApplied(cores, fs);
    assert r == AppliedAll(cores, fs);
  }

  /** The levels the loop over levels covers. */
  predicate OnlyRaises(w: World, core: Core, en: Enabler) {
    forall l :: Sampler.MIN_LEVEL <= l <= Sampler.MAX_LEVEL && Allows(w, en, l) ==> Enabled(w, core, l)
  }

  /**
   `NewIncreaseLevelCore`: refuses a level that lets through what the core does not; the core it
   makes logs exactly the entries at allowed levels, as the wrapped core would.
   */
  method NewIncreaseLevelCore(w: World, core: Core, en: Enabler) returns (r: Option<Core>)
    ensures r.Some? <==> OnlyRaises(w, core, en)
    ensures r.Some? ==> r.value == Filter(core, en)
    ensures r.Some? ==> forall ent: Entry | Sampler.MIN_LEVEL <= ent.level <= Sampler.MAX_LEVEL ::
      && (Enabled(w, r.value, ent.level) <==> Allows(w, en, ent.level) && Enabled(w, core, ent.level))
      && Check(w, r.value, ent, None) == (if Allows(w, en, ent.level) then Check(w, core, ent, None) else (w, None))
  {
    var l := Sampler.MAX_LEVEL;
    while l >= Sampler.MIN_LEVEL
      invariant Sampler.MIN_LEVEL - 1 <= l <= Sampler.MAX_LEVEL
      invariant forall k :: l < k <= Sampler.MAX_LEVEL && Allows(w, en, k) ==> Enabled(w, core, k)
    {
      if !Enabled(w, core, l) && Allows(w, en, l) {
        return None;
      }
      l := l - 1;
    }
    return Some(Filter(core, en));
  }
}
