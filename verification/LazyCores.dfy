/**
 Lazy cores: a child logger made by WithLazy cannot be told from one made by With, over any run.
 */
module LazyCores {
  import opened Utf8
  import opened EncoderOps
  import opened Cores

  // ---- What the once-flags can influence ----

  lemma InitIsSame(w: World, cell: nat, original: Core)
    ensures Same(InitOnce(w, cell, original), w)
  {
    InitKeepsWorld(w, original);
  }

  lemma {:induction false} CheckIgnoresInits(w1: World, w2: World, c: Core, ent: Entry, ce: Option<Checked>)
    requires Same(w1, w2)
    ensures var (r1, r2) := (Check(w1, c, ent, ce), Check(w2, c, ent, ce)); Same(r1.0, r2.0) && r1.1 == r2.1
    decreases Weight(c)
  {
    match c {
      case Tee(cores) => CheckAllIgnoresInits(w1, w2, cores, ent, ce);
      case Hooked(core, _) => CheckIgnoresInits(w1, w2, core, ent, ce);
      case Filter(core, _) => CheckIgnoresInits(w1, w2, core, ent, ce);
      case Sampling(core, id, cfg) =>
        EnabledByLevels(w1, w2, core, ent.level);
        CheckIgnoresInits(Sample(w1, id, cfg, ent).0, Sample(w2, id, cfg, ent).0, core, ent, ce);
      case Lazy(cell, original, fields) =>
        EnabledByLevels(w1, w2, original, ent.level);
        InitIsSame(w1, cell, original);
        InitIsSame(w2, cell, original);
        CheckIgnoresInits(InitOnce(w1, cell, original), InitOnce(w2, cell, original),
                          Applied(original, fields), ent, ce);
      case _ =>
    }
  }

  lemma {:induction false} CheckAllIgnoresInits(w1: World, w2: World, cores: seq<Core>, ent: Entry,
                                                ce: Option<Checked>)
    requires Same(w1, w2)
    ensures var (r1, r2) := (CheckAll(w1, cores, ent, ce), CheckAll(w2, cores, ent, ce));
      Same(r1.0, r2.0) && r1.1 == r2.1
    decreases TotalWeight(cores)
  {
    if cores != [] {
      CheckIgnoresInits(w1, w2, cores[0], ent, ce);
      var (r1, r2) := (Check(w1, cores[0], ent, ce), Check(w2, cores[0], ent, ce));
      CheckAllIgnoresInits(r1.0, r2.0, cores[1..], ent, r1.1);
    }
  }

  lemma {:induction false} WriteIgnoresInits(w1: World, w2: World, c: Core, ent: Entry, fs: seq<Field>)
    requires Same(w1, w2)
    ensures Same(Write(w1, c, ent, fs), Write(w2, c, ent, fs))
    decreases Weight(c)
  {
    match c {
      case Tee(cores) => WriteAllIgnoresInits(w1, w2, cores, ent, fs);
      case Filter(core, _) => WriteIgnoresInits(w1, w2, core, ent, fs);
      case Sampling(core, _, _) => WriteIgnoresInits(w1, w2, core, ent, fs);
      case Lazy(cell, original, fields) =>
        InitIsSame(w1, cell, original);
        InitIsSame(w2, cell, original);
        WriteIgnoresInits(InitOnce(w1, cell, original), InitOnce(w2, cell, original),
                          Applied(original, fields), ent, fs);
      case _ =>
    }
  }

  lemma {:induction false} WriteAllIgnoresInits(w1: World, w2: World, cores: seq<Core>, ent: Entry,
                                                fs: seq<Field>)
    requires Same(w1, w2)
    ensures Same(WriteAll(w1, cores, ent, fs), WriteAll(w2, cores, ent, fs))
    decreases TotalWeight(cores)
  {
    if cores != [] {
      WriteIgnoresInits(w1, w2, cores[0], ent, fs);
      WriteAllIgnoresInits(Write(w1, cores[0], ent, fs), Write(w2, cores[0], ent, fs), cores[1..], ent, fs);
    }
  }

  lemma {:induction false} SyncIgnoresInits(w1: World, w2: World, c: Core)
    requires Same(w1, w2)
    ensures Same(Sync(w1, c), Sync(w2, c))
    decreases Weight(c)
  {
    match c {
      case Tee(cores) => SyncAllIgnoresInits(w1, w2, cores);
      case Hooked(core, _) => SyncIgnoresInits(w1, w2, core);
      case Filter(core, _) => SyncIgnoresInits(w1, w2, core);
      case Sampling(core, _, _) => SyncIgnoresInits(w1, w2, core);
      case Lazy(cell, original, fields) =>
        InitIsSame(w1, cell, original);
        InitIsSame(w2, cell, original);
        SyncIgnoresInits(InitOnce(w1, cell, original), InitOnce(w2, cell, original), Applied(original, fields));
      case _ =>
    }
  }

  lemma {:induction false} SyncAllIgnoresInits(w1: World, w2: World, cores: seq<Core>)
    requires Same(w1, w2)
    ensures Same(SyncAll(w1, cores), SyncAll(w2, cores))
    decreases TotalWeight(cores)
  {
    if cores != [] {
      SyncIgnoresInits(w1, w2, cores[0]);
      SyncAllIgnoresInits(Sync(w1, cores[0]), Sync(w2, cores[0]), cores[1..]);
    }
  }

  // ---- A lazy core and the core it stands for ----

  /** The core that a lazy core stands for. */
  function Eager(c: Core): (r: Core)
    ensures !c.Lazy? ==> r == c
    ensures !r.Lazy?
  {
    if c.Lazy? then Applied(c.original, c.fields) else c
  }

  /** Cores that would join an already accepted entry although they are disabled for it. */
  predicate JoinsDisabled(c: Core)
    decreases c
  {
    match c
    case Hooked(_, _) => true
    case Tee(cores) => AnyJoinsDisabled(cores)
    case _ => false
  }

  predicate AnyJoinsDisabled(cores: seq<Core>)
    decreases cores
  {
    cores != [] && (JoinsDisabled(cores[0]) || AnyJoinsDisabled(cores[1..]))
  }

  /** At a level that is off, hooked cores reached through tees join others' entries, and no other cores do. */
  lemma {:induction false} DisabledJoins(w: World, c: Core, ent: Entry)
    requires !Enabled(w, c, ent.level)
    ensures Check(w, c, ent, None) == (w, None)
    ensures Joins(w, c, ent, true) != [] <==> JoinsDisabled(c)
    decreases Weight(c)
  {
    DisabledChecksNothing(w, c, ent);
    if c.Tee? {
      DisabledJoinsAll(w, c.cores, ent);
    }
  }

  lemma {:induction false} DisabledJoinsAll(w: World, cores: seq<Core>, ent: Entry)
    requires !AnyEnabled(w, cores, ent.level)
    ensures JoinsAll(w, cores, ent, true) != [] <==> AnyJoinsDisabled(cores)
    decreases TotalWeight(cores)
  {
    if cores != [] {
      DisabledJoins(w, cores[0], ent);
      DisabledJoinsAll(w, cores[1..], ent);
    }
  }

  /** The two checks agree: on the entry they return and on everything but once-flags. */
  ghost predicate Agree(w: World, c: Core, ent: Entry, ce: Option<Checked>) {
    && Same(Check(w, c, ent, ce).0, Check(w, Eager(c), ent, ce).0)
    && Check(w, c, ent, ce).1 == Check(w, Eager(c), ent, ce).1
  }

  /**
   Checking a lazy core is checking the core it stands for, exactly unless the level is off, the
   entry already has takers, and the wrapped tree holds a hooked core that would join it.
   */
  lemma LazyCheckAgrees(w: World, cell: nat, original: Core, fields: seq<Field>, ent: Entry, ce: Option<Checked>)
    ensures Agree(w, Lazy(cell, original, fields), ent, ce)
      <==> Enabled(w, original, ent.level) || ce.None? || !JoinsDisabled(Applied(original, fields))
  {
    var c := Lazy(cell, original, fields);
    var eager := Applied(original, fields);
    WithKeepsEnabled(w, original, fields, ent.level);
    if Enabled(w, original, ent.level) {
      InitIsSame(w, cell, original);
      CheckIgnoresInits(InitOnce(w, cell, original), w, eager, ent, ce);
    } else {
      DisabledJoins(w, eager, ent);
      CheckAdds(w, eager, ent, ce);
      if ce.Some? {
        var joins := Joins(w, eager, ent, true);
        assert AddCores(ce, ent, joins) == ce <==> joins == [] by {
          assert |ce.value.cores + joins| == |ce.value.cores| + |joins|;
        }
      }
    }
  }

  /**
   The lazy core as an object: `core` is set by the first call that needs it. `withCalls` counts
   the calls of With on the original core.
   */
  class LazyWithCore {
    const cell: nat
    const original: Core
    const fields: seq<Field>
    var core: Option<Core>
    ghost var withCalls: nat

    /** Initialized at most once, and to the core that the eager With gives. */
    ghost predicate Valid()
      reads this
    {
      && withCalls == (if core.Some? then 1 else 0)
      && (core.Some? ==> core.value == Applied(original, fields))
    }

    ghost function Value(): (c: Core) {
      Lazy(cell, original, fields)
    }

    constructor (cell: nat, original: Core, fields: seq<Field>)
      ensures Valid() && Value() == Lazy(cell, original, fields) && withCalls == 0
    {
      this.cell, this.original, this.fields := cell, original, fields;
      core, withCalls := None, 0;
    }

    method InitOnce(w: World) returns (r: World)
      requires Valid()
      modifies this
      ensures Valid() && withCalls == 1 && core.Some?
      ensures Same(r, w)
    {
      r := w;
      if core.None? {
        InitKeepsWorld(w, original);
        r := WithInits(w, original);
        core := Some(Applied(original, fields));
        withCalls := withCalls + 1;
      }
    }

    method With(w: World, fs: seq<Field>) returns (r: World, child: Core)
      requires Valid()
      modifies this
      ensures Valid() && withCalls == 1
      ensures Same(r, w) && child == Applied(Value(), fs)
    {
      r := InitOnce(w);
      child := Applied(core.value, fs);
    }

    /** A level that is off leaves the core uninitialized. */
    method Check(w: World, ent: Entry, ce: Option<Checked>) returns (r: World, ce': Option<Checked>)
      requires Valid()
      modifies this
      ensures Valid()
      ensures !Enabled(w, original, ent.level) ==> unchanged(this) && r == w && ce' == ce
      ensures Enabled(w, original, ent.level) ==> withCalls == 1
      ensures Same(r, Cores.Check(w, Value(), ent, ce).0) && ce' == Cores.Check(w, Value(), ent, ce).1
    {
      if !Enabled(w, original, ent.level) {
        return w, ce;
      }
      var w' := InitOnce(w);
      ghost var spec := Cores.InitOnce(w, cell, original);
      InitIsSame(w, cell, original);
      CheckIgnoresInits(w', spec, core.value, ent, ce);
      var result := Cores.Check(w', core.value, ent, ce);
      r, ce' := result.0, result.1;
    }

    method Write(w: World, ent: Entry, fs: seq<Field>) returns (r: World)
      requires Valid()
      modifies this
      ensures Valid() && withCalls == 1
      ensures Same(r, Cores.Write(w, Value(), ent, fs))
    {
      var w' := InitOnce(w);
      InitIsSame(w, cell, original);
      WriteIgnoresInits(w', Cores.InitOnce(w, cell, original), core.value, ent, fs);
      r := Cores.Write(w', core.value, ent, fs);
    }

    method Sync(w: World) returns (r: World)
      requires Valid()
      modifies this
      ensures Valid() && withCalls == 1
      ensures Same(r, Cores.Sync(w, Value()))
    {
      var w' := InitOnce(w);
      InitIsSame(w, cell, original);
      SyncIgnoresInits(w', Cores.InitOnce(w, cell, original), core.value);
      r := Cores.Sync(w', core.value);
    }
  }

  // ---- Runs ----

  /**
   A step of a program using loggers and their cores, named by position: ask whether a level is
   enabled, check and write an entry, check only, write an entry that a check has returned, call
   Write on the core itself, sync, derive a child, change an atomic level, change which sinks and
   hooks fail.
   */
  datatype Op =
    | AskEnabled(h: nat, level: int)
    | Log(h: nat, ent: Entry, fields: seq<Field>)
    | CheckOnly(h: nat, ent: Entry)
    | WriteHeld(k: nat, fields: seq<Field>)
    | WriteDirect(h: nat, ent: Entry, fields: seq<Field>)
    | SyncLogger(h: nat)
    | With(h: nat, fields: seq<Field>)
    | WithLazy(h: nat, fields: seq<Field>, cell: nat)
    | SetLevel(id: nat, level: int)
    | SetFailing(sinks: set<nat>, hooks: set<nat>)

  datatype Seen = Answer(b: bool) | Returned(ce: Option<Checked>) | Nothing

  /** `held` are the entries that checks have returned; a written one is given up. */
  datatype Program = Program(world: World, loggers: seq<Core>, held: seq<Option<Checked>>, seen: seq<Seen>)

  function Step(p: Program, op: Op): (r: Program) {
    match op
    case SetLevel(id, level) =>
      p.(world := p.world.(levels := p.world.levels[id := level]), seen := p.seen + [Nothing])
    case SetFailing(sinks, hooks) =>
      p.(world := p.world.(broken := sinks, hookErrors := hooks), seen := p.seen + [Nothing])
    case WriteHeld(k, fs) =>
      if k >= |p.held| then p else p.(world := WriteChecked(p.world, p.held[k], fs), held := p.held[k := None])
    case _ =>
      if op.h >= |p.loggers| then p
      else
        var c := p.loggers[op.h];
        match op
        case AskEnabled(_, level) => p.(seen := p.seen + [Answer(Enabled(p.world, c, level))])
        case Log(_, ent, fs) => p.(world := LogEntry(p.world, c, ent, fs), seen := p.seen + [Nothing])
        case CheckOnly(_, ent) =>
          var (w', ce) := Check(p.world, c, ent, None);
          p.(world := w', held := p.held + [ce], seen := p.seen + [Returned(ce)])
        case WriteDirect(_, ent, fs) =>
          p.(world := Write(p.world, c, ent, fs), seen := p.seen + [Answer(WriteError(p.world, c))])
        case SyncLogger(_) => p.(world := Sync(p.world, c), seen := p.seen + [Nothing])
        case With(_, fs) => p.(world := WithInits(p.world, c), loggers := p.loggers + [Applied(c, fs)])
        case WithLazy(_, fs, cell) => p.(loggers := p.loggers + [Lazy(cell, c, fs)])
  }

  function Run(p: Program, ops: seq<Op>): (r: Program)
    decreases ops
  {
    if ops == [] then p else Run(Step(p, ops[0]), ops[1..])
  }

  /** The same program with every WithLazy replaced by With. */
  function Eagerly(op: Op): (r: Op) {
    if op.WithLazy? then With(op.h, op.fields) else op
  }

  function AllEagerly(ops: seq<Op>): (r: seq<Op>)
    ensures |r| == |ops|
  {
    if ops == [] then [] else [Eagerly(ops[0])] + AllEagerly(ops[1..])
  }

  ghost predicate Alike(p: Program, q: Program) {
    && Same(p.world, q.world)
    && p.seen == q.seen && p.held == q.held
    && |p.loggers| == |q.loggers|
    && forall i :: 0 <= i < |p.loggers| ==> q.loggers[i] == Eager(p.loggers[i])
  }

  lemma LogEntryAlike(w1: World, w2: World, c: Core, ent: Entry, fs: seq<Field>)
    requires Same(w1, w2)
    ensures Same(LogEntry(w1, c, ent, fs), LogEntry(w2, Eager(c), ent, fs))
    ensures Check(w1, c, ent, None).1 == Check(w2, Eager(c), ent, None).1
    ensures Same(Check(w1, c, ent, None).0, Check(w2, Eager(c), ent, None).0)
  {
    if c.Lazy? {
      LazyCheckAgrees(w1, c.cell, c.original, c.fields, ent, None);
    }
    CheckIgnoresInits(w1, w2, Eager(c), ent, None);
    var (r1, r2) := (Check(w1, c, ent, None), Check(w2, Eager(c), ent, None));
    WriteCheckedAlike(r1.0, r2.0, r1.1, fs);
  }

  lemma WriteAlike(w1: World, w2: World, c: Core, ent: Entry, fs: seq<Field>)
    requires Same(w1, w2)
    ensures Same(Write(w1, c, ent, fs), Write(w2, Eager(c), ent, fs))
    ensures WriteError(w1, c) == WriteError(w2, Eager(c))
  {
    if c.Lazy? {
      InitIsSame(w1, c.cell, c.original);
      WriteIgnoresInits(InitOnce(w1, c.cell, c.original), w2, Eager(c), ent, fs);
    } else {
      WriteIgnoresInits(w1, w2, c, ent, fs);
    }
    SameFailures(w1, w2, Eager(c));
  }

  lemma WriteCheckedAlike(w1: World, w2: World, ce: Option<Checked>, fs: seq<Field>)
    requires Same(w1, w2)
    ensures Same(WriteChecked(w1, ce, fs), WriteChecked(w2, ce, fs))
  {
    if ce.Some? {
      WriteAllIgnoresInits(w1, w2, ce.value.cores, ce.value.ent, fs);
    }
  }

  lemma SyncAlike(w1: World, w2: World, c: Core)
    requires Same(w1, w2)
    ensures Same(Sync(w1, c), Sync(w2, Eager(c)))
  {
    if c.Lazy? {
      InitIsSame(w1, c.cell, c.original);
      SyncIgnoresInits(InitOnce(w1, c.cell, c.original), w2, Eager(c));
    } else {
      SyncIgnoresInits(w1, w2, c);
    }
  }

  lemma EnabledAlike(w1: World, w2: World, c: Core, level: int)
    requires Same(w1, w2)
    ensures Enabled(w1, c, level) == Enabled(w2, Eager(c), level)
  {
    if c.Lazy? {
      WithKeepsEnabled(w1, c.original, c.fields, level);
    }
    EnabledByLevels(w1, w2, Eager(c), level);
  }

  lemma WithAlike(c: Core, fs: seq<Field>)
    ensures Applied(Eager(c), fs) == Applied(c, fs) && !Applied(c, fs).Lazy?
  {
  }

  lemma StepAlike(p: Program, q: Program, op: Op)
    requires Alike(p, q)
    ensures Alike(Step(p, op), Step(q, Eagerly(op)))
  {
    hide Check, Write, Sync, Enabled, WriteError, LogEntry, WriteChecked, Applied;
    if op.WriteHeld? {
      if op.k < |p.held| {
        WriteCheckedAlike(p.world, q.world, p.held[op.k], op.fields);
      }
    } else if !op.SetLevel? && !op.SetFailing? && op.h < |p.loggers| {
      var c := p.loggers[op.h];
      match op {
        case AskEnabled(_, level) => EnabledAlike(p.world, q.world, c, level);
        case Log(_, ent, fs) => LogEntryAlike(p.world, q.world, c, ent, fs);
        case CheckOnly(_, ent) => LogEntryAlike(p.world, q.world, c, ent, []);
        case WriteDirect(_, ent, fs) => WriteAlike(p.world, q.world, c, ent, fs);
        case SyncLogger(_) => SyncAlike(p.world, q.world, c);
        case With(_, _) =>
          InitKeepsWorld(p.world, c);
          InitKeepsWorld(q.world, Eager(c));
          WithAlike(c, op.fields);
        case WithLazy(_, _, _) =>
          InitKeepsWorld(q.world, Eager(c));
          WithAlike(c, op.fields);
        case _ =>
      }
    }
  }

  /**
   WithLazy is With: over every run, from every tree, replacing each WithLazy by With changes no
   answer, no returned entry and nothing that reaches a sink, a hook or a sampling counter.
   */
  lemma {:induction false} LazyRunsAreEager(p: Program, q: Program, ops: seq<Op>)
    requires Alike(p, q)
    ensures Alike(Run(p, ops), Run(q, AllEagerly(ops)))
    decreases ops
  {
    if ops != [] {
      StepAlike(p, q, ops[0]);
      LazyRunsAreEager(Step(p, ops[0]), Step(q, Eagerly(ops[0])), ops[1..]);
      assert AllEagerly(ops)[1..] == AllEagerly(ops[1..]);
    }
  }

  // ---- Inside a tee ----

  /** Behind `first` in a tee, the lazy core stays out of the entry and the eager one, with its hooks, joins it. */
  ghost predicate OnlyEagerJoins(w: World, first: Core, original: Core, ent: Entry) {
    var lazy, eager := Lazy(0, original, []), Applied(original, []);
    && Check(w, Tee([first, lazy]), ent, None).1 == Some(Checked(ent, [first]))
    && Check(w, Tee([first, eager]), ent, None).1 == Some(Checked(ent, [first, eager]))
  }

  /** A core that takes everything, and a lazy core over hooks on a core that is off. */
  lemma LazyInATeeDiffers()
    ensures exists w, first, original, ent :: OnlyEagerJoins(w, first, original, ent)
  {
    var w := World(map[], map[], {}, {}, {}, []);
    var ent := Entry(INFO_LEVEL, [], 0);
    var first, off := Io(0, Rule(level => true), []), Io(1, Rule(level => false), []);
    var original := Hooked(off, 0);
    var lazy, eager := Lazy(0, original, []), Applied(original, []);
    var ce := Some(Checked(ent, [first]));
    assert Check(w, first, ent, None) == (w, ce);
    assert Check(w, lazy, ent, ce) == (w, ce);
    assert eager == Hooked(Applied(off, []), 0);
    assert Check(w, Applied(off, []), ent, ce) == (w, ce);
    assert Check(w, eager, ent, ce) == (w, AddCore(ce, ent, eager));
    assert [first] + [eager] == [first, eager];
    TeeOfTwo(w, first, lazy, ent);
    TeeOfTwo(w, first, eager, ent);
    assert OnlyEagerJoins(w, first, original, ent);
  }

  lemma TeeOfTwo(w: World, a: Core, b: Core, ent: Entry)
    ensures var r := Check(w, a, ent, None);
      Check(w, Tee([a, b]), ent, None) == Check(r.0, b, ent, r.1)
  {
    var r := Check(w, a, ent, None);
    var q := Check(r.0, b, ent, r.1);
    assert [a, b][1..] == [b] && [b][1..] == [];
    assert CheckAll(q.0, [], ent, q.1) == q;
    assert CheckAll(r.0, [b], ent, r.1) == q;
    assert CheckAll(w, [a, b], ent, None) == CheckAll(r.0, [b], ent, r.1);
  }
}
