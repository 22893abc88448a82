/**
 Logger.check and the level fast paths of Logger and SugaredLogger.
 */
module Logger {
  import opened Utf8
  import opened EncoderOps
  import opened Cores
  import opened CheckedEntries

  const DPANIC_LEVEL := 3
  const PANIC_LEVEL := 4
  const FATAL_LEVEL := 5

  /** A logger; a nil hook is None. */
  datatype Logger = Logger(
    core: Core,
    development: bool,
    onPanic: Option<Hook>,
    onFatal: Option<Hook>,
    errorOutput: nat)

  /** `terminalHookOverride`: never a hook that lets execution go on by doing nothing. */
  function TerminalHook(standard: Hook, override: Option<Hook>): (hook: Hook)
    requires standard != Noop
    ensures hook != Noop
    ensures override.Some? && override.value != Noop ==> hook == override.value
    ensures override.None? || override.value == Noop ==> hook == standard
  {
    if override.None? || override.value == Noop then standard else override.value
  }

  /** The hook a level calls for. */
  function TerminalAt(log: Logger, level: int): (hook: Option<Hook>) {
    if level == PANIC_LEVEL then Some(TerminalHook(Panic, log.onPanic))
    else if level == FATAL_LEVEL then Some(TerminalHook(Fatal, log.onFatal))
    else if level == DPANIC_LEVEL && log.development then Some(TerminalHook(Panic, log.onPanic))
    else None
  }

  /** `After` on what the core returned, and the annotation of entries that will be written. */
  function Annotate(log: Logger, ent: Entry, ce: Option<Checked>): (r: Option<Pending>) {
    var after := TerminalAt(log, ent.level);
    if ce.Some? then Some(Pending(ce.value.ent, ce.value.cores, [], after, Some(log.errorOutput)))
    else if after.Some? then Some(Pending(ent, [], [], after, None))
    else None
  }

  /** `Logger.check` without the level test. */
  function CheckSlowly(w: World, log: Logger, ent: Entry): (r: (World, Option<Pending>)) {
    var (w', ce) := Cores.Check(w, log.core, ent, None);
    (w', Annotate(log, ent, ce))
  }

  /** `Logger.check`. */
  function Check(w: World, log: Logger, ent: Entry): (r: (World, Option<Pending>)) {
    if ent.level < DPANIC_LEVEL && !Enabled(w, log.core, ent.level) then (w, None)
    else CheckSlowly(w, log, ent)
  }

  /** The level test of `check` saves work and nothing else, on every core tree. */
  lemma FastPathIsSound(w: World, log: Logger, ent: Entry)
    ensures Check(w, log, ent) == CheckSlowly(w, log, ent)
  {
    if !Enabled(w, log.core, ent.level) {
      DisabledChecksNothing(w, log.core, ent);
    }
  }

  /**
   Why it stops below DPanic: a test at every level would lose exactly the entries that exist
   only for their terminal hook.
   */
  lemma FastPathReachesNoFurther(w: World, log: Logger, ent: Entry)
    ensures (!Enabled(w, log.core, ent.level) ==> Check(w, log, ent) == (w, None))
      <==> Enabled(w, log.core, ent.level) || TerminalAt(log, ent.level).None?
  {
    if !Enabled(w, log.core, ent.level) {
      DisabledChecksNothing(w, log.core, ent);
    }
  }

  // ---- A whole log call ----

  /** `Log`: check, then write what came back. */
  function Log(sys: System, log: Logger, ent: Entry, fs: seq<Field>): (r: System) {
    var (w, p) := Check(sys.world, log, ent);
    if p.None? then sys.(world := w) else Delivered(sys.(world := w), p.value, fs)
  }

  /** What sorting loose arguments logs on the side: entries of the same logger. */
  datatype Aside = Aside(ent: Entry, fields: seq<Field>)

  function LogAll(sys: System, log: Logger, asides: seq<Aside>): (r: System)
    decreases asides
  {
    if asides == [] then sys else LogAll(Log(sys, log, asides[0].ent, asides[0].fields), log, asides[1..])
  }

  /** What `SugaredLogger.log` does once past its level test: the arguments are sorted between Check and Write. */
  function SugarLogSlowly(sys: System, log: Logger, ent: Entry, fs: seq<Field>, asides: seq<Aside>): (r: System) {
    var (w, p) := Check(sys.world, log, ent);
    if p.None? then sys.(world := w) else Delivered(LogAll(sys.(world := w), log, asides), p.value, fs)
  }

  /** `SugaredLogger.log`: the message is made only if the level test passes. */
  function SugarLog(sys: System, log: Logger, level: int, now: int, message: () -> Bytes, fs: seq<Field>,
                    asides: seq<Aside>): (r: System) {
    if level < DPANIC_LEVEL && !Enabled(sys.world, log.core, level) then sys
    else SugarLogSlowly(sys, log, Entry(level, message(), now), fs, asides)
  }

  /**
   Not formatting the message of a disabled call is never noticed, and when the arguments sort
   without complaint the call is the plain Log call.
   */
  lemma SugarAgreesWithLog(sys: System, log: Logger, level: int, now: int, message: () -> Bytes, fs: seq<Field>,
                           asides: seq<Aside>)
    ensures var ent := Entry(level, message(), now);
      && SugarLog(sys, log, level, now, message, fs, asides) == SugarLogSlowly(sys, log, ent, fs, asides)
      && (asides == [] ==> SugarLog(sys, log, level, now, message, fs, asides) == Log(sys, log, ent, fs))
  {
    var ent := Entry(level, message(), now);
    FastPathIsSound(sys.world, log, ent);
    if !Enabled(sys.world, log.core, level) {
      DisabledChecksNothing(sys.world, log.core, ent);
    }
  }

  lemma {:induction false} SameComplaints(w1: World, w2: World, cores: seq<Core>)
    requires w1.broken == w2.broken && w1.hookErrors == w2.hookErrors
    ensures AnyWriteError(w1, cores) == AnyWriteError(w2, cores)
    decreases cores
  {
    hide WriteError;
    if cores != [] {
      SameFailures(w1, w2, cores[0]);
      SameComplaints(w1, w2, cores[1..]);
    }
  }

  /**
   Every log call, on every core tree: the terminal hook that the level calls for runs exactly
   once, disabled levels included, and no other hook does; it gets the call's own entry and
   fields; by then everything written at a level above error has been synced, and one complaint
   has been made if some core that took the entry returned an error.
   */
  lemma LogEndsAsItShould(sys: System, log: Logger, ent: Entry, fs: seq<Field>)
    ensures var r := Log(sys, log, ent, fs);
      var hook := TerminalAt(log, ent.level);
      && r.outcomes == sys.outcomes + (if hook.Some? then [Ran(hook.value, ent, fs)] else [])
      && (hook.Some? ==> hook.value != Noop)
      && (ent.level == PANIC_LEVEL && log.onPanic in {None, Some(Noop)} ==> hook == Some(Panic))
      && (ent.level == PANIC_LEVEL && log.onPanic !in {None, Some(Noop)} ==> hook == log.onPanic)
      && (ent.level == FATAL_LEVEL && log.onFatal in {None, Some(Noop)} ==> hook == Some(Fatal))
      && (ent.level == FATAL_LEVEL && log.onFatal !in {None, Some(Noop)} ==> hook == log.onFatal)
      && (ent.level == DPANIC_LEVEL ==> hook.Some? == log.development)
      && (ent.level < DPANIC_LEVEL ==> hook.None?)
      && Grows(sys.world, r.world, ent)
      && r.complaints == sys.complaints
         + if AnyWriteError(sys.world, Joins(sys.world, log.core, ent, false))
           then [WriteErrors(log.errorOutput, ent)] else []
  {
    FastPathIsSound(sys.world, log, ent);
    CheckKeepsLog(sys.world, log.core, ent, None);
    CheckAdds(sys.world, log.core, ent, None);
    var (w, ce) := Cores.Check(sys.world, log.core, ent, None);
    var p := Annotate(log, ent, ce);
    SameComplaints(sys.world, w, Joins(sys.world, log.core, ent, false));
    if p.Some? {
      assert Folded([], ent, fs) == (ent, fs);
      CrashWritesAreSyncedAll(w, p.value.cores, ent, fs);
    }
  }

  /** A log call puts into the log exactly what the targets of the cores that joined its entry receive. */
  lemma LogWrites(sys: System, log: Logger, ent: Entry, fs: seq<Field>)
    ensures Log(sys, log, ent, fs).world.log
         == sys.world.log + Effects(AllTargets(Joins(sys.world, log.core, ent, false)), ent, fs, sys.world.broken)
  {
    hide Effects, AllTargets, Joins, Delivered;
    FastPathIsSound(sys.world, log, ent);
    CheckKeepsLog(sys.world, log.core, ent, None);
    CheckAdds(sys.world, log.core, ent, None);
    var (w, ce) := Cores.Check(sys.world, log.core, ent, None);
    var p := Annotate(log, ent, ce);
    NoTargets(ent, fs, sys.world.broken);
    assert sys.world.log + [] == sys.world.log;
    if p.Some? {
      assert Folded([], ent, fs) == (ent, fs);
      DeliveredWrites(sys.(world := w), p.value, fs);
    }
  }

  lemma NoTargets(ent: Entry, fs: seq<Field>, broken: set<nat>)
    ensures Effects(AllTargets([]), ent, fs, broken) == []
  {
  }

  /** Over one io core that works: the entry itself with the core's fields and then the call's, if the level is on. */
  lemma LogOverIo(sys: System, log: Logger, ent: Entry, fs: seq<Field>)
    requires log.core.Io? && log.core.sink !in sys.world.broken
    ensures var io := log.core;
      Log(sys, log, ent, fs).world.log
      == sys.world.log
         + (if !Allows(sys.world, io.enab, ent.level) then []
            else if ent.level > ERROR_LEVEL then [Wrote(io.sink, ent, io.context + fs), Synced(io.sink)]
            else [Wrote(io.sink, ent, io.context + fs)])
  {
    hide Log, Effects;
    var t := ToSink(log.core.sink, log.core.context);
    LogWrites(sys, log, ent, fs);
    NoTargets(ent, fs, sys.world.broken);
    TargetReceives(t, ent, fs, sys.world.broken);
    assert [log.core][1..] == [] && [t] + [] == [t];
    assert AllTargets([log.core]) == [t];
  }

  /** What a sugared call writes: what its arguments log on the side, then the entry, to those who took it before. */
  lemma SugarWrites(sys: System, log: Logger, level: int, now: int, message: () -> Bytes, fs: seq<Field>,
                    asides: seq<Aside>)
    ensures var ent := Entry(level, message(), now);
      var (w, p) := Check(sys.world, log, ent);
      SugarLog(sys, log, level, now, message, fs, asides).world.log
      == if p.None? then sys.world.log
         else var before := LogAll(sys.(world := w), log, asides).world;
              before.log + Effects(AllTargets(Joins(sys.world, log.core, ent, false)), ent, fs, before.broken)
  {
    hide Effects, AllTargets, Joins, Delivered, LogAll;
    var ent := Entry(level, message(), now);
    SugarAgreesWithLog(sys, log, level, now, message, fs, asides);
    FastPathIsSound(sys.world, log, ent);
    CheckKeepsLog(sys.world, log.core, ent, None);
    CheckAdds(sys.world, log.core, ent, None);
    var (w, p) := Check(sys.world, log, ent);
    if p.Some? {
      assert Folded([], ent, fs) == (ent, fs);
      DeliveredWrites(LogAll(sys.(world := w), log, asides), p.value, fs);
    }
  }
}
