/**
 A sampler in a core tree: children made by With share its counters, so one quota covers them all.
 */
module SampledCores {
  import opened Utf8
  import opened EncoderOps
  import opened Cores
  import Hash
  import Sampler

  /** No sampler of the tree uses the counters of `id`. */
  predicate Lacks(c: Core, id: nat)
    decreases c
  {
    match c
    case Tee(cores) => AllLack(cores, id)
    case Hooked(core, _) => Lacks(core, id)
    case Filter(core, _) => Lacks(core, id)
    case Sampling(core, other, _) => other != id && Lacks(core, id)
    case Lazy(_, original, _) => Lacks(original, id)
    case _ => true
  }

  predicate AllLack(cores: seq<Core>, id: nat)
    decreases cores
  {
    cores != [] ==> Lacks(cores[0], id) && AllLack(cores[1..], id)
  }

  lemma {:induction false} WithAddsNoSampler(c: Core, fs: seq<Field>, id: nat)
    requires Lacks(c, id)
    ensures Lacks(Applied(c, fs), id)
    decreases Weight(c)
  {
    match c {
      case Tee(cores) => WithAddsNoSamplers(cores, fs, id);
      case Hooked(core, _) => WithAddsNoSampler(core, fs, id);
      case Filter(core, _) => WithAddsNoSampler(core, fs, id);
      case Sampling(core, _, _) => WithAddsNoSampler(core, fs, id);
      case Lazy(_, original, fields) =>
        WithAddsNoSampler(original, fields, id);
        WithAddsNoSampler(Applied(original, fields), fs, id);
      case _ =>
    }
  }

  lemma {:induction false} WithAddsNoSamplers(cores: seq<Core>, fs: seq<Field>, id: nat)
    requires AllLack(cores, id)
    ensures AllLack(AppliedAll(cores, fs), id)
    decreases TotalWeight(cores)
  {
    if cores != [] {
      WithAddsNoSampler(cores[0], fs, id);
      WithAddsNoSamplers(cores[1..], fs, id);
      assert AppliedAll(cores, fs)[1..] == AppliedAll(cores[1..], fs);
    }
  }

  /** Levels are as they were, and so are the counters of `id`. */
  ghost predicate Untouched(w1: World, w2: World, id: nat) {
    && w1.levels == w2.levels
    && forall row, slot :: CellAt(w1, CounterKey(id, row, slot)) == CellAt(w2, CounterKey(id, row, slot))
  }

  /** Check moves the counters of the samplers in its own tree and no others. */
  lemma {:induction false} CheckMovesOwnCounters(w: World, c: Core, ent: Entry, ce: Option<Checked>, id: nat)
    requires Lacks(c, id)
    ensures Untouched(Check(w, c, ent, ce).0, w, id)
    decreases Weight(c)
  {
    match c {
      case Tee(cores) => CheckAllMovesOwnCounters(w, cores, ent, ce, id);
      case Hooked(core, _) => CheckMovesOwnCounters(w, core, ent, ce, id);
      case Filter(core, _) => CheckMovesOwnCounters(w, core, ent, ce, id);
      case Sampling(core, other, cfg) => CheckMovesOwnCounters(Sample(w, other, cfg, ent).0, core, ent, ce, id);
      case Lazy(cell, original, fields) =>
        InitKeepsWorld(w, original);
        WithAddsNoSampler(original, fields, id);
        CheckMovesOwnCounters(InitOnce(w, cell, original), Applied(original, fields), ent, ce, id);
      case _ =>
    }
  }

  lemma {:induction false} CheckAllMovesOwnCounters(w: World, cores: seq<Core>, ent: Entry, ce: Option<Checked>,
                                                    id: nat)
    requires AllLack(cores, id)
    ensures Untouched(CheckAll(w, cores, ent, ce).0, w, id)
    decreases TotalWeight(cores)
  {
    if cores != [] {
      CheckMovesOwnCounters(w, cores[0], ent, ce, id);
      var (w', ce') := Check(w, cores[0], ent, ce);
      CheckAllMovesOwnCounters(w', cores[1..], ent, ce', id);
    }
  }

  // ---- A sampler and its children ----

  /** An entry checked by the child that was given these fields. */
  datatype Call = Call(fields: seq<Field>, ent: Entry)

  /** The entry as a sampler over `core` sees it. */
  function RecordOf(w: World, core: Core, ent: Entry): (e: Sampler.Record) {
    Sampler.Record(ent.level, ent.message, ent.time, Enabled(w, core, ent.level))
  }

  /** Every counter of the sampler stands where its own bucket's entries have put it. */
  ghost predicate Tracks(w: World, id: nat, cfg: Sampler.Settings, es: seq<Sampler.Record>) {
    forall row: int, slot: nat ::
      CellAt(w, CounterKey(id, row, slot)) == Sampler.After(Sampler.ZERO_CELL, Sampler.TimesOf(es, row, slot), cfg.tick)
  }

  lemma SampleTracks(w: World, id: nat, cfg: Sampler.Settings, es: seq<Sampler.Record>, core: Core, ent: Entry)
    requires Tracks(w, id, cfg, es) && Enabled(w, core, ent.level)
    ensures Tracks(Sample(w, id, cfg, ent).0, id, cfg, es + [RecordOf(w, core, ent)])
    ensures Sample(w, id, cfg, ent).1
      <==> Sampler.DecisionFor(cfg, es + [RecordOf(w, core, ent)]) in {Sampler.Sampled, Sampler.PassedThrough}
  {
    hide Sampler.After, Sampler.TimesOf, Hash.Slot, Sampler.Inc, Sampler.Admits;
    var e := RecordOf(w, core, ent);
    forall row: int, slot: nat
      ensures CellAt(Sample(w, id, cfg, ent).0, CounterKey(id, row, slot))
           == Sampler.After(Sampler.ZERO_CELL, Sampler.TimesOf(es + [e], row, slot), cfg.tick)
    {
      Sampler.NextTime(es, e, row, slot, cfg.tick);
    }
  }

  lemma DisabledTracks(w: World, id: nat, cfg: Sampler.Settings, es: seq<Sampler.Record>, core: Core, ent: Entry)
    requires Tracks(w, id, cfg, es) && !Enabled(w, core, ent.level)
    ensures Tracks(w, id, cfg, es + [RecordOf(w, core, ent)])
  {
    hide Sampler.After, Sampler.TimesOf, Hash.Slot, Sampler.Inc;
    var e := RecordOf(w, core, ent);
    forall row: int, slot: nat
      ensures CellAt(w, CounterKey(id, row, slot))
           == Sampler.After(Sampler.ZERO_CELL, Sampler.TimesOf(es + [e], row, slot), cfg.tick)
    {
      Sampler.NextTime(es, e, row, slot, cfg.tick);
    }
  }

  /**
   One check by any child: dropped and disabled entries get nothing; the others get what the
   wrapped core, with the child's fields, makes of them. The shared counters follow the history.
   */
  lemma ChildCheck(w: World, core: Core, id: nat, cfg: Sampler.Settings, es: seq<Sampler.Record>, call: Call)
    requires Lacks(core, id) && Tracks(w, id, cfg, es)
    ensures var child := Applied(Sampling(core, id, cfg), call.fields);
      var e := RecordOf(w, core, call.ent);
      var d := Sampler.DecisionFor(cfg, es + [e]);
      var (w', ce) := Check(w, child, call.ent, None);
      && w'.levels == w.levels && Tracks(w', id, cfg, es + [e])
      && ce == if d in {Sampler.Sampled, Sampler.PassedThrough}
               then Check(Sample(w, id, cfg, call.ent).0, Applied(core, call.fields), call.ent, None).1 else None
  {
    hide Sample, Sampler.DecisionFor;
    var inner := Applied(core, call.fields);
    WithKeepsEnabled(w, core, call.fields, call.ent.level);
    WithAddsNoSampler(core, call.fields, id);
    if Enabled(w, core, call.ent.level) {
      SampleTracks(w, id, cfg, es, core, call.ent);
      SampleKeepsLevels(w, id, cfg, call.ent);
      CheckMovesOwnCounters(Sample(w, id, cfg, call.ent).0, inner, call.ent, None, id);
    } else {
      DisabledTracks(w, id, cfg, es, core, call.ent);
      DisabledDecision(cfg, es, RecordOf(w, core, call.ent));
    }
  }

  lemma SampleKeepsLevels(w: World, id: nat, cfg: Sampler.Settings, ent: Entry)
    ensures Sample(w, id, cfg, ent).0.levels == w.levels
  {
  }

  lemma DisabledDecision(cfg: Sampler.Settings, es: seq<Sampler.Record>, e: Sampler.Record)
    requires !e.enabled
    ensures Sampler.DecisionFor(cfg, es + [e]) == Sampler.Disabled
  {
  }

  // ---- Cores that accept what they enable ----

  /** No sampler below, and every filter allows the level only if what it filters does. */
  predicate Honest(w: World, c: Core, level: int)
    decreases c
  {
    match c
    case Tee(cores) => AllHonest(w, cores, level)
    case Hooked(core, _) => Honest(w, core, level)
    case Filter(core, en) => Honest(w, core, level) && (Allows(w, en, level) ==> Enabled(w, core, level))
    case Sampling(_, _, _) => false
    case Lazy(_, original, _) => Honest(w, original, level)
    case _ => true
  }

  predicate AllHonest(w: World, cores: seq<Core>, level: int)
    decreases cores
  {
    cores != [] ==> Honest(w, cores[0], level) && AllHonest(w, cores[1..], level)
  }

  lemma {:induction false} WithKeepsHonest(w: World, c: Core, fs: seq<Field>, level: int)
    requires Honest(w, c, level)
    ensures Honest(w, Applied(c, fs), level)
    decreases Weight(c)
  {
    match c {
      case Tee(cores) => WithKeepsAllHonest(w, cores, fs, level);
      case Hooked(core, _) => WithKeepsHonest(w, core, fs, level);
      case Filter(core, _) =>
        WithKeepsHonest(w, core, fs, level);
        WithKeepsEnabled(w, core, fs, level);
      case Lazy(_, original, fields) =>
        WithKeepsHonest(w, original, fields, level);
        WithKeepsHonest(w, Applied(original, fields), fs, level);
      case _ =>
    }
  }

  lemma {:induction false} WithKeepsAllHonest(w: World, cores: seq<Core>, fs: seq<Field>, level: int)
    requires AllHonest(w, cores, level)
    ensures AllHonest(w, AppliedAll(cores, fs), level)
    decreases TotalWeight(cores)
  {
    if cores != [] {
      WithKeepsHonest(w, cores[0], fs, level);
      WithKeepsAllHonest(w, cores[1..], fs, level);
      assert AppliedAll(cores, fs)[1..] == AppliedAll(cores[1..], fs);
    }
  }

  /** Honesty depends on the atomic levels alone. */
  lemma {:induction false} HonestByLevels(w1: World, w2: World, c: Core, level: int)
    requires w1.levels == w2.levels
    ensures Honest(w1, c, level) == Honest(w2, c, level)
    decreases c
  {
    match c {
      case Tee(cores) => AllHonestByLevels(w1, w2, cores, level);
      case Hooked(core, _) => HonestByLevels(w1, w2, core, level);
      case Filter(core, _) =>
        HonestByLevels(w1, w2, core, level);
        EnabledByLevels(w1, w2, core, level);
      case Lazy(_, original, _) => HonestByLevels(w1, w2, original, level);
      case _ =>
    }
  }

  lemma {:induction false} AllHonestByLevels(w1: World, w2: World, cores: seq<Core>, level: int)
    requires w1.levels == w2.levels
    ensures AllHonest(w1, cores, level) == AllHonest(w2, cores, level)
    decreases cores
  {
    if cores != [] {
      HonestByLevels(w1, w2, cores[0], level);
      AllHonestByLevels(w1, w2, cores[1..], level);
    }
  }

  /** Check moves no atomic level. */
  lemma {:induction false} CheckKeepsLevels(w: World, c: Core, ent: Entry, ce: Option<Checked>)
    ensures Check(w, c, ent, ce).0.levels == w.levels
    decreases Weight(c)
  {
    match c {
      case Tee(cores) => CheckAllKeepsLevels(w, cores, ent, ce);
      case Hooked(core, _) => CheckKeepsLevels(w, core, ent, ce);
      case Filter(core, _) => CheckKeepsLevels(w, core, ent, ce);
      case Sampling(core, id, cfg) => CheckKeepsLevels(Sample(w, id, cfg, ent).0, core, ent, ce);
      case Lazy(cell, original, fields) =>
        InitKeepsWorld(w, original);
        CheckKeepsLevels(InitOnce(w, cell, original), Applied(original, fields), ent, ce);
      case _ =>
    }
  }

  lemma {:induction false} CheckAllKeepsLevels(w: World, cores: seq<Core>, ent: Entry, ce: Option<Checked>)
    ensures CheckAll(w, cores, ent, ce).0.levels == w.levels
    decreases TotalWeight(cores)
  {
    if cores != [] {
      CheckKeepsLevels(w, cores[0], ent, ce);
      var (w', ce') := Check(w, cores[0], ent, ce);
      CheckAllKeepsLevels(w', cores[1..], ent, ce');
    }
  }

  /** An honest tree accepts an entry exactly if it enables its level. */
  lemma {:induction false} HonestAccepts(w: World, c: Core, ent: Entry)
    requires Honest(w, c, ent.level)
    ensures Check(w, c, ent, None).1.Some? <==> Enabled(w, c, ent.level)
    decreases Weight(c)
  {
    match c {
      case Tee(cores) => AllHonestAccept(w, cores, ent, None);
      case Hooked(core, _) => HonestAccepts(w, core, ent);
      case Filter(core, _) => HonestAccepts(w, core, ent);
      case Lazy(cell, original, fields) =>
        var w' := InitOnce(w, cell, original);
        InitKeepsWorld(w, original);
        WithKeepsHonest(w, original, fields, ent.level);
        WithKeepsEnabled(w, original, fields, ent.level);
        HonestByLevels(w, w', Applied(original, fields), ent.level);
        EnabledByLevels(w, w', Applied(original, fields), ent.level);
        HonestAccepts(w', Applied(original, fields), ent);
      case _ =>
    }
  }

  lemma {:induction false} AllHonestAccept(w: World, cores: seq<Core>, ent: Entry, ce: Option<Checked>)
    requires AllHonest(w, cores, ent.level)
    ensures CheckAll(w, cores, ent, ce).1.Some? <==> ce.Some? || AnyEnabled(w, cores, ent.level)
    decreases TotalWeight(cores)
  {
    if cores != [] {
      HonestAccepts(w, cores[0], ent);
      CheckAdds(w, cores[0], ent, ce);
      CheckKeepsLevels(w, cores[0], ent, ce);
      var (w', ce') := Check(w, cores[0], ent, ce);
      AllHonestByLevels(w, w', cores[1..], ent.level);
      AnyEnabledByLevels(w, w', cores[1..], ent.level);
      AllHonestAccept(w', cores[1..], ent, ce');
    }
  }

  // ---- Runs ----

  /** The calls as the sampler sees them; levels do not change during the run. */
  function Records(w: World, core: Core, calls: seq<Call>): (es: seq<Sampler.Record>)
    ensures |es| == |calls|
  {
    seq(|calls|, i requires 0 <= i < |calls| => RecordOf(w, core, calls[i].ent))
  }

  /** The world after the calls, each checked by its own child. */
  function Checks(w: World, core: Core, id: nat, cfg: Sampler.Settings, calls: seq<Call>): (r: World)
  {
    if calls == [] then w
    else
      var n := |calls| - 1;
      var w' := Checks(w, core, id, cfg, calls[..n]);
      Check(w', Applied(Sampling(core, id, cfg), calls[n].fields), calls[n].ent, None).0
  }

  /** Entries of a bucket that were accepted. */
  function AcceptedIn(w: World, core: Core, id: nat, cfg: Sampler.Settings, calls: seq<Call>,
                      row: int, slot: int): (k: nat)
  {
    if calls == [] then 0
    else
      var n := |calls| - 1;
      var w' := Checks(w, core, id, cfg, calls[..n]);
      var ce := Check(w', Applied(Sampling(core, id, cfg), calls[n].fields), calls[n].ent, None).1;
      AcceptedIn(w, core, id, cfg, calls[..n], row, slot)
      + if Sampler.InBucket(RecordOf(w, core, calls[n].ent), row, slot) && ce.Some? then 1 else 0
  }

  lemma RecordsPush(w: World, core: Core, calls: seq<Call>)
    requires calls != []
    ensures var n := |calls| - 1;
      Records(w, core, calls) == Records(w, core, calls[..n]) + [RecordOf(w, core, calls[n].ent)]
  {
  }

  /** Over every run, whichever child makes each call, the counters are those of one sampler that saw them all. */
  lemma {:induction false} RunTracks(w: World, core: Core, id: nat, cfg: Sampler.Settings, calls: seq<Call>)
    requires Lacks(core, id) && Tracks(w, id, cfg, [])
    ensures var r := Checks(w, core, id, cfg, calls);
      r.levels == w.levels && Tracks(r, id, cfg, Records(w, core, calls))
    decreases |calls|
  {
    hide Tracks, Check, Applied;
    if calls == [] {
      assert Records(w, core, calls) == [];
    } else {
      var n := |calls| - 1;
      var w' := Checks(w, core, id, cfg, calls[..n]);
      RunTracks(w, core, id, cfg, calls[..n]);
      RecordsPush(w, core, calls);
      EnabledByLevels(w, w', core, calls[n].ent.level);
      ChildCheck(w', core, id, cfg, Records(w, core, calls[..n]), calls[n]);
    }
  }

  /** The last call of a run over an honest core is accepted exactly if the one sampler would let it through. */
  lemma LastAccepted(w: World, core: Core, id: nat, cfg: Sampler.Settings, calls: seq<Call>)
    requires calls != [] && Lacks(core, id) && Tracks(w, id, cfg, [])
    requires Honest(w, core, calls[|calls| - 1].ent.level)
    ensures var n := |calls| - 1;
      var w' := Checks(w, core, id, cfg, calls[..n]);
      var d := Sampler.DecisionFor(cfg, Records(w, core, calls));
      Check(w', Applied(Sampling(core, id, cfg), calls[n].fields), calls[n].ent, None).1.Some?
      <==> d in {Sampler.Sampled, Sampler.PassedThrough}
  {
    hide Tracks, Sampler.DecisionFor, Check, Sample, Applied;
    var n := |calls| - 1;
    var fs, ent := calls[n].fields, calls[n].ent;
    var w' := Checks(w, core, id, cfg, calls[..n]);
    RunTracks(w, core, id, cfg, calls[..n]);
    RecordsPush(w, core, calls);
    EnabledByLevels(w, w', core, ent.level);
    ChildCheck(w', core, id, cfg, Records(w, core, calls[..n]), calls[n]);
    if !Enabled(w', core, ent.level) {
      DisabledDecision(cfg, Records(w, core, calls[..n]), RecordOf(w, core, ent));
    } else {
      var sampled := Sample(w', id, cfg, ent).0;
      SampleKeepsLevels(w', id, cfg, ent);
      HonestByLevels(w, sampled, core, ent.level);
      WithKeepsHonest(sampled, core, fs, ent.level);
      EnabledByLevels(w', sampled, core, ent.level);
      WithKeepsEnabled(sampled, core, fs, ent.level);
      HonestAccepts(sampled, Applied(core, fs), ent);
    }
  }

  lemma {:induction false} AcceptedAreSampled(w: World, core: Core, id: nat, cfg: Sampler.Settings, calls: seq<Call>,
                                              row: int, slot: int)
    requires Lacks(core, id) && Tracks(w, id, cfg, [])
    requires forall call :: call in calls ==> Honest(w, core, call.ent.level)
    ensures AcceptedIn(w, core, id, cfg, calls, row, slot) == Sampler.SampledIn(cfg, Records(w, core, calls), row, slot)
    decreases |calls|
  {
    hide Tracks, Check, Applied, Checks, Honest, Hash.Slot, Sampler.After, Sampler.TimesOf;
    if calls == [] {
      assert Records(w, core, calls) == [];
    } else {
      var n := |calls| - 1;
      assert calls[n] in calls;
      AcceptedAreSampled(w, core, id, cfg, calls[..n], row, slot);
      LastAccepted(w, core, id, cfg, calls);
      RecordsPush(w, core, calls);
      var es := Records(w, core, calls);
      assert es[..|es| - 1] == Records(w, core, calls[..n]);
    }
  }

  /**
   One quota for a sampled core and every logger made from it by With: over any run through any
   of them, each level and slot accepts exactly the quotas of its windows. The core is any tree
   without further samplers whose filters do what NewIncreaseLevelCore checks of them.
   */
  lemma ChildrenShareTheQuota(w: World, core: Core, id: nat, cfg: Sampler.Settings, calls: seq<Call>,
                              row: int, slot: int)
    requires Lacks(core, id) && Tracks(w, id, cfg, [])
    requires forall call :: call in calls ==> call.ent.time >= 0 && Honest(w, core, call.ent.level)
    ensures AcceptedIn(w, core, id, cfg, calls, row, slot)
      == Sampler.TotalQuota(Sampler.Windows(Sampler.TimesOf(Records(w, core, calls), row, slot), cfg.tick),
                            cfg.first, cfg.thereafter)
  {
    hide Tracks, AcceptedIn, Honest, Sampler.SampledIn, Sampler.TotalQuota, Sampler.Windows, Sampler.TimesOf;
    AcceptedAreSampled(w, core, id, cfg, calls, row, slot);
    Sampler.BucketQuota(cfg, Records(w, core, calls), row, slot);
  }
}
