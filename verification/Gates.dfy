/**
 Which io cores of a tree an entry reaches: those with every gate on the way to them open.
 */
module Gates {
  import opened Utf8
  import opened EncoderOps
  import opened Cores

  /** Every level filter on the way to the leaf, and its own enabler, allow the level. */
  predicate Open(w: World, c: Core, path: seq<nat>, level: int)
    decreases path
  {
    if path == [] then c.Io? && Allows(w, c.enab, level)
    else
      match c
      case Tee(cores) => path[0] < |cores| && Open(w, cores[path[0]], path[1..], level)
      case Hooked(core, _) => Open(w, core, path[1..], level)
      case Filter(core, en) => Allows(w, en, level) && Open(w, core, path[1..], level)
      case Sampling(core, _, _) => Open(w, core, path[1..], level)
      case Lazy(_, original, _) => Open(w, original, path[1..], level)
      case _ => false
  }

  predicate Unsampled(c: Core)
    decreases c
  {
    match c
    case Tee(cores) => NoneSampled(cores)
    case Hooked(core, _) => Unsampled(core)
    case Filter(core, _) => Unsampled(core)
    case Sampling(_, _, _) => false
    case Lazy(_, original, _) => Unsampled(original)
    case _ => true
  }

  predicate NoneSampled(cores: seq<Core>)
    decreases cores
  {
    cores != [] ==> Unsampled(cores[0]) && NoneSampled(cores[1..])
  }

  lemma {:induction false} OpenByLevels(w1: World, w2: World, c: Core, path: seq<nat>, level: int)
    requires w1.levels == w2.levels
    ensures Open(w1, c, path, level) == Open(w2, c, path, level)
    decreases path
  {
    if path != [] {
      match c {
        case Tee(cores) =>
          if path[0] < |cores| {
            OpenByLevels(w1, w2, cores[path[0]], path[1..], level);
          }
        case Hooked(core, _) => OpenByLevels(w1, w2, core, path[1..], level);
        case Filter(core, _) => OpenByLevels(w1, w2, core, path[1..], level);
        case Sampling(core, _, _) => OpenByLevels(w1, w2, core, path[1..], level);
        case Lazy(_, original, _) => OpenByLevels(w1, w2, original, path[1..], level);
        case _ =>
      }
    }
  }

  lemma {:induction false} CheckKeepsLevels(w: World, c: Core, ent: Entry, ce: Option<Checked>)
    ensures Check(w, c, ent, ce).0.levels == w.levels
    decreases Weight(c)
  {
    match c {
      case Tee(cores) => CheckAllKeepsLevels(w, cores, ent, ce);
      case Hooked(core, _) => CheckKeepsLevels(w, core, ent, ce);
      case Filter(core, _) => CheckKeepsLevels(w, core, ent, ce);
      case Sampling(core, id, cfg) => CheckKeepsLevels(Sample(w, id, cfg, ent).0, core, ent, ce);
      case Lazy(cell, original, fields) =>
        InitKeepsWorld(w, original);
        CheckKeepsLevels(InitOnce(w, cell, original), Applied(original, fields), ent, ce);
      case _ =>
    }
  }

  lemma {:induction false} CheckAllKeepsLevels(w: World, cores: seq<Core>, ent: Entry, ce: Option<Checked>)
    ensures CheckAll(w, cores, ent, ce).0.levels == w.levels
    decreases TotalWeight(cores)
  {
    if cores != [] {
      CheckKeepsLevels(w, cores[0], ent, ce);
      var (w', ce') := Check(w, cores[0], ent, ce);
      CheckAllKeepsLevels(w', cores[1..], ent, ce');
    }
  }

  lemma {:induction false} TargetsOfBoth(a: seq<Core>, b: seq<Core>)
    ensures AllTargets(a + b) == AllTargets(a) + AllTargets(b)
    decreases a
  {
    hide Targets;
    if a == [] {
      assert a + b == b;
    } else {
      assert (a + b)[1..] == a[1..] + b;
      TargetsOfBoth(a[1..], b);
    }
  }

  lemma OneTarget(c: Core)
    ensures AllTargets([c]) == Targets(c)
  {
    hide Targets;
    assert [c][1..] == [];
  }

  /** With no sampler in the tree, a leaf behind open gates gets the entry. */
  lemma {:induction false} OpenLeavesGet(w: World, c: Core, path: seq<nat>, t: Target, ent: Entry, accepted: bool)
    requires NoLazy(c) && Unsampled(c) && t.ToSink? && LeafAt(c, path, t) && Open(w, c, path, ent.level)
    ensures t in AllTargets(Joins(w, c, ent, accepted))
    decreases path, 0
  {
    if path == [] {
      OneTarget(c);
    } else {
      match c {
        case Tee(cores) => OpenChildGets(w, cores, path[0], path[1..], t, ent, accepted);
        case Hooked(core, _) =>
          OpenLeavesGet(w, core, path[1..], t, ent, accepted);
          TargetsOfBoth(Joins(w, core, ent, accepted), [c]);
        case Filter(core, _) => OpenLeavesGet(w, core, path[1..], t, ent, accepted);
        case _ =>
      }
    }
  }

  lemma {:induction false} OpenChildGets(w: World, cores: seq<Core>, k: nat, path: seq<nat>, t: Target, ent: Entry,
                                         accepted: bool)
    requires NoneLazy(cores) && NoneSampled(cores) && k < |cores|
    requires t.ToSink? && LeafAt(cores[k], path, t) && Open(w, cores[k], path, ent.level)
    ensures t in AllTargets(JoinsAll(w, cores, ent, accepted))
    decreases path, k + 1
  {
    hide Joins, LeafAt, Open, Check;
    var first := Joins(w, cores[0], ent, accepted);
    var w' := Check(w, cores[0], ent, None).0;
    var rest := JoinsAll(w', cores[1..], ent, accepted || first != []);
    TargetsOfBoth(first, rest);
    if k == 0 {
      OpenLeavesGet(w, cores[0], path, t, ent, accepted);
    } else {
      CheckKeepsLevels(w, cores[0], ent, None);
      OpenByLevels(w, w', cores[k], path, ent.level);
      OpenChildGets(w', cores[1..], k - 1, path, t, ent, accepted || first != []);
    }
  }

  /** On any tree, samplers or not, no leaf gets an entry that a gate on the way to it refuses. */
  lemma {:induction false} OnlyOpenLeavesGet(w: World, c: Core, t: Target, ent: Entry, accepted: bool)
    returns (path: seq<nat>)
    requires NoLazy(c) && t.ToSink? && t in AllTargets(Joins(w, c, ent, accepted))
    ensures LeafAt(c, path, t) && Open(w, c, path, ent.level)
    decreases Weight(c)
  {
    match c {
      case Io(_, _, _) =>
        OneTarget(c);
        path := [];
      case Tee(cores) =>
        var k, rest := OnlyOpenChildrenGet(w, cores, t, ent, accepted);
        path := [k] + rest;
      case Hooked(core, _) =>
        TargetsOfBoth(Joins(w, core, ent, accepted), [c]);
        OneTarget(c);
        path := OnlyOpenLeavesGet(w, core, t, ent, accepted);
        path := [0] + path;
      case Filter(core, _) =>
        path := OnlyOpenLeavesGet(w, core, t, ent, accepted);
        path := [0] + path;
      case Sampling(core, id, cfg) =>
        var w' := Sample(w, id, cfg, ent).0;
        path := OnlyOpenLeavesGet(w', core, t, ent, accepted);
        OpenByLevels(w, w', core, path, ent.level);
        path := [0] + path;
    }
  }

  lemma {:induction false} OnlyOpenChildrenGet(w: World, cores: seq<Core>, t: Target, ent: Entry, accepted: bool)
    returns (k: nat, path: seq<nat>)
    requires NoneLazy(cores) && t.ToSink? && t in AllTargets(JoinsAll(w, cores, ent, accepted))
    ensures k < |cores| && LeafAt(cores[k], path, t) && Open(w, cores[k], path, ent.level)
    decreases TotalWeight(cores)
  {
    hide Joins, LeafAt, Open, Check;
    var first := Joins(w, cores[0], ent, accepted);
    var w' := Check(w, cores[0], ent, None).0;
    var rest := JoinsAll(w', cores[1..], ent, accepted || first != []);
    TargetsOfBoth(first, rest);
    if t in AllTargets(first) {
      k := 0;
      path := OnlyOpenLeavesGet(w, cores[0], t, ent, accepted);
    } else {
      k, path := OnlyOpenChildrenGet(w', cores[1..], t, ent, accepted || first != []);
      CheckKeepsLevels(w, cores[0], ent, None);
      OpenByLevels(w, w', cores[k + 1], path, ent.level);
      k := k + 1;
    }
  }
}
