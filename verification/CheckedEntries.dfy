/**
 The pooled CheckedEntry: the object with its slices updated in place, and every run of the pool
 against a model in which each holder has a private value.
 */
module CheckedEntries {
  import opened Utf8
  import opened EncoderOps
  import opened Cores

  /** What runs after a write. A custom hook may or may not return. */
  datatype Hook = Noop | Goexit | Panic | Fatal | Custom(id: nat, comesBack: bool)

  predicate Returns(hook: Hook) {
    hook.Noop? || (hook.Custom? && hook.comesBack)
  }

  /** A pre-write hook. */
  type PreHook = (Entry, seq<Field>) -> (Entry, seq<Field>)

  /** A hook run after a write: the checked entry's own Entry, and the fields as the pre-write hooks left them. */
  datatype Outcome = Ran(hook: Hook, ent: Entry, fields: seq<Field>)

  /** What is printed to an error output: that an entry was written again, or that cores returned errors. */
  datatype Complaint = Reused(out: nat, ent: Entry) | WriteErrors(out: nat, ent: Entry)

  /** What writes can be observed by: cores, after-hooks, and complaints. */
  datatype System = System(world: World, outcomes: seq<Outcome>, complaints: seq<Complaint>)

  const ZERO_ENTRY := Entry(0, [], 0)

  // ---- Slices ----

  /** A slice: a backing array and a length. Unused slots are nil. */
  datatype Slice<T> = Slice(slots: seq<Option<T>>, len: nat)

  /** Nothing is kept beyond the length. */
  predicate Tidy<T>(s: Slice<T>) {
    s.len <= |s.slots| && forall i :: s.len <= i < |s.slots| ==> s.slots[i].None?
  }

  predicate Filled<T>(s: Slice<T>) {
    Tidy(s) && forall i :: 0 <= i < s.len ==> s.slots[i].Some?
  }

  function Elems<T>(s: Slice<T>): (r: seq<T>)
    requires Filled(s)
    ensures |r| == s.len && forall i :: 0 <= i < s.len ==> s.slots[i] == Some(r[i])
  {
    seq(s.len, i requires 0 <= i < s.len => s.slots[i].value)
  }

  /** `append`: in place while there is room, and otherwise in a longer array. */
  function Append<T>(s: Slice<T>, x: T): (r: Slice<T>)
    requires Filled(s)
    ensures Filled(r) && Elems(r) == Elems(s) + [x]
  {
    if s.len < |s.slots| then Slice(s.slots[s.len := Some(x)], s.len + 1)
    else Slice(s.slots + [Some(x)], s.len + 1)
  }

  function Nils<T>(n: nat): (s: seq<Option<T>>)
    ensures |s| == n && forall i :: 0 <= i < n ==> s[i].None?
  {
    seq(n, i => None)
  }

  /** The loop of `reset`: nil out the elements, then cut the length. */
  method Clear<T>(s: Slice<T>) returns (r: Slice<T>)
    requires Tidy(s)
    ensures r == Slice(Nils(|s.slots|), 0)
  {
    var slots := s.slots;
    for i := 0 to s.len
      invariant |slots| == |s.slots|
      invariant forall j :: 0 <= j < i || s.len <= j < |slots| ==> slots[j].None?
    {
      slots := slots[i := None];
    }
    assert slots == Nils(|s.slots|);
    r := Slice(slots, 0);
  }

  // ---- What a holder sees ----

  /** A checked entry as its holder means it. */
  datatype Pending = Pending(
    ent: Entry,
    cores: seq<Core>,
    before: seq<PreHook>,
    after: Option<Hook>,
    errorOutput: Option<nat>)

  function Fresh(ent: Entry): (p: Pending) {
    Pending(ent, [], [], None, None)
  }

  /** Entry and fields folded through the pre-write hooks, first hook first. */
  function Folded(before: seq<PreHook>, ent: Entry, fs: seq<Field>): (r: (Entry, seq<Field>))
    decreases |before|
  {
    if before == [] then (ent, fs)
    else
      var n := |before| - 1;
      var (ent', fs') := Folded(before[..n], ent, fs);
      before[n](ent', fs')
  }

  /** The complaint of a write, if it knows where to make it. */
  function WriteComplaint(w: World, p: Pending): (r: seq<Complaint>) {
    if p.errorOutput.Some? && AnyWriteError(w, p.cores) then [WriteErrors(p.errorOutput.value, p.ent)] else []
  }

  /** A write: every core once, in order, errors or not; then a complaint if there were any; then the after-hook. */
  function Delivered(sys: System, p: Pending, fs: seq<Field>): (r: System) {
    var (ent', fs') := Folded(p.before, p.ent, fs);
    System(
      WriteAll(sys.world, p.cores, ent', fs'),
      if p.after.Some? then sys.outcomes + [Ran(p.after.value, p.ent, fs')] else sys.outcomes,
      sys.complaints + WriteComplaint(sys.world, p))
  }

  /** The hook added first runs first, on what the holder gave; the others run on what it returns. */
  lemma {:induction false} FirstHookFirst(first: PreHook, rest: seq<PreHook>, ent: Entry, fs: seq<Field>)
    ensures Folded([first] + rest, ent, fs) == Folded(rest, first(ent, fs).0, first(ent, fs).1)
    decreases |rest|
  {
    var all, n := [first] + rest, |rest|;
    if n == 0 {
      assert all[..0] == [];
    } else {
      assert all[..n] == [first] + rest[..n - 1];
      FirstHookFirst(first, rest[..n - 1], ent, fs);
    }
  }

  /** A write adds to the log what the targets of its cores receive, of the folded entry and fields. */
  lemma DeliveredWrites(sys: System, p: Pending, fs: seq<Field>)
    ensures var (ent', fs') := Folded(p.before, p.ent, fs);
      Emitted(sys.world, Delivered(sys, p, fs).world, Effects(AllTargets(p.cores), ent', fs', sys.world.broken))
  {
    hide Effects, WriteAll, Folded;
    var (ent', fs') := Folded(p.before, p.ent, fs);
    WriteReachesAllTargets(sys.world, p.cores, ent', fs');
  }

  lemma WriteAllSnoc(w: World, cores: seq<Core>, c: Core, ent: Entry, fs: seq<Field>)
    ensures WriteAll(w, cores + [c], ent, fs) == Write(WriteAll(w, cores, ent, fs), c, ent, fs)
    decreases cores
  {
    hide Write;
    if cores == [] {
      assert (cores + [c])[1..] == [];
    } else {
      assert (cores + [c])[1..] == cores[1..] + [c];
      WriteAllSnoc(Write(w, cores[0], ent, fs), cores[1..], c, ent, fs);
    }
  }

  lemma {:induction false} MoreFailures(w: World, cores: seq<Core>, c: Core)
    ensures AnyWriteError(w, cores + [c]) <==> AnyWriteError(w, cores) || WriteError(w, c)
    decreases cores
  {
    hide WriteError;
    if cores == [] {
      assert (cores + [c])[1..] == [];
    } else {
      assert (cores + [c])[1..] == cores[1..] + [c];
      MoreFailures(w, cores[1..], c);
    }
  }

  // ---- The object ----

  /** The fields of a checked entry. */
  datatype Record = Record(
    ent: Entry,
    errorOutput: Option<nat>,
    dirty: bool,
    after: Option<Hook>,
    cores: Slice<Core>,
    before: Slice<PreHook>)

  /** Fit to be in the pool: whatever an earlier use left is within the slices' lengths. */
  predicate Poolable(r: Record) {
    Tidy(r.cores) && Tidy(r.before)
  }

  predicate Usable(r: Record) {
    Filled(r.cores) && Filled(r.before)
  }

  function Meaning(r: Record): (p: Pending)
    requires Usable(r)
  {
    Pending(r.ent, Elems(r.cores), Elems(r.before), r.after, r.errorOutput)
  }

  /** A new pool member has room for four cores, all nil. */
  const NEW_RECORD := Record(ZERO_ENTRY, None, false, None, Slice([None, None, None, None], 4), Slice([], 0))

  /** No core, hook or flag of an earlier use is left, not even in the unused slots. */
  function ResetRecord(r: Record): (r': Record)
    requires Poolable(r)
    ensures Usable(r') && !r'.dirty && Meaning(r') == Fresh(ZERO_ENTRY)
    ensures forall x :: x in r'.cores.slots ==> x.None?
    ensures forall x :: x in r'.before.slots ==> x.None?
  {
    Record(ZERO_ENTRY, None, false, None, Slice(Nils(|r.cores.slots|), 0), Slice(Nils(|r.before.slots|), 0))
  }

  class CheckedEntry {
    var ent: Entry
    var errorOutput: Option<nat>
    var dirty: bool
    var after: Option<Hook>
    var cores: Slice<Core>
    var before: Slice<PreHook>

    ghost function Value(): (r: Record)
      reads this
    {
      Record(ent, errorOutput, dirty, after, cores, before)
    }

    ghost predicate Valid()
      reads this
    {
      Usable(Value())
    }

    ghost function View(): (p: Pending)
      requires Valid()
      reads this
    {
      Meaning(Value())
    }

    constructor ()
      ensures Value() == NEW_RECORD
    {
      ent, errorOutput, dirty, after := ZERO_ENTRY, None, false, None;
      cores := Slice([None, None, None, None], 4);
      before := Slice([], 0);
    }

    method Reset()
      requires Poolable(Value())
      modifies this
      ensures Value() == ResetRecord(old(Value()))
      ensures Valid() && !dirty && View() == Fresh(ZERO_ENTRY)
    {
      ent, errorOutput, dirty, after := ZERO_ENTRY, None, false, None;
      cores := Clear(cores);
      before := Clear(before);
    }

    method AddCore(core: Core)
      requires Valid()
      modifies this`cores
      ensures Value() == old(Value()).(cores := Append(old(cores), core))
      ensures Valid() && View() == old(View()).(cores := old(View()).cores + [core])
    {
      cores := Append(cores, core);
    }

    method Before(pre: PreHook)
      requires Valid()
      modifies this`before
      ensures Value() == old(Value()).(before := Append(old(before), pre))
      ensures Valid() && View() == old(View()).(before := old(View()).before + [pre])
    {
      before := Append(before, pre);
    }

    method After(hook: Hook)
      requires Valid()
      modifies this`after
      ensures Value() == old(Value()).(after := Some(hook))
      ensures Valid() && View() == old(View()).(after := Some(hook))
    {
      after := Some(hook);
    }

    /** The first loop of Write. */
    method RunBefore(fs: seq<Field>) returns (ent': Entry, fs': seq<Field>)
      requires Valid()
      ensures (ent', fs') == Folded(View().before, ent, fs)
    {
      ent', fs' := ent, fs;
      for i := 0 to before.len
        invariant (ent', fs') == Folded(View().before[..i], ent, fs)
      {
        ghost var hooks := View().before;
        assert hooks[..i + 1][..i] == hooks[..i];
        var result := before.slots[i].value(ent', fs');
        ent', fs' := result.0, result.1;
      }
      assert View().before[..before.len] == View().before;
    }

    /** The second loop of Write: an error does not keep later cores from being written. */
    method WriteCores(w: World, ent': Entry, fs': seq<Field>) returns (r: World, failed: bool)
      requires Valid()
      ensures r == WriteAll(w, View().cores, ent', fs')
      ensures failed <==> AnyWriteError(w, View().cores)
    {
      hide Cores.Write, WriteError;
      r, failed := w, false;
      for i := 0 to cores.len
        invariant r == WriteAll(w, View().cores[..i], ent', fs')
        invariant r.broken == w.broken && r.hookErrors == w.hookErrors
        invariant failed <==> AnyWriteError(w, View().cores[..i])
      {
        ghost var all := View().cores;
        assert all[..i + 1] == all[..i] + [all[i]];
        WriteAllSnoc(w, all[..i], all[i], ent', fs');
        SameFailures(w, r, all[i]);
        MoreFailures(w, all[..i], all[i]);
        WriteReachesEveryTarget(r, all[i], ent', fs');
        failed := failed || WriteError(r, cores.slots[i].value);
        r := Cores.Write(r, cores.slots[i].value, ent', fs');
      }
      assert View().cores[..cores.len] == View().cores;
    }

    /**
     Delivers once: a write of a dirty entry reaches no core and no hook, it only complains, if
     it knows where. The entry goes back to the pool unless its hook does not return.
     */
    method Write(sys: System, fs: seq<Field>) returns (r: System, put: bool)
      requires Valid()
      modifies this`dirty
      ensures Value() == old(Value()).(dirty := true)
      ensures Valid() && View() == old(View())
      ensures !old(dirty) ==> r == Delivered(sys, View(), fs)
      ensures !old(dirty) ==>
                var (ent', fs') := Folded(View().before, ent, fs);
                && Emitted(sys.world, r.world, Effects(AllTargets(View().cores), ent', fs', sys.world.broken))
                && r.outcomes == sys.outcomes + (if after.Some? then [Ran(after.value, ent, fs')] else [])
                && (errorOutput.None? || !AnyWriteError(sys.world, View().cores) ==> r.complaints == sys.complaints)
                && (errorOutput.Some? && AnyWriteError(sys.world, View().cores) ==>
                    r.complaints == sys.complaints + [WriteErrors(errorOutput.value, ent)])
      ensures !old(dirty) ==> (put <==> after.None? || Returns(after.value))
      ensures old(dirty) ==> !put && r.world == sys.world && r.outcomes == sys.outcomes
      ensures old(dirty) ==>
                r.complaints == sys.complaints + (if errorOutput.Some? then [Reused(errorOutput.value, ent)] else [])
    {
      if dirty {
        var complaint := if errorOutput.Some? then [Reused(errorOutput.value, ent)] else [];
        return sys.(complaints := sys.complaints + complaint), false;
      }
      dirty := true;
      var ent', fs' := RunBefore(fs);
      var w, failed := WriteCores(sys.world, ent', fs');
      r := System(w, sys.outcomes, sys.complaints);
      if failed && errorOutput.Some? {
        r := r.(complaints := r.complaints + [WriteErrors(errorOutput.value, ent)]);
      }
      put := true;
      if after.Some? {
        r := r.(outcomes := r.outcomes + [Ran(after.value, ent, fs')]);
        put := Returns(after.value);
      }
      DeliveredWrites(sys, View(), fs);
    }
  }

  // ---- Runs of the pool ----

  /**
   An operation by holder `h`. A holder with no entry starts one, from pool member `pick` if the
   pool has it and from a new object otherwise. Pools may forget members.
   */
  datatype Op =
    | AddCore(h: nat, ent: Entry, core: Core, pick: nat)
    | Before(h: nat, ent: Entry, pre: PreHook, pick: nat)
    | After(h: nat, ent: Entry, hook: Hook, pick: nat)
    | SetErrorOutput(h: nat, out: nat)
    | WriteEntry(h: nat, fields: seq<Field>)
    | Forget(pick: nat)

  /** All objects ever made, those in the pool, who holds what, and what has been observed. */
  datatype Pool = Pool(records: seq<Record>, free: set<nat>, held: map<nat, nat>, sys: System)

  /** The same with a private value for each holder. */
  datatype Private = Private(held: map<nat, Pending>, sys: System)

  predicate Valid(s: Pool) {
    && (forall id :: id in s.free ==> id < |s.records| && Poolable(s.records[id]))
    && (forall h :: h in s.held ==> s.held[h] < |s.records| && s.held[h] !in s.free)
    && (forall h :: h in s.held ==> Usable(s.records[s.held[h]]) && !s.records[s.held[h]].dirty)
    && (forall g, h :: g in s.held && h in s.held && s.held[g] == s.held[h] ==> g == h)
  }

  function RecordOf(s: Pool, h: nat): (r: Record)
    requires Valid(s) && h in s.held
    ensures Usable(r) && !r.dirty
  {
    s.records[s.held[h]]
  }

  /** Every holder has what it means to have, whatever passed through the pool before. */
  ghost predicate Refines(s: Pool, t: Private) {
    && Valid(s)
    && s.held.Keys == t.held.Keys
    && (forall h :: h in s.held ==> Meaning(RecordOf(s, h)) == t.held[h])
    && s.sys == t.sys
  }

  /** A record from the pool, for a holder without an entry. */
  function Reuse(s: Pool, h: nat, ent: Entry, pick: nat): (r: Pool)
    requires Valid(s) && h !in s.held && pick in s.free
    ensures Valid(r) && h in r.held
  {
    Pool(s.records[pick := ResetRecord(s.records[pick]).(ent := ent)], s.free - {pick}, s.held[h := pick], s.sys)
  }

  /** A new record. */
  function Grow(s: Pool, h: nat, ent: Entry): (r: Pool)
    requires Valid(s) && h !in s.held
    ensures Valid(r) && h in r.held
  {
    Pool(s.records + [ResetRecord(NEW_RECORD).(ent := ent)], s.free, s.held[h := |s.records|], s.sys)
  }

  /** `getCheckedEntry` for a holder without an entry. */
  function Obtain(s: Pool, h: nat, ent: Entry, pick: nat): (r: Pool)
    requires Valid(s)
    ensures Valid(r) && h in r.held
  {
    if h in s.held then s else if pick in s.free then Reuse(s, h, ent, pick) else Grow(s, h, ent)
  }

  function Own(t: Private, h: nat, ent: Entry): (r: Private)
    ensures h in r.held
  {
    if h in t.held then t else t.(held := t.held[h := Fresh(ent)])
  }

  lemma StartsFresh(r: Record, ent: Entry)
    requires Poolable(r)
    ensures var r' := ResetRecord(r).(ent := ent); Usable(r') && Meaning(r') == Fresh(ent)
  {
  }

  /** Handing an object that nobody holds to a new holder. */
  lemma HandOut(s: Pool, t: Private, s': Pool, h: nat, id: nat, p: Pending)
    requires Refines(s, t) && Valid(s')
    requires h !in s.held && forall g :: g in s.held ==> s.held[g] != id
    requires s'.held == s.held[h := id] && s'.sys == s.sys
    requires forall g :: g in s.held ==> s.held[g] < |s'.records| && s'.records[s.held[g]] == s.records[s.held[g]]
    requires Meaning(RecordOf(s', h)) == p
    ensures Refines(s', t.(held := t.held[h := p]))
  {
    hide Meaning, Usable;
    var t' := t.(held := t.held[h := p]);
    forall g | g in s'.held
      ensures Meaning(RecordOf(s', g)) == t'.held[g]
    {
      if g != h {
        assert RecordOf(s', g) == RecordOf(s, g);
      }
    }
  }

  lemma ObtainRefines(s: Pool, t: Private, h: nat, ent: Entry, pick: nat)
    requires Refines(s, t)
    ensures Refines(Obtain(s, h, ent, pick), Own(t, h, ent))
  {
    hide Meaning, Usable, Poolable, ResetRecord, Fresh;
    if h !in s.held {
      var s' := Obtain(s, h, ent, pick);
      StartsFresh(if pick in s.free then s.records[pick] else NEW_RECORD, ent);
      HandOut(s, t, s', h, s'.held[h], Fresh(ent));
    }
  }

  /** Puts a new record in the place of the one `h` holds. */
  function Put(s: Pool, h: nat, r: Record): (s': Pool)
    requires Valid(s) && h in s.held && Usable(r) && !r.dirty
    ensures Valid(s')
  {
    s.(records := s.records[s.held[h] := r])
  }

  lemma PutRefines(s: Pool, t: Private, h: nat, r: Record)
    requires Refines(s, t) && h in s.held && Usable(r) && !r.dirty
    ensures Refines(Put(s, h, r), t.(held := t.held[h := Meaning(r)]))
  {
    var s' := Put(s, h, r);
    assert forall g :: g in s.held && g != h ==> RecordOf(s', g) == RecordOf(s, g);
  }

  /** Write by a holder, who then drops the entry. */
  function Finish(s: Pool, h: nat, fs: seq<Field>): (s': Pool)
    requires Valid(s) && h in s.held
    ensures Valid(s')
  {
    var r := RecordOf(s, h);
    var id := s.held[h];
    Pool(
      s.records[id := r.(dirty := true)],
      if r.after.None? || Returns(r.after.value) then s.free + {id} else s.free,
      s.held - {h},
      Delivered(s.sys, Meaning(r), fs))
  }

  lemma FinishRefines(s: Pool, t: Private, h: nat, fs: seq<Field>)
    requires Refines(s, t) && h in s.held
    ensures Refines(Finish(s, h, fs), Private(t.held - {h}, Delivered(t.sys, t.held[h], fs)))
  {
    var s' := Finish(s, h, fs);
    assert forall g :: g in s'.held ==> RecordOf(s', g) == RecordOf(s, g);
  }

  function Step(s: Pool, op: Op): (s': Pool)
    requires Valid(s)
    ensures Valid(s')
  {
    match op
    case AddCore(h, ent, core, pick) =>
      var got := Obtain(s, h, ent, pick);
      var r := RecordOf(got, h);
      Put(got, h, r.(cores := Append(r.cores, core)))
    case Before(h, ent, pre, pick) =>
      var got := Obtain(s, h, ent, pick);
      var r := RecordOf(got, h);
      Put(got, h, r.(before := Append(r.before, pre)))
    case After(h, ent, hook, pick) =>
      var got := Obtain(s, h, ent, pick);
      Put(got, h, RecordOf(got, h).(after := Some(hook)))
    case SetErrorOutput(h, out) =>
      if h !in s.held then s else Put(s, h, RecordOf(s, h).(errorOutput := Some(out)))
    case WriteEntry(h, fs) => if h !in s.held then s else Finish(s, h, fs)
    case Forget(pick) => s.(free := s.free - {pick})
  }

  function PrivateStep(t: Private, op: Op): (t': Private) {
    match op
    case AddCore(h, ent, core, _) =>
      var own := Own(t, h, ent);
      own.(held := own.held[h := own.held[h].(cores := own.held[h].cores + [core])])
    case Before(h, ent, pre, _) =>
      var own := Own(t, h, ent);
      own.(held := own.held[h := own.held[h].(before := own.held[h].before + [pre])])
    case After(h, ent, hook, _) =>
      var own := Own(t, h, ent);
      own.(held := own.held[h := own.held[h].(after := Some(hook))])
    case SetErrorOutput(h, out) =>
      if h !in t.held then t else t.(held := t.held[h := t.held[h].(errorOutput := Some(out))])
    case WriteEntry(h, fs) =>
      if h !in t.held then t else Private(t.held - {h}, Delivered(t.sys, t.held[h], fs))
    case Forget(_) => t
  }

  lemma UpdatesMean(r: Record, core: Core, pre: PreHook, hook: Hook, out: nat)
    requires Usable(r)
    ensures var r' := r.(cores := Append(r.cores, core));
      Usable(r') && Meaning(r') == Meaning(r).(cores := Meaning(r).cores + [core])
    ensures var r' := r.(before := Append(r.before, pre));
      Usable(r') && Meaning(r') == Meaning(r).(before := Meaning(r).before + [pre])
    ensures var r' := r.(after := Some(hook)); Usable(r') && Meaning(r') == Meaning(r).(after := Some(hook))
    ensures var r' := r.(errorOutput := Some(out)); Usable(r') && Meaning(r') == Meaning(r).(errorOutput := Some(out))
  {
  }

  lemma StepRefines(s: Pool, t: Private, op: Op)
    requires Refines(s, t)
    ensures Refines(Step(s, op), PrivateStep(t, op))
  {
    hide Delivered, Obtain, Own, ResetRecord, Meaning, Put, Finish, Append, Usable;
    match op {
      case AddCore(h, ent, core, pick) =>
        ObtainRefines(s, t, h, ent, pick);
        var got := Obtain(s, h, ent, pick);
        var r := RecordOf(got, h);
        UpdatesMean(r, core, (e, f) => (e, f), Noop, 0);
        PutRefines(got, Own(t, h, ent), h, r.(cores := Append(r.cores, core)));
      case Before(h, ent, pre, pick) =>
        ObtainRefines(s, t, h, ent, pick);
        var got := Obtain(s, h, ent, pick);
        var r := RecordOf(got, h);
        UpdatesMean(r, Nop, pre, Noop, 0);
        PutRefines(got, Own(t, h, ent), h, r.(before := Append(r.before, pre)));
      case After(h, ent, hook, pick) =>
        ObtainRefines(s, t, h, ent, pick);
        var got := Obtain(s, h, ent, pick);
        var r := RecordOf(got, h);
        UpdatesMean(r, Nop, (e, f) => (e, f), hook, 0);
        PutRefines(got, Own(t, h, ent), h, r.(after := Some(hook)));
      case SetErrorOutput(h, out) =>
        if h in s.held {
          var r := RecordOf(s, h);
          UpdatesMean(r, Nop, (e, f) => (e, f), Noop, out);
          PutRefines(s, t, h, r.(errorOutput := Some(out)));
        }
      case WriteEntry(h, fs) =>
        if h in s.held {
          FinishRefines(s, t, h, fs);
        }
      case Forget(pick) =>
        assert forall g :: g in s.held ==> RecordOf(Step(s, op), g) == RecordOf(s, g);
    }
  }

  function Run(s: Pool, ops: seq<Op>): (s': Pool)
    requires Valid(s)
    ensures Valid(s')
    decreases ops
  {
    if ops == [] then s else Run(Step(s, ops[0]), ops[1..])
  }

  function PrivateRun(t: Private, ops: seq<Op>): (t': Private)
    decreases ops
  {
    if ops == [] then t else PrivateRun(PrivateStep(t, ops[0]), ops[1..])
  }

  /**
   The pool cannot be noticed: whichever members it hands out and forgets, every interleaving of
   holders delivers what it would if each holder had an entry of its own.
   */
  lemma {:induction false} PoolIsTransparent(s: Pool, t: Private, ops: seq<Op>)
    requires Refines(s, t)
    ensures Refines(Run(s, ops), PrivateRun(t, ops))
    decreases ops
  {
    hide Step, PrivateStep;
    if ops != [] {
      StepRefines(s, t, ops[0]);
      PoolIsTransparent(Step(s, ops[0]), PrivateStep(t, ops[0]), ops[1..]);
    }
  }
}
