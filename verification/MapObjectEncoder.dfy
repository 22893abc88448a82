/**
 `MapObjectEncoder` in place: heap maps linked through open namespaces, with `cur`
 pointing at the innermost, proved to build exactly `MapEncoder.MapOf` of its calls.
 */
module MapObjectEncoder {
  import opened Utf8
  import opened EncoderOps
  import opened JsonRendering
  import opened JsonFragments
  import opened JsonText
  import opened MapEncoder

  /** A Go map: entries are finished values, or a reference to the map of an open namespace. */
  class GoMap {
    var entries: map<Bytes, Slot>

    constructor ()
      ensures entries == map[]
    {
      entries := map[];
    }
  }

  datatype Slot = Done(d: Data) | Live(m: GoMap)

  /** One level of open namespaces: what is finished in it, and the key of the next level. */
  datatype Frame = Frame(done: map<Bytes, Data>, next: Bytes)

  /** The nested map that a stack of open namespaces amounts to. */
  function Closed(frames: seq<Frame>): (m: map<Bytes, Data>)
    requires frames != []
  {
    if |frames| == 1 then frames[0].done
    else frames[0].done[frames[0].next := DMap(Closed(frames[1..]))]
  }

  function Last(frames: seq<Frame>): (f: Frame)
    requires frames != []
  {
    frames[|frames| - 1]
  }

  /** The effect of one call on the stack. */
  function CallOn(style: Style, frames: seq<Frame>, op: ObjOp): (r: seq<Frame>)
    requires frames != [] && OpOk(style, op) && Encodes(op)
    ensures r != []
  {
    var n := |frames| - 1;
    if op.OpenNamespace? then frames[..n] + [Last(frames).(next := op.key)] + [Frame(map[], [])]
    else frames[..n] + [Last(frames).(done := Last(frames).done[op.key := OpData(style, op)])]
  }

  function CallsOn(style: Style, frames: seq<Frame>, ops: seq<ObjOp>): (r: seq<Frame>)
    requires frames != [] && Good(style, ops)
    ensures r != []
    decreases ops
  {
    if ops == [] then frames else CallsOn(style, CallOn(style, frames, ops[0]), ops[1..])
  }

  /** Levels below the innermost are never touched again, but for the map they lead to. */
  lemma {:induction false} OuterLevels(style: Style, f: Frame, frames: seq<Frame>, ops: seq<ObjOp>)
    requires frames != [] && Good(style, ops)
    ensures CallsOn(style, [f] + frames, ops) == [f] + CallsOn(style, frames, ops)
    decreases ops
  {
    hide OpOk, Encodes, OpData;
    if ops != [] {
      var n := |frames| - 1;
      assert ([f] + frames)[..n + 1] == [f] + frames[..n];
      assert CallOn(style, [f] + frames, ops[0]) == [f] + CallOn(style, frames, ops[0]);
      OuterLevels(style, f, CallOn(style, frames, ops[0]), ops[1..]);
    }
  }

  /** Running the calls on a stack and closing it is the recursive definition. */
  lemma {:induction false} StackBuildsMap(style: Style, m: map<Bytes, Data>, ops: seq<ObjOp>)
    requires Good(style, ops)
    ensures Closed(CallsOn(style, [Frame(m, [])], ops)) == MapOf(style, m, ops)
    decreases ops
  {
    hide OpOk, Encodes, OpData;
    if ops != [] {
      var frames := [Frame(m, [])];
      if ops[0].OpenNamespace? {
        var outer, inner := Frame(m, ops[0].key), [Frame(map[], [])];
        assert CallOn(style, frames, ops[0]) == [outer] + inner;
        OuterLevels(style, outer, inner, ops[1..]);
        StackBuildsMap(style, map[], ops[1..]);
        assert ([outer] + CallsOn(style, inner, ops[1..]))[1..] == CallsOn(style, inner, ops[1..]);
      } else {
        var m' := m[ops[0].key := OpData(style, ops[0])];
        assert CallOn(style, frames, ops[0]) == [Frame(m', [])];
        StackBuildsMap(style, m', ops[1..]);
      }
    }
  }

  function Finished(m: map<Bytes, Data>): (r: map<Bytes, Slot>) {
    map k | k in m :: Done(m[k])
  }

  class Encoder {
    const style: Style
    var fields: GoMap
    var cur: GoMap
    ghost var chain: seq<GoMap>
    ghost var frames: seq<Frame>

    ghost predicate Valid()
      reads this, chain
    {
      && |chain| == |frames| > 0
      && chain[0] == fields && chain[|chain| - 1] == cur
      && (forall i, j :: 0 <= i < j < |chain| ==> chain[i] != chain[j])
      && (forall i :: 0 <= i < |chain| - 1 ==>
            chain[i].entries == Finished(frames[i].done)[frames[i].next := Live(chain[i + 1])])
      && cur.entries == Finished(Last(frames).done)
    }

    constructor (style: Style)
      ensures Valid() && this.style == style && frames == [Frame(map[], [])]
      ensures fresh(cur)
    {
      this.style := style;
      var m := new GoMap();
      fields := m;
      cur := m;
      chain := [m];
      frames := [Frame(map[], [])];
    }

    /** `m.cur[k] = v` for a finished value. */
    method Put(k: Bytes, d: Data)
      requires Valid()
      modifies this, cur
      ensures Valid() && chain == old(chain) && fields == old(fields) && cur == old(cur)
      ensures frames == old(frames)[..|old(frames)| - 1] + [Last(old(frames)).(done := Last(old(frames)).done[k := d])]
    {
      cur.entries := cur.entries[k := Done(d)];
      var n := |frames| - 1;
      frames := frames[..n] + [Last(frames).(done := Last(frames).done[k := d])];
      assert Finished(Last(frames).done) == cur.entries;
    }

    method OpenNamespaceIn(k: Bytes)
      requires Valid()
      modifies this, cur
      ensures Valid() && fields == old(fields)
      ensures frames == old(frames)[..|old(frames)| - 1] + [Last(old(frames)).(next := k)] + [Frame(map[], [])]
      ensures |chain| == |old(chain)| + 1 && chain[..|old(chain)|] == old(chain) && fresh(cur)
    {
      var ns := new GoMap();
      cur.entries := cur.entries[k := Live(ns)];
      cur := ns;
      var n := |frames| - 1;
      frames := frames[..n] + [Last(frames).(next := k)] + [Frame(map[], [])];
      chain := chain + [ns];
    }

    /** The calls of a marshaler, in order. */
    method Marshal(ops: seq<ObjOp>)
      requires Valid() && Good(style, ops)
      modifies this, cur
      ensures Valid() && fields == old(fields)
      ensures frames == CallsOn(style, old(frames), ops)
      ensures cur == old(cur) || fresh(cur)
      decreases ops, 0
    {
      hide OpOk, Encodes, CallOn;
      if ops != [] {
        Call(ops[0]);
        Marshal(ops[1..]);
      }
    }

    method Call(op: ObjOp)
      requires Valid() && OpOk(style, op) && Encodes(op)
      modifies this, cur
      ensures Valid() && fields == old(fields)
      ensures frames == CallOn(style, old(frames), op)
      ensures cur == old(cur) || fresh(cur)
      decreases op, 1
    {
      hide Valid, ReadValue;
      match op {
        case AddValue(k, v) => Put(k, LeafData(Resolve(style, v)));
        case AddReflected(k, r) => Put(k, ReflectedData(r));
        case AddObject(k, ops) =>
          var m := BuildMap(style, ops);
          Put(k, DMap(m));
        case AddArray(k, elems) =>
          var ds := BuildList(style, elems);
          Put(k, DList(ds));
        case OpenNamespace(k) => OpenNamespaceIn(k);
      }
    }

    /** `addFields`, with `AddReflected` that never fails. */
    method AddFields(fs: seq<Field>)
      requires Valid() && Good(style, MapFieldsOps(fs))
      modifies this, cur
      ensures Valid() && fields == old(fields)
      ensures frames == CallsOn(style, old(frames), MapFieldsOps(fs))
    {
      hide MapFieldOps, CallOn, Good;
      NoCalls(style);
      assert fs[..0] == [];
      for i := 0 to |fs|
        invariant Valid() && fields == old(fields) && (cur == old(cur) || fresh(cur))
        invariant Good(style, MapFieldsOps(fs[..i])) && frames == CallsOn(style, old(frames), MapFieldsOps(fs[..i]))
      {
        NextField(style, fs, i);
        CallsOnConcat(style, old(frames), MapFieldsOps(fs[..i]), MapFieldOps(fs[i]));
        Marshal(MapFieldOps(fs[i]));
      }
      assert fs[..|fs|] == fs;
    }

    /** What following the references from `g`, level `i` of the chain, finds. */
    method ReadOut(g: GoMap, ghost i: nat) returns (m: map<Bytes, Data>)
      requires Valid() && i < |chain| && g == chain[i]
      ensures m == Closed(frames[i..])
      decreases |chain| - i
    {
      assert i < |chain| - 1 ==>
          chain[i].entries == Finished(frames[i].done)[frames[i].next := Live(chain[i + 1])];
      m := map k | k in g.entries && g.entries[k].Done? :: g.entries[k].d;
      var live := set k | k in g.entries && g.entries[k].Live?;
      assert i < |chain| - 1 ==> frames[i].next in live;
      if live == {} {
        assert m == frames[i].done;
      } else {
        var k :| k in live;
        assert i < |chain| - 1 && k == frames[i].next;
        var inner := ReadOut(g.entries[k].m, i + 1);
        assert frames[i..][1..] == frames[i + 1..];
        assert m[k := DMap(inner)] == frames[i].done[k := DMap(inner)];
        m := m[k := DMap(inner)];
      }
    }
  }

  lemma NoCalls(style: Style)
    ensures Good(style, []) && forall frames | frames != [] :: CallsOn(style, frames, []) == frames
  {
  }

  lemma GoodConcat(style: Style, a: seq<ObjOp>, b: seq<ObjOp>)
    ensures Good(style, a + b) <==> Good(style, a) && Good(style, b)
  {
    hide OpsOk, AllEncode;
    OpsOkConcat(style, a, b);
    AllEncodeConcat(a, b);
  }

  lemma {:induction false} CallsOnConcat(style: Style, frames: seq<Frame>, a: seq<ObjOp>, b: seq<ObjOp>)
    requires frames != [] && Good(style, a) && Good(style, b)
    ensures Good(style, a + b) && CallsOn(style, frames, a + b) == CallsOn(style, CallsOn(style, frames, a), b)
    decreases a
  {
    hide OpOk, Encodes, CallOn;
    GoodConcat(style, a, b);
    if a == [] {
      assert a + b == b;
    } else {
      assert (a + b)[1..] == a[1..] + b;
      CallsOnConcat(style, CallOn(style, frames, a[0]), a[1..], b);
    }
  }

  lemma {:induction false} MapFieldsOpsConcat(a: seq<Field>, b: seq<Field>)
    ensures MapFieldsOps(a + b) == MapFieldsOps(a) + MapFieldsOps(b)
  {
    hide MapFieldOps;
    if a == [] {
      assert a + b == b;
    } else {
      assert (a + b)[1..] == a[1..] + b;
      MapFieldsOpsConcat(a[1..], b);
    }
  }

  lemma OneField(f: Field)
    ensures MapFieldsOps([f]) == MapFieldOps(f)
  {
    hide MapFieldOps;
    assert MapFieldsOps([f]) == MapFieldOps(f) + [];
  }

  lemma NextField(style: Style, fs: seq<Field>, i: nat)
    requires i < |fs| && Good(style, MapFieldsOps(fs))
    ensures MapFieldsOps(fs[..i + 1]) == MapFieldsOps(fs[..i]) + MapFieldOps(fs[i])
    ensures Good(style, MapFieldOps(fs[i]))
  {
    hide MapFieldOps, MapFieldsOps, Good;
    assert fs[..i + 1] == fs[..i] + [fs[i]];
    MapFieldsOpsConcat(fs[..i], [fs[i]]);
    OneField(fs[i]);
    assert fs == fs[..i + 1] + fs[i + 1..];
    MapFieldsOpsConcat(fs[..i + 1], fs[i + 1..]);
    GoodConcat(style, MapFieldsOps(fs[..i + 1]), MapFieldsOps(fs[i + 1..]));
    GoodConcat(style, MapFieldsOps(fs[..i]), MapFieldOps(fs[i]));
  }

  /** A new map encoder driven by the calls ends up holding exactly their map. */
  method BuildMap(style: Style, ops: seq<ObjOp>) returns (m: map<Bytes, Data>)
    requires Good(style, ops)
    ensures m == MapOf(style, map[], ops)
    decreases ops, 1
  {
    hide Good, MapOf;
    var enc := new Encoder(style);
    enc.Marshal(ops);
    m := enc.ReadOut(enc.fields, 0);
    assert enc.frames[0..] == enc.frames;
    StackBuildsMap(style, map[], ops);
  }

  /** `sliceArrayEncoder`: elements appended one by one. */
  method BuildList(style: Style, elems: seq<ArrOp>) returns (ds: seq<Data>)
    requires ElemsOk(style, elems) && AllElemsEncode(elems)
    ensures ds == ListOf(style, elems)
    decreases elems, 1
  {
    ds := [];
    if elems != [] {
      var first := BuildElem(style, elems[0]);
      var rest := BuildList(style, elems[1..]);
      ds := [first] + rest;
    }
  }

  method BuildElem(style: Style, e: ArrOp) returns (d: Data)
    requires ElemOk(style, e) && ElemEncodes(e)
    ensures d == ElemData(style, e)
    decreases e, 2
  {
    hide ReadValue;
    match e {
      case AppendValue(v) => d := LeafData(Resolve(style, v));
      case AppendReflected(r) => d := ReflectedData(r);
      case AppendObject(ops) =>
        var m := BuildMap(style, ops);
        d := DMap(m);
      case AppendArray(elems) =>
        var ds := BuildList(style, elems);
        d := DList(ds);
    }
  }
}
