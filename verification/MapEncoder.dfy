/**
 `MapObjectEncoder`, the simple twin of the JSON encoder: it builds nested maps, with a
 pointer to the map of the innermost open namespace. Its maps are compared with what a
 reader that keeps the last of several equal keys makes of the JSON encoder's output.
 */
module MapEncoder {
  import opened Utf8
  import opened StringEscape
  import opened JsonText
  import opened EncoderOps
  import opened JsonRendering
  import opened JsonFragments

  /** Nested maps, lists and leaves; a leaf is the JSON scalar its Go value stands for. */
  datatype Data = DLeaf(j: Json) | DList(elems: seq<Data>) | DMap(fields: map<Bytes, Data>)

  // ---- Reading JSON with the last key winning ----

  function FromJson(j: Json): (d: Data)
    decreases j
  {
    match j
    case JObject(ms) => DMap(LastWins(map[], ms))
    case JArray(js) => DList(FromJsons(js))
    case _ => DLeaf(j)
  }

  function FromJsons(js: seq<Json>): (ds: seq<Data>)
    decreases js
  {
    if js == [] then [] else [FromJson(js[0])] + FromJsons(js[1..])
  }

  function LastWins(m: map<Bytes, Data>, ms: seq<JMember>): (r: map<Bytes, Data>)
    decreases ms
  {
    if ms == [] then m else LastWins(m[ms[0].key := MemberData(ms[0])], ms[1..])
  }

  function MemberData(m: JMember): (d: Data)
    decreases m
  {
    FromJson(m.value)
  }

  // ---- What the map encoder stores ----

  /** Strings are stored as they are; the JSON encoder replaces ill-formed bytes. */
  function LeafData(s: Scalar): (d: Data) {
    DLeaf(if s.SString? then JString(s.s) else ScalarJson(s))
  }

  function ReflectedData(r: Reflected): (d: Data)
    requires !r.RFailed? && ReflectedOk(r)
  {
    FromJson(ReflectedJson(r))
  }

  /** Every reflected value encodes. */
  predicate AllEncode(ops: seq<ObjOp>)
    decreases ops
  {
    ops != [] ==> Encodes(ops[0]) && AllEncode(ops[1..])
  }

  predicate Encodes(op: ObjOp)
    decreases op
  {
    match op
    case AddReflected(_, r) => !r.RFailed?
    case AddObject(_, ops) => AllEncode(ops)
    case AddArray(_, elems) => AllElemsEncode(elems)
    case _ => true
  }

  predicate AllElemsEncode(elems: seq<ArrOp>)
    decreases elems
  {
    elems != [] ==> ElemEncodes(elems[0]) && AllElemsEncode(elems[1..])
  }

  predicate ElemEncodes(e: ArrOp)
    decreases e
  {
    match e
    case AppendReflected(r) => !r.RFailed?
    case AppendObject(ops) => AllEncode(ops)
    case AppendArray(elems) => AllElemsEncode(elems)
    case _ => true
  }

  /** Trusted calls all of whose reflected values encode. */
  predicate Good(style: Style, ops: seq<ObjOp>) {
    OpsOk(style, ops) && AllEncode(ops)
  }

  /** The map the calls make of `m`; after a namespace is opened, the rest goes into it. */
  function MapOf(style: Style, m: map<Bytes, Data>, ops: seq<ObjOp>): (r: map<Bytes, Data>)
    requires Good(style, ops)
    decreases ops
  {
    if ops == [] then m
    else if ops[0].OpenNamespace? then m[ops[0].key := DMap(MapOf(style, map[], ops[1..]))]
    else MapOf(style, m[ops[0].key := OpData(style, ops[0])], ops[1..])
  }

  function OpData(style: Style, op: ObjOp): (d: Data)
    requires OpOk(style, op) && Encodes(op) && !op.OpenNamespace?
    decreases op
  {
    match op
    case AddValue(_, v) => LeafData(Resolve(style, v))
    case AddReflected(_, r) => ReflectedData(r)
    case AddObject(_, ops) => DMap(MapOf(style, map[], ops))
    case AddArray(_, elems) => DList(ListOf(style, elems))
  }

  function ListOf(style: Style, elems: seq<ArrOp>): (ds: seq<Data>)
    requires ElemsOk(style, elems) && AllElemsEncode(elems)
    decreases elems
  {
    if elems == [] then [] else [ElemData(style, elems[0])] + ListOf(style, elems[1..])
  }

  function ElemData(style: Style, e: ArrOp): (d: Data)
    requires ElemOk(style, e) && ElemEncodes(e)
    decreases e
  {
    match e
    case AppendValue(v) => LeafData(Resolve(style, v))
    case AppendReflected(r) => ReflectedData(r)
    case AppendObject(ops) => DMap(MapOf(style, map[], ops))
    case AppendArray(elems) => DList(ListOf(style, elems))
  }

  // ---- The two encoders agree exactly on valid UTF-8 ----

  /** All keys and strings are valid UTF-8. */
  predicate Clean(d: Data) {
    match d
    case DLeaf(j) => j.JString? ==> ValidUtf8(j.contents)
    case DList(elems) => CleanList(elems)
    case DMap(fields) => forall k :: k in fields ==> ValidUtf8(k) && Clean(fields[k])
  }

  predicate CleanList(ds: seq<Data>) {
    ds != [] ==> Clean(ds[0]) && CleanList(ds[1..])
  }

  lemma CleanLists(ds: seq<Data>)
    ensures Clean(DList(ds)) == CleanList(ds)
  {
  }

  /** What holds between the reader's map and the encoder's while keys may still be overwritten. */
  ghost predicate AgreeWhereClean(read: map<Bytes, Data>, built: map<Bytes, Data>) {
    && read.Keys == built.Keys
    && forall k :: k in built && Clean(built[k]) ==> read[k] == built[k]
  }

  ghost predicate ValidKeys(m: map<Bytes, Data>) {
    forall k :: k in m ==> ValidUtf8(k)
  }

  lemma LeafAgrees(s: Scalar)
    requires Clean(LeafData(s))
    ensures FromJson(ScalarJson(s)) == LeafData(s)
  {
    hide Sanitize, ValidUtf8;
    if s.SString? {
      SanitizeFixesValid(s.s);
    }
  }

  lemma {:induction false} KeysStay(style: Style, m: map<Bytes, Data>, ops: seq<ObjOp>)
    requires Good(style, ops)
    ensures m.Keys <= MapOf(style, m, ops).Keys
    decreases ops
  {
    hide OpOk, Encodes, OpData;
    if ops != [] && !ops[0].OpenNamespace? {
      KeysStay(style, m[ops[0].key := OpData(style, ops[0])], ops[1..]);
    }
  }

  lemma {:induction false} MapsAgree(style: Style, ops: seq<ObjOp>, read: map<Bytes, Data>, built: map<Bytes, Data>)
    requires Good(style, ops)
    requires AgreeWhereClean(read, built)
    requires ValidKeys(MapOf(style, built, ops))
    ensures AgreeWhereClean(LastWins(read, MembersOf(style, ops)), MapOf(style, built, ops))
    decreases ops, 1
  {
    if ops != [] && ops[0].OpenNamespace? {
      NamespaceStep(style, ops, read, built);
    } else if ops != [] {
      hide OpOk, OpJson, OpData, Sanitize, ValidUtf8, FromJson;
      assert OpOk(style, ops[0]) && Encodes(ops[0]);
      KeyIsKept(style, built, ops);
      OpAgrees(style, ops[0]);
      var k, j := ops[0].key, OpJson(style, ops[0]);
      var read', built' := read[k := FromJson(j)], built[k := OpData(style, ops[0])];
      LastWinsHead(read, JMember(k, j), MembersOf(style, ops[1..]));
      MapsAgree(style, ops[1..], read', built');
    }
  }

  lemma {:induction false} NamespaceStep(style: Style, ops: seq<ObjOp>, read: map<Bytes, Data>, built: map<Bytes, Data>)
    requires Good(style, ops) && ops != [] && ops[0].OpenNamespace?
    requires AgreeWhereClean(read, built)
    requires ValidKeys(MapOf(style, built, ops))
    ensures AgreeWhereClean(LastWins(read, MembersOf(style, ops)), MapOf(style, built, ops))
    decreases ops, 0
  {
    hide OpOk, Encodes, OpJson, OpData, Sanitize, ValidUtf8, FromJson;
    KeyIsKept(style, built, ops);
    NamespaceAgrees(style, ops[1..]);
    LastWinsOne(read, JMember(ops[0].key, JObject(MembersOf(style, ops[1..]))));
  }

  /** A key written once stays in the map, so it is one of the valid keys. */
  lemma KeyIsKept(style: Style, m: map<Bytes, Data>, ops: seq<ObjOp>)
    requires Good(style, ops) && ops != []
    requires ValidKeys(MapOf(style, m, ops))
    ensures Sanitize(ops[0].key) == ops[0].key
  {
    hide OpOk, Encodes, OpData, Sanitize, ValidUtf8;
    var k := ops[0].key;
    SanitizeFixesValid(k);
    if !ops[0].OpenNamespace? {
      KeysStay(style, m[k := OpData(style, ops[0])], ops[1..]);
    }
  }

  lemma LastWinsOne(m: map<Bytes, Data>, x: JMember)
    ensures LastWins(m, [x]) == m[x.key := MemberData(x)]
  {
    assert LastWins(m[x.key := MemberData(x)], [x][1..]) == m[x.key := MemberData(x)];
  }

  lemma LastWinsHead(m: map<Bytes, Data>, x: JMember, ms: seq<JMember>)
    ensures LastWins(m, [x] + ms) == LastWins(m[x.key := MemberData(x)], ms)
  {
    assert ([x] + ms)[1..] == ms;
  }

  lemma {:induction false} NamespaceAgrees(style: Style, ops: seq<ObjOp>)
    requires Good(style, ops)
    ensures var built := DMap(MapOf(style, map[], ops));
            Clean(built) ==> FromJson(JObject(MembersOf(style, ops))) == built
    decreases ops, 2
  {
    hide OpOk, Encodes, OpJson, OpData, Sanitize, ValidUtf8;
    var m := MapOf(style, map[], ops);
    if Clean(DMap(m)) {
      assert ValidKeys(m);
      MapsAgree(style, ops, map[], map[]);
      var r := LastWins(map[], MembersOf(style, ops));
      assert forall k :: k in m ==> r[k] == m[k];
      assert r == m;
    }
  }

  lemma {:induction false} OpAgrees(style: Style, op: ObjOp)
    requires OpOk(style, op) && Encodes(op) && !op.OpenNamespace?
    ensures Clean(OpData(style, op)) ==> FromJson(OpJson(style, op)) == OpData(style, op)
    decreases op, 2
  {
    hide ReadValue, Sanitize, ScalarText, Clean;
    match op {
      case AddValue(_, v) =>
        if Clean(OpData(style, op)) {
          LeafAgrees(Resolve(style, v));
        }
      case AddReflected(_, r) =>
      case AddObject(_, ops) => NamespaceAgrees(style, ops);
      case AddArray(_, elems) => ListAgrees(style, elems); CleanLists(ListOf(style, elems));
    }
  }

  lemma {:induction false} ElemAgrees(style: Style, e: ArrOp)
    requires ElemOk(style, e) && ElemEncodes(e)
    ensures Clean(ElemData(style, e)) ==> FromJson(ElemJson(style, e)) == ElemData(style, e)
    decreases e, 2
  {
    hide ReadValue, Sanitize, ScalarText, Clean;
    match e {
      case AppendValue(v) =>
        if Clean(ElemData(style, e)) {
          LeafAgrees(Resolve(style, v));
        }
      case AppendReflected(r) =>
      case AppendObject(ops) => NamespaceAgrees(style, ops);
      case AppendArray(elems) => ListAgrees(style, elems); CleanLists(ListOf(style, elems));
    }
  }

  lemma {:induction false} ListAgrees(style: Style, elems: seq<ArrOp>)
    requires ElemsOk(style, elems) && AllElemsEncode(elems)
    ensures CleanList(ListOf(style, elems)) ==> FromJsons(ElementsOf(style, elems)) == ListOf(style, elems)
    decreases elems, 3
  {
    if elems != [] {
      hide ElemOk, ElemEncodes, ElemJson, ElemData, Clean;
      ElemAgrees(style, elems[0]);
      ListAgrees(style, elems[1..]);
      assert ListOf(style, elems)[1..] == ListOf(style, elems[1..]);
      assert ElementsOf(style, elems)[1..] == ElementsOf(style, elems[1..]);
    }
  }

  // ---- JSON texts only ever hold valid UTF-8 ----

  lemma {:induction false} ValidConcat(a: Bytes, b: Bytes)
    requires ValidUtf8(a) && ValidUtf8(b)
    ensures ValidUtf8(a + b)
  {
    hide DecodeRune;
    if a == [] {
      assert a + b == b;
    } else {
      var n := DecodeRune(a).1;
      DecodeExtends(a, b);
      ValidConcat(a[n..], b);
      assert (a + b)[n..] == a[n..] + b;
    }
  }

  lemma RuneIsValid(r: nat)
    requires ScalarValue(r)
    ensures ValidUtf8(EncodeRune(r))
  {
    hide DecodeRune, EncodeRune;
    EncodeDecodes(r, []);
    assert EncodeRune(r) + [] == EncodeRune(r);
    var e := EncodeRune(r);
    assert e[|e|..] == [];
    assert !Rejected(e) by { EncodedIsAccepted(r); }
  }

  lemma EncodedIsAccepted(r: nat)
    requires ScalarValue(r)
    ensures EncodeRune(r) != [] && !Rejected(EncodeRune(r))
  {
    hide DecodeRune;
    EncodeDecodes(r, []);
    assert EncodeRune(r) + [] == EncodeRune(r);
  }

  lemma ReadUnitIsValid(t: Bytes)
    requires ReadUnit(t).Some?
    ensures ValidUtf8(ReadUnit(t).value.0)
  {
    hide DecodeRune, EncodeRune, Hex4;
    if t[0] == BACKSLASH {
      if t[1] == LOWER_U {
        var u := Hex4(t[1..][1..]).value;
        if ScalarValue(u) {
          RuneIsValid(u);
        } else {
          RuneIsValid(0x10000 + (u - 0xD800) * 1024 + (Hex4(t[1..][7..]).value - 0xDC00));
        }
      } else {
        AsciiIsValid(SimpleEscape(t[1]).value);
      }
    } else {
      RuneTextIsValid(t);
    }
  }

  lemma AsciiIsValid(b: Byte)
    requires b < RUNE_SELF
    ensures ValidUtf8([b])
  {
    assert [b][1..] == [];
  }

  lemma RuneTextIsValid(t: Bytes)
    requires t != [] && !Rejected(t)
    ensures ValidUtf8(t[..DecodeRune(t).1])
  {
    var n := DecodeRune(t).1;
    AcceptedPrefix(t);
    assert t[..n][n..] == [];
  }

  lemma {:induction false} ReadStringIsValid(t: Bytes)
    requires ReadString(t).Some?
    ensures ValidUtf8(ReadString(t).value.0)
  {
    hide ReadUnit, ValidUtf8;
    if t[0] == QUOTE {
      EmptyIsValid();
    } else {
      ReadUnitIsValid(t);
      ReadStringIsValid(t[ReadUnit(t).value.1..]);
      ValidConcat(ReadUnit(t).value.0, ReadString(t[ReadUnit(t).value.1..]).value.0);
    }
  }

  lemma EmptyIsValid()
    ensures ValidUtf8([])
  {
  }

  predicate CleanJson(j: Json)
    decreases j
  {
    match j
    case JString(s) => ValidUtf8(s)
    case JObject(ms) => CleanMembers(ms)
    case JArray(js) => CleanJsons(js)
    case _ => true
  }

  predicate CleanMembers(ms: seq<JMember>)
    decreases ms
  {
    ms != [] ==> CleanMember(ms[0]) && CleanMembers(ms[1..])
  }

  predicate CleanMember(m: JMember)
    decreases m
  {
    ValidUtf8(m.key) && CleanJson(m.value)
  }

  predicate CleanJsons(js: seq<Json>)
    decreases js
  {
    js != [] ==> CleanJson(js[0]) && CleanJsons(js[1..])
  }

  lemma {:induction false} ValueIsClean(text: Bytes)
    requires ReadValue(text).Some?
    ensures CleanJson(ReadValue(text).value.0)
    decreases |text|, 3
  {
    hide SkipWhitespace, ReadObject, ReadArray, ReadScalar, CleanMembers, CleanJsons;
    var t := SkipWhitespace(text);
    if t[0] == LBRACE {
      ObjectIsClean(t[1..]);
    } else if t[0] == LBRACKET {
      ArrayIsClean(t[1..]);
    } else {
      ScalarIsClean(t);
    }
  }

  lemma ScalarIsClean(t: Bytes)
    requires t != [] && ReadScalar(t).Some?
    ensures CleanJson(ReadScalar(t).value.0)
  {
    hide ReadString, NumberLength, ValidUtf8;
    if t[0] == QUOTE {
      ReadStringIsValid(t[1..]);
    }
  }

  lemma {:induction false} ObjectIsClean(text: Bytes)
    requires ReadObject(text).Some?
    ensures CleanMembers(ReadObject(text).value.0)
    decreases |text|, 3
  {
    hide SkipWhitespace, ReadMembers, CleanMember;
    var t := SkipWhitespace(text);
    if !(t != [] && t[0] == RBRACE) {
      MembersAreClean(text);
    }
  }

  lemma {:induction false} MembersAreClean(t: Bytes)
    requires ReadMembers(t).Some?
    ensures CleanMembers(ReadMembers(t).value.0)
    decreases |t|, 2
  {
    hide ReadMember, ReadMoreMembers, CleanMember;
    MemberIsClean(t);
    MoreMembersAreClean(ReadMember(t).value.1);
    assert ReadMembers(t).value.0[1..] == ReadMoreMembers(ReadMember(t).value.1).value.0;
  }

  lemma {:induction false} MoreMembersAreClean(text: Bytes)
    requires ReadMoreMembers(text).Some?
    ensures CleanMembers(ReadMoreMembers(text).value.0)
    decreases |text|, 1
  {
    hide SkipWhitespace, ReadMembers, CleanMember;
    if SkipWhitespace(text)[0] == COMMA {
      MembersAreClean(SkipWhitespace(text)[1..]);
    }
  }

  lemma {:induction false} MemberIsClean(text: Bytes)
    requires ReadMember(text).Some?
    ensures CleanMember(ReadMember(text).value.0)
    decreases |text|, 1
  {
    hide SkipWhitespace, ReadString, ReadValue, CleanJson, ValidUtf8;
    var t := SkipWhitespace(text);
    var after := ReadString(t[1..]).value.1;
    ReadStringIsValid(t[1..]);
    ValueIsClean(SkipWhitespace(after)[1..]);
  }

  lemma {:induction false} ArrayIsClean(text: Bytes)
    requires ReadArray(text).Some?
    ensures CleanJsons(ReadArray(text).value.0)
    decreases |text|, 5
  {
    hide SkipWhitespace, ReadElements, CleanJson;
    var t := SkipWhitespace(text);
    if !(t != [] && t[0] == RBRACKET) {
      ElementsAreClean(text);
    }
  }

  lemma {:induction false} ElementsAreClean(t: Bytes)
    requires ReadElements(t).Some?
    ensures CleanJsons(ReadElements(t).value.0)
    decreases |t|, 4
  {
    hide ReadValue, ReadMoreElements, CleanJson;
    ValueIsClean(t);
    MoreElementsAreClean(ReadValue(t).value.1);
    assert ReadElements(t).value.0[1..] == ReadMoreElements(ReadValue(t).value.1).value.0;
  }

  lemma {:induction false} MoreElementsAreClean(text: Bytes)
    requires ReadMoreElements(text).Some?
    ensures CleanJsons(ReadMoreElements(text).value.0)
    decreases |text|, 1
  {
    hide SkipWhitespace, ReadElements, CleanJson;
    if SkipWhitespace(text)[0] == COMMA {
      ElementsAreClean(SkipWhitespace(text)[1..]);
    }
  }

  lemma {:induction false} CleanDataOfJson(j: Json)
    requires CleanJson(j)
    ensures Clean(FromJson(j))
    decreases j
  {
    hide ValidUtf8;
    match j {
      case JObject(ms) => CleanDataOfMembers(map[], ms);
      case JArray(js) => CleanDataOfJsons(js);
      case _ =>
    }
  }

  lemma {:induction false} CleanDataOfMembers(m: map<Bytes, Data>, ms: seq<JMember>)
    requires Clean(DMap(m)) && CleanMembers(ms)
    ensures Clean(DMap(LastWins(m, ms)))
    decreases ms
  {
    hide ValidUtf8, CleanJson, MemberData;
    if ms != [] {
      CleanDataOfMember(ms[0]);
      CleanDataOfMembers(m[ms[0].key := MemberData(ms[0])], ms[1..]);
    }
  }

  lemma {:induction false} CleanDataOfMember(x: JMember)
    requires CleanMember(x)
    ensures Clean(MemberData(x))
    decreases x
  {
    hide ValidUtf8, CleanJson, FromJson;
    CleanDataOfJson(x.value);
  }

  lemma {:induction false} CleanDataOfJsons(js: seq<Json>)
    requires CleanJsons(js)
    ensures CleanList(FromJsons(js))
    decreases js
  {
    hide CleanJson, FromJson, Clean;
    if js != [] {
      CleanDataOfJson(js[0]);
      CleanDataOfJsons(js[1..]);
      assert FromJsons(js)[1..] == FromJsons(js[1..]);
    }
  }

  // ---- Which calls leave only valid UTF-8 in the map ----

  /** A later call at the same level uses this key. */
  predicate Overwritten(ops: seq<ObjOp>, key: Bytes) {
    ops != [] && (ops[0].key == key || (!ops[0].OpenNamespace? && Overwritten(ops[1..], key)))
  }

  /** Every key is valid UTF-8, and so is every string that no later call at its level overwrites. */
  predicate CleanCalls(style: Style, ops: seq<ObjOp>)
    decreases ops
  {
    ops != [] ==>
      && ValidUtf8(ops[0].key)
      && (ops[0].OpenNamespace? || Overwritten(ops[1..], ops[0].key) || CleanCall(style, ops[0]))
      && CleanCalls(style, ops[1..])
  }

  /** The value of the call is clean; what the reflection encoder wrote always is. */
  predicate CleanCall(style: Style, op: ObjOp)
    decreases op
  {
    match op
    case AddValue(_, v) => CleanScalar(Resolve(style, v))
    case AddObject(_, ops) => CleanCalls(style, ops)
    case AddArray(_, elems) => CleanElems(style, elems)
    case _ => true
  }

  predicate CleanElems(style: Style, elems: seq<ArrOp>)
    decreases elems
  {
    elems != [] ==> CleanElem(style, elems[0]) && CleanElems(style, elems[1..])
  }

  predicate CleanElem(style: Style, e: ArrOp)
    decreases e
  {
    match e
    case AppendValue(v) => CleanScalar(Resolve(style, v))
    case AppendReflected(_) => true
    case AppendObject(ops) => CleanCalls(style, ops)
    case AppendArray(elems) => CleanElems(style, elems)
  }

  predicate CleanScalar(s: Scalar) {
    s.SString? ==> ValidUtf8(s.s)
  }

  lemma CleanLeaf(s: Scalar)
    requires ScalarOk(s)
    ensures Clean(LeafData(s)) <==> CleanScalar(s)
  {
    hide ReadValue, ValidUtf8, ScalarText, Sanitize;
    if !s.SString? {
      ScalarReads(s);
      ValueIsClean(ScalarText(s));
    }
  }

  lemma CleanReflected(r: Reflected)
    requires !r.RFailed? && ReflectedOk(r)
    ensures Clean(ReflectedData(r))
  {
    hide ReadValue, Clean, CleanJson, FromJson;
    ValueIsClean(ReflectedText(r));
    CleanDataOfJson(ReflectedJson(r));
  }

  /** What was in the map before is clean where the calls leave it. */
  ghost predicate CleanRest(m: map<Bytes, Data>, ops: seq<ObjOp>) {
    forall k :: k in m ==> ValidUtf8(k) && (Overwritten(ops, k) || Clean(m[k]))
  }

  lemma {:induction false} MapIsClean(style: Style, m: map<Bytes, Data>, ops: seq<ObjOp>)
    requires Good(style, ops)
    ensures Clean(DMap(MapOf(style, m, ops))) <==> CleanCalls(style, ops) && CleanRest(m, ops)
    decreases ops, 1
  {
    hide OpOk, Encodes, OpData, ValidUtf8, CleanCall;
    if ops != [] {
      var key, rest := ops[0].key, ops[1..];
      if ops[0].OpenNamespace? {
        MapIsClean(style, map[], rest);
        var d := DMap(MapOf(style, map[], rest));
        assert MapOf(style, m, ops) == m[key := d];
        assert CleanRest(map[], rest);
        UpdateIsClean(m, key, d, []);
      } else {
        var d := OpData(style, ops[0]);
        CallIsClean(style, ops[0]);
        MapIsClean(style, m[key := d], rest);
        UpdateIsClean(m, key, d, rest);
      }
    }
  }

  lemma UpdateIsClean(m: map<Bytes, Data>, key: Bytes, d: Data, rest: seq<ObjOp>)
    ensures CleanRest(m[key := d], rest) <==>
      && ValidUtf8(key) && (Overwritten(rest, key) || Clean(d))
      && forall k :: k in m && k != key ==> ValidUtf8(k) && (Overwritten(rest, k) || Clean(m[k]))
  {
    hide ValidUtf8, Overwritten, Clean;
    var m' := m[key := d];
    assert key in m' && m'[key] == d;
    assert forall k :: k in m && k != key ==> k in m' && m'[k] == m[k];
  }

  lemma {:induction false} CallIsClean(style: Style, op: ObjOp)
    requires OpOk(style, op) && Encodes(op) && !op.OpenNamespace?
    ensures Clean(OpData(style, op)) <==> CleanCall(style, op)
    decreases op, 2
  {
    hide ReadValue, ValidUtf8, Resolve;
    match op {
      case AddValue(_, v) => CleanLeaf(Resolve(style, v));
      case AddReflected(_, r) => CleanReflected(r);
      case AddObject(_, ops) => MapIsClean(style, map[], ops);
      case AddArray(_, elems) => ListIsClean(style, elems);
    }
  }

  lemma {:induction false} ListIsClean(style: Style, elems: seq<ArrOp>)
    requires ElemsOk(style, elems) && AllElemsEncode(elems)
    ensures CleanList(ListOf(style, elems)) <==> CleanElems(style, elems)
    decreases elems, 3
  {
    hide ElemOk, ElemEncodes, ElemData, CleanElem, Clean;
    if elems != [] {
      ElemIsClean(style, elems[0]);
      ListIsClean(style, elems[1..]);
      assert ListOf(style, elems)[1..] == ListOf(style, elems[1..]);
    }
  }

  lemma {:induction false} ElemIsClean(style: Style, e: ArrOp)
    requires ElemOk(style, e) && ElemEncodes(e)
    ensures Clean(ElemData(style, e)) <==> CleanElem(style, e)
    decreases e, 2
  {
    hide ReadValue, ValidUtf8, Resolve;
    match e {
      case AppendValue(v) => CleanLeaf(Resolve(style, v));
      case AppendReflected(r) => CleanReflected(r);
      case AppendObject(ops) => MapIsClean(style, map[], ops);
      case AppendArray(elems) => ListIsClean(style, elems);
    }
  }

  /**
   Reading the JSON encoder's object, the last of equal keys winning, gives the map that the
   map encoder builds from the same calls exactly when the calls use valid UTF-8: in every key,
   and in every string that is not overwritten.
   */
  lemma TwinsAgree(style: Style, ops: seq<ObjOp>)
    requires Good(style, ops)
    ensures var built := DMap(MapOf(style, map[], ops));
            var read := ReadValue(ObjectText(style, ops));
            && read.Some? && read.value.1 == []
            && (FromJson(read.value.0) == built <==> CleanCalls(style, ops))
  {
    hide ReadValue, MembersOf, MapOf, OpsOk, AllEncode, Clean, FromJson, CleanJson, ObjectText, CleanCalls;
    var text := ObjectText(style, ops);
    ObjectReads(style, ops, []);
    assert text + [] == text;
    NamespaceAgrees(style, ops);
    ValueIsClean(text);
    CleanDataOfJson(ReadValue(text).value.0);
    MapIsClean(style, map[], ops);
    assert CleanRest(map[], ops);
  }

  /** Two keys that are different but not valid UTF-8 collide in JSON and not in the map. */
  lemma InvalidKeysCollide()
    ensures exists style, ops ::
              && Good(style, ops)
              && |MapOf(style, map[], ops)| == 2
              && |MembersOf(style, ops)| == 2
              && MembersOf(style, ops)[0].key == MembersOf(style, ops)[1].key
  {
    var style := Style(false, None, None);
    var a, b := AddValue([0xFF], Simple(SBool(true))), AddValue([0xFE], Simple(SBool(false)));
    var rest := [b];
    var ops := [a] + rest;
    assert ops[1..] == rest && rest[1..] == [];
    assert [0xFF][1..] == [] && [0xFE][1..] == [];
    assert Sanitize([0xFF]) == REPLACEMENT == Sanitize([0xFE]);
    assert OpsOk(style, []) && OpsOk(style, rest) && OpsOk(style, ops);
    assert AllEncode([]) && AllEncode(rest) && AllEncode(ops);
    var m := map[a.key := OpData(style, a)];
    assert MapOf(style, m, rest) == m[b.key := OpData(style, b)];
    assert MapOf(style, map[], ops) == m[b.key := OpData(style, b)];
    assert MapOf(style, map[], ops).Keys == {a.key, b.key};
    assert MembersOf(style, rest) == [JMember(REPLACEMENT, JBool(false))];
    assert MembersOf(style, ops) == [JMember(REPLACEMENT, JBool(true)), JMember(REPLACEMENT, JBool(false))];
  }

  // ---- Fields ----

  /** The calls `Field.AddTo` makes on the map encoder, whose `AddReflected` never fails. */
  function MapFieldOps(f: Field): (ops: seq<ObjOp>) {
    if f.ReflectField? then [AddReflected(f.key, f.r)] else FieldOps(f)
  }

  function MapFieldsOps(fields: seq<Field>): (ops: seq<ObjOp>) {
    if fields == [] then [] else MapFieldOps(fields[0]) + MapFieldsOps(fields[1..])
  }

  lemma {:induction false} AllEncodeConcat(a: seq<ObjOp>, b: seq<ObjOp>)
    ensures AllEncode(a + b) <==> AllEncode(a) && AllEncode(b)
  {
    hide Encodes;
    if a == [] {
      assert a + b == b;
    } else {
      AllEncodeConcat(a[1..], b);
      assert (a + b)[1..] == a[1..] + b;
    }
  }

  /** While every reflected value encodes, fields drive both encoders in the same way. */
  lemma {:induction false} SameCalls(fields: seq<Field>)
    requires AllEncode(FieldsOps(fields))
    ensures MapFieldsOps(fields) == FieldsOps(fields)
  {
    if fields != [] {
      hide AllEncode, FieldsOps, FieldOps;
      FieldsOpsHead(fields);
      AllEncodeConcat(FieldOps(fields[0]), FieldsOps(fields[1..]));
      SameCalls(fields[1..]);
      SameCall(fields[0]);
    }
  }

  lemma FieldsOpsHead(fields: seq<Field>)
    requires fields != []
    ensures FieldsOps(fields) == FieldOps(fields[0]) + FieldsOps(fields[1..])
  {
  }

  lemma SameCall(f: Field)
    requires AllEncode(FieldOps(f))
    ensures MapFieldOps(f) == FieldOps(f)
  {
  }

  /** The twins, driven by the same log fields. */
  lemma FieldTwinsAgree(style: Style, fields: seq<Field>)
    requires Good(style, FieldsOps(fields))
    ensures Good(style, MapFieldsOps(fields))
    ensures var built := DMap(MapOf(style, map[], MapFieldsOps(fields)));
            var read := ReadValue(ObjectText(style, FieldsOps(fields)));
            && read.Some? && read.value.1 == []
            && (FromJson(read.value.0) == built <==> CleanCalls(style, FieldsOps(fields)))
  {
    hide ReadValue, MapOf, CleanCalls, FromJson, ObjectText, FieldsOps, MapFieldsOps, OpsOk, AllEncode;
    SameCalls(fields);
    TwinsAgree(style, FieldsOps(fields));
  }
}
