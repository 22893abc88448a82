/**
 The calls on the JSON encoder by its own rule: a comma goes where the last byte in the buffer
 calls for one. For trusted tokens this is the positional text; for any tokens at all, text
 written ahead can be spliced in later.
 */
module JsonCalls {
  import opened Utf8
  import opened StringEscape
  import opened JsonText
  import opened EncoderOps
  import opened JsonRendering
  import opened JsonFragments
  import opened JsonEntry

  /** `addElementSeparator` writes nothing after these. */
  predicate NoComma(buf: Bytes) {
    buf == [] || OpensElement(buf[|buf| - 1])
  }

  function Lead(style: Style, buf: Bytes): (t: Bytes) {
    if NoComma(buf) then [] else Comma(style)
  }

  // ---- What each call makes of the buffer ----

  function AfterKey(style: Style, buf: Bytes, key: Bytes): (r: Bytes) {
    buf + Lead(style, buf) + KeyText(style, key)
  }

  function AfterScalar(style: Style, buf: Bytes, s: Scalar): (r: Bytes) {
    buf + Lead(style, buf) + ScalarText(s)
  }

  /** A user encoder's append, and the fallback if the buffer is no longer than before. */
  function AfterUser(style: Style, buf: Bytes, r: Option<Scalar>, fallback: Scalar): (b: Bytes) {
    var b := if r.Some? then AfterScalar(style, buf, r.value) else buf;
    if |b| == |buf| then AfterScalar(style, b, fallback) else b
  }

  function AfterValue(style: Style, buf: Bytes, v: Value): (r: Bytes) {
    match v
    case Simple(s) => AfterScalar(style, buf, s)
    case Duration(d) =>
      AfterUser(style, buf, if style.encodeDuration.Some? then style.encodeDuration.value(d) else None, SInt(d))
    case Time(t) =>
      AfterUser(style, buf, if style.encodeTime.Some? then style.encodeTime.value(t) else None, SInt(t.unixNano))
  }

  function AfterCalls(style: Style, buf: Bytes, ops: seq<ObjOp>): (r: Bytes)
    decreases ops, 0
  {
    if ops == [] then buf else AfterCalls(style, AfterCall(style, buf, ops[0]), ops[1..])
  }

  function AfterCall(style: Style, buf: Bytes, op: ObjOp): (r: Bytes)
    decreases op
  {
    if Silent(op) then buf
    else
      var keyed := AfterKey(style, buf, op.key);
      match op
      case AddValue(_, v) => AfterValue(style, keyed, v)
      case AddReflected(_, r) => keyed + ReflectedText(r)
      case AddObject(_, ops) => AfterObject(style, keyed, ops)
      case AddArray(_, elems) => AfterArray(style, keyed, elems)
      case OpenNamespace(_) => keyed + [LBRACE]
  }

  function AfterObject(style: Style, buf: Bytes, ops: seq<ObjOp>): (r: Bytes)
    decreases ops, 1
  {
    AfterCalls(style, buf + Lead(style, buf) + [LBRACE], ops) + [RBRACE] + Closers(Opens(ops))
  }

  function AfterArray(style: Style, buf: Bytes, elems: seq<ArrOp>): (r: Bytes)
    decreases elems, 1
  {
    AfterElems(style, buf + Lead(style, buf) + [LBRACKET], elems) + [RBRACKET]
  }

  function AfterElems(style: Style, buf: Bytes, elems: seq<ArrOp>): (r: Bytes)
    decreases elems, 0
  {
    if elems == [] then buf else AfterElems(style, AfterElem(style, buf, elems[0]), elems[1..])
  }

  function AfterElem(style: Style, buf: Bytes, e: ArrOp): (r: Bytes)
    decreases e
  {
    match e
    case AppendValue(v) => AfterValue(style, buf, v)
    case AppendReflected(r) => if r.RFailed? then buf else buf + Lead(style, buf) + ReflectedText(r)
    case AppendObject(ops) => AfterObject(style, buf, ops)
    case AppendArray(elems) => AfterArray(style, buf, elems)
  }

  lemma {:induction false} AfterCallsConcat(style: Style, buf: Bytes, a: seq<ObjOp>, b: seq<ObjOp>)
    ensures AfterCalls(style, buf, a + b) == AfterCalls(style, AfterCalls(style, buf, a), b)
    decreases a
  {
    hide AfterCall;
    if a == [] {
      assert a + b == b;
    } else {
      assert (a + b)[1..] == a[1..] + b;
      AfterCallsConcat(style, AfterCall(style, buf, a[0]), a[1..], b);
    }
  }

  // ---- Only the last byte matters ----

  lemma LeadShift(style: Style, p: Bytes, buf: Bytes)
    requires buf != []
    ensures Lead(style, p + buf) == Lead(style, buf)
  {
  }

  lemma ScalarShift(style: Style, p: Bytes, buf: Bytes, s: Scalar)
    requires buf != []
    ensures AfterScalar(style, p + buf, s) == p + AfterScalar(style, buf, s)
  {
    hide ScalarText, Lead;
    LeadShift(style, p, buf);
    Associate(p, buf, Lead(style, buf), ScalarText(s));
  }

  lemma Associate(p: Bytes, buf: Bytes, a: Bytes, b: Bytes)
    ensures p + buf + a + b == p + (buf + a + b)
  {
  }

  lemma UserShift(style: Style, p: Bytes, buf: Bytes, r: Option<Scalar>, fallback: Scalar)
    requires buf != []
    ensures AfterUser(style, p + buf, r, fallback) == p + AfterUser(style, buf, r, fallback)
  {
    hide AfterScalar;
    if r.Some? {
      ScalarShift(style, p, buf, r.value);
      ScalarGrows(style, buf, r.value);
      ScalarShift(style, p, AfterScalar(style, buf, r.value), fallback);
    }
    ScalarShift(style, p, buf, fallback);
  }

  lemma ScalarGrows(style: Style, buf: Bytes, s: Scalar)
    ensures |AfterScalar(style, buf, s)| >= |buf|
  {
  }

  lemma ValueShift(style: Style, p: Bytes, buf: Bytes, v: Value)
    requires buf != []
    ensures AfterValue(style, p + buf, v) == p + AfterValue(style, buf, v)
  {
    hide AfterScalar, AfterUser;
    match v {
      case Simple(s) => ScalarShift(style, p, buf, s);
      case Duration(d) =>
        UserShift(style, p, buf, if style.encodeDuration.Some? then style.encodeDuration.value(d) else None, SInt(d));
      case Time(t) =>
        UserShift(style, p, buf, if style.encodeTime.Some? then style.encodeTime.value(t) else None, SInt(t.unixNano));
    }
  }

  /** Bytes before a buffer that is not empty make no difference to what calls append to it. */
  lemma {:induction false} CallsShift(style: Style, p: Bytes, buf: Bytes, ops: seq<ObjOp>)
    requires buf != []
    ensures AfterCalls(style, p + buf, ops) == p + AfterCalls(style, buf, ops)
    ensures AfterCalls(style, buf, ops) != []
    decreases ops, 0
  {
    hide AfterCall;
    if ops != [] {
      CallShift(style, p, buf, ops[0]);
      CallsShift(style, p, AfterCall(style, buf, ops[0]), ops[1..]);
    }
  }

  lemma {:induction false} CallShift(style: Style, p: Bytes, buf: Bytes, op: ObjOp)
    requires buf != []
    ensures AfterCall(style, p + buf, op) == p + AfterCall(style, buf, op)
    ensures AfterCall(style, buf, op) != []
    decreases op, 1
  {
    hide KeyText, Lead, AfterValue, AfterCalls, AfterElems;
    if !Silent(op) {
      var keyed := AfterKey(style, buf, op.key);
      LeadShift(style, p, buf);
      Associate(p, buf, Lead(style, buf), KeyText(style, op.key));
      KeyedCall(style, p, keyed, op);
    }
  }

  /** A call after its key. */
  lemma {:induction false} KeyedCall(style: Style, p: Bytes, keyed: Bytes, op: ObjOp)
    requires keyed != []
    ensures match op
            case AddValue(_, v) => AfterValue(style, p + keyed, v) == p + AfterValue(style, keyed, v)
                                   && AfterValue(style, keyed, v) != []
            case AddReflected(_, r) => r.RFailed? || p + keyed + ReflectedText(r) == p + (keyed + ReflectedText(r))
            case AddObject(_, ops) => AfterObject(style, p + keyed, ops) == p + AfterObject(style, keyed, ops)
            case AddArray(_, elems) => AfterArray(style, p + keyed, elems) == p + AfterArray(style, keyed, elems)
            case OpenNamespace(_) => p + keyed + [LBRACE] == p + (keyed + [LBRACE])
    decreases op, 0
  {
    hide AfterValue, AfterObject, AfterArray;
    match op {
      case AddValue(_, v) =>
        ValueShift(style, p, keyed, v);
        ValueGrows(style, keyed, v);
      case AddObject(_, ops) => ObjectShift(style, p, keyed, ops);
      case AddArray(_, elems) => ArrayShift(style, p, keyed, elems);
      case _ =>
    }
  }

  lemma ValueGrows(style: Style, buf: Bytes, v: Value)
    ensures |AfterValue(style, buf, v)| >= |buf|
  {
    hide ScalarText, Lead;
  }

  lemma {:induction false} ObjectShift(style: Style, p: Bytes, buf: Bytes, ops: seq<ObjOp>)
    requires buf != []
    ensures AfterObject(style, p + buf, ops) == p + AfterObject(style, buf, ops)
    decreases ops, 1
  {
    hide Lead, AfterCalls;
    var inner := buf + Lead(style, buf) + [LBRACE];
    LeadShift(style, p, buf);
    Associate(p, buf, Lead(style, buf), [LBRACE]);
    CallsShift(style, p, inner, ops);
    Associate(p, AfterCalls(style, inner, ops), [RBRACE], Closers(Opens(ops)));
  }

  lemma {:induction false} ArrayShift(style: Style, p: Bytes, buf: Bytes, elems: seq<ArrOp>)
    requires buf != []
    ensures AfterArray(style, p + buf, elems) == p + AfterArray(style, buf, elems)
    decreases elems, 1
  {
    hide Lead, AfterElems;
    var inner := buf + Lead(style, buf) + [LBRACKET];
    LeadShift(style, p, buf);
    Associate(p, buf, Lead(style, buf), [LBRACKET]);
    ElemsShift(style, p, inner, elems);
    assert p + AfterElems(style, inner, elems) + [RBRACKET] == p + (AfterElems(style, inner, elems) + [RBRACKET]);
  }

  lemma {:induction false} ElemsShift(style: Style, p: Bytes, buf: Bytes, elems: seq<ArrOp>)
    requires buf != []
    ensures AfterElems(style, p + buf, elems) == p + AfterElems(style, buf, elems)
    decreases elems, 0
  {
    hide AfterElem;
    if elems != [] {
      ElemShift(style, p, buf, elems[0]);
      ElemsShift(style, p, AfterElem(style, buf, elems[0]), elems[1..]);
    }
  }

  lemma {:induction false} ElemShift(style: Style, p: Bytes, buf: Bytes, e: ArrOp)
    requires buf != []
    ensures AfterElem(style, p + buf, e) == p + AfterElem(style, buf, e)
    ensures AfterElem(style, buf, e) != []
    decreases e
  {
    hide Lead, AfterValue, AfterCalls, AfterElems;
    match e {
      case AppendValue(v) =>
        ValueShift(style, p, buf, v);
        ValueGrows(style, buf, v);
      case AppendReflected(r) =>
        if !r.RFailed? {
          LeadShift(style, p, buf);
          Associate(p, buf, Lead(style, buf), ReflectedText(r));
        }
      case AppendObject(ops) => ObjectShift(style, p, buf, ops);
      case AppendArray(elems) => ArrayShift(style, p, buf, elems);
    }
  }

  // ---- Splicing ----

  /** Text written ahead, behind the separator that is due, if there is any. */
  function Spliced(style: Style, buf: Bytes, text: Bytes): (r: Bytes) {
    if text == [] then buf else buf + Lead(style, buf) + text
  }

  /**
   Text written ahead is text written in place, for any tokens whatever: calls on an empty buffer,
   or on one holding earlier calls, spliced in behind `buf`, give what the calls themselves give.
   */
  lemma {:induction false} SpliceAgrees(style: Style, buf: Bytes, text: Bytes, ops: seq<ObjOp>)
    requires buf != []
    ensures Spliced(style, buf, AfterCalls(style, text, ops)) == AfterCalls(style, Spliced(style, buf, text), ops)
    decreases ops
  {
    hide AfterCall, Lead;
    if text != [] {
      var p := buf + Lead(style, buf);
      CallsShift(style, p, text, ops);
    } else if ops != [] && Silent(ops[0]) {
      SilentCall(style, ops[0]);
      SpliceAgrees(style, buf, text, ops[1..]);
    } else if ops != [] {
      FirstCall(style, buf, ops[0]);
      SpliceAgrees(style, buf, AfterCall(style, [], ops[0]), ops[1..]);
    }
  }

  lemma SilentCall(style: Style, op: ObjOp)
    requires Silent(op)
    ensures forall buf :: AfterCall(style, buf, op) == buf
  {
  }

  /** The first call to write anything. */
  lemma FirstCall(style: Style, buf: Bytes, op: ObjOp)
    requires buf != [] && !Silent(op)
    ensures AfterCall(style, [], op) != []
    ensures AfterCall(style, buf, op) == buf + Lead(style, buf) + AfterCall(style, [], op)
  {
    hide KeyText, AfterValue, AfterCalls, AfterElems;
    var p, key := buf + Lead(style, buf), KeyText(style, op.key);
    KeyIsText(style, op.key);
    assert AfterKey(style, [], op.key) == [] + [] + key == key;
    assert AfterKey(style, buf, op.key) == p + key;
    KeyedCall(style, p, key, op);
  }

  lemma KeyIsText(style: Style, key: Bytes)
    ensures KeyText(style, key) != []
  {
  }

  // ---- Trusted tokens: the positional text ----

  /** Whether no comma is due after the calls. */
  predicate After(ops: seq<ObjOp>, first: bool) {
    if ops == [] then first
    else After(ops[1..], if Silent(ops[0]) then first else ops[0].OpenNamespace?)
  }

  /** The last byte of a trusted token calls for a comma. */
  lemma TokenEnds(text: Bytes)
    requires OneValue(text)
    ensures text != [] && !NoComma(text)
  {
    hide ReadValue;
    ValueTook(text);
  }

  lemma ValueTextEnds(style: Style, v: Value)
    requires ValueOk(style, v)
    ensures ValueText(style, v) != [] && !NoComma(ValueText(style, v))
  {
    hide ReadValue, ScalarText, ScalarOk;
    ScalarReads(Resolve(style, v));
    TokenEnds(ValueText(style, v));
  }

  lemma OpTextEnds(style: Style, op: ObjOp)
    requires OpOk(style, op) && !Silent(op)
    ensures OpText(style, op) != []
    ensures NoComma(OpText(style, op)) <==> op.OpenNamespace?
  {
    hide ScalarText, ReadValue, Fragment, ElemsFragment;
    match op {
      case AddValue(_, v) => ValueTextEnds(style, v);
      case AddReflected(_, r) => TokenEnds(ReflectedText(r));
      case _ =>
    }
  }

  lemma ElemTextEnds(style: Style, e: ArrOp)
    requires ElemOk(style, e) && !SilentElem(e)
    ensures ElemText(style, e) != [] && !NoComma(ElemText(style, e))
  {
    hide ScalarText, ReadValue, Fragment, ElemsFragment;
    match e {
      case AppendValue(v) => ValueTextEnds(style, v);
      case AppendReflected(r) => TokenEnds(ReflectedText(r));
      case _ =>
    }
  }

  lemma NoCommaOfSuffix(a: Bytes, b: Bytes)
    requires b != []
    ensures NoComma(a + b) == NoComma(b)
  {
  }

  /** The last byte tells exactly whether a comma is due: looking further back is never needed. */
  lemma {:induction false} LastByteDecides(style: Style, ops: seq<ObjOp>, buf: Bytes)
    requires OpsOk(style, ops)
    ensures NoComma(buf + Fragment(style, ops, NoComma(buf))) == After(ops, NoComma(buf))
  {
    hide KeyText, OpText, Comma, OpOk, NoComma;
    if ops == [] {
      assert buf + [] == buf;
    } else if Silent(ops[0]) {
      LastByteDecides(style, ops[1..], buf);
    } else {
      var head := Lead(style, buf) + KeyText(style, ops[0].key) + OpText(style, ops[0]);
      var next := buf + head;
      OpTextEnds(style, ops[0]);
      NoCommaOfSuffix(Lead(style, buf) + KeyText(style, ops[0].key), OpText(style, ops[0]));
      NoCommaOfSuffix(buf, head);
      LastByteDecides(style, ops[1..], next);
      assert buf + Fragment(style, ops, NoComma(buf)) ==
             next + Fragment(style, ops[1..], ops[0].OpenNamespace?);
    }
  }

  /** One call and then the rest, as bytes after `buf`. */
  lemma FragmentStep(style: Style, ops: seq<ObjOp>, buf: Bytes, next: Bytes)
    requires ops != [] && OpOk(style, ops[0])
    requires if Silent(ops[0]) then next == buf
             else next == buf + Lead(style, buf) + KeyText(style, ops[0].key) + OpText(style, ops[0])
    ensures buf + Fragment(style, ops, NoComma(buf)) == next + Fragment(style, ops[1..], NoComma(next))
  {
    hide KeyText, OpText, Comma, OpOk, NoComma;
    if !Silent(ops[0]) {
      OpTextEnds(style, ops[0]);
      NoCommaOfSuffix(buf + Lead(style, buf) + KeyText(style, ops[0].key), OpText(style, ops[0]));
    }
  }

  lemma ElemsStep(style: Style, elems: seq<ArrOp>, buf: Bytes, next: Bytes)
    requires elems != [] && ElemOk(style, elems[0])
    requires if SilentElem(elems[0]) then next == buf
             else next == buf + Lead(style, buf) + ElemText(style, elems[0])
    ensures buf + ElemsFragment(style, elems, NoComma(buf)) ==
            next + ElemsFragment(style, elems[1..], NoComma(next))
  {
    hide ElemText, Comma, ElemOk, NoComma;
    if !SilentElem(elems[0]) {
      ElemTextEnds(style, elems[0]);
      NoCommaOfSuffix(buf + Lead(style, buf), ElemText(style, elems[0]));
    }
  }

  lemma RegroupObject(buf: Bytes, lead: Bytes, f: Bytes, c: Bytes)
    requires c + [RBRACE] == [RBRACE] + c
    ensures buf + lead + [LBRACE] + f + [RBRACE] + c == buf + lead + ([LBRACE] + f + c + [RBRACE])
  {
    assert buf + lead + [LBRACE] + f + [RBRACE] + c == buf + lead + [LBRACE] + f + ([RBRACE] + c);
  }

  lemma KeyCallsForNothing(style: Style, buf: Bytes, key: Bytes)
    ensures Lead(style, AfterKey(style, buf, key)) == []
  {
    hide Quoted, Escape;
  }

  lemma ValueIsText(style: Style, buf: Bytes, v: Value)
    requires ValueOk(style, v)
    ensures AfterValue(style, buf, v) == buf + Lead(style, buf) + ValueText(style, v)
  {
    hide ScalarText, ScalarOk, Lead;
    ValueTextEnds(style, v);
  }

  /** Trusted calls leave their positional text behind, commas included. */
  lemma {:induction false} CallsAreText(style: Style, buf: Bytes, ops: seq<ObjOp>)
    requires OpsOk(style, ops)
    ensures AfterCalls(style, buf, ops) == buf + Fragment(style, ops, NoComma(buf))
    decreases ops, 0
  {
    if ops == [] {
      assert buf + [] == buf;
    } else {
      hide Fragment, KeyText, OpText, OpOk, Lead, NoComma, AfterCall;
      CallIsText(style, buf, ops[0]);
      var next := AfterCall(style, buf, ops[0]);
      FragmentStep(style, ops, buf, next);
      CallsAreText(style, next, ops[1..]);
    }
  }

  lemma {:induction false} CallIsText(style: Style, buf: Bytes, op: ObjOp)
    requires OpOk(style, op)
    ensures AfterCall(style, buf, op)
         == if Silent(op) then buf else buf + Lead(style, buf) + KeyText(style, op.key) + OpText(style, op)
    decreases op
  {
    hide KeyText, Lead, AfterValue, AfterObject, AfterArray, ObjectText, ArrayText, ValueText, ValueOk;
    if !Silent(op) {
      var keyed := AfterKey(style, buf, op.key);
      KeyCallsForNothing(style, buf, op.key);
      assert keyed + [] == keyed;
      match op {
        case AddValue(_, v) => ValueIsText(style, keyed, v);
        case AddObject(_, ops) => ObjectIsText(style, keyed, ops);
        case AddArray(_, elems) => ArrayIsText(style, keyed, elems);
        case _ =>
      }
    }
  }

  lemma {:induction false} ObjectIsText(style: Style, buf: Bytes, ops: seq<ObjOp>)
    requires OpsOk(style, ops)
    ensures AfterObject(style, buf, ops) == buf + Lead(style, buf) + ObjectText(style, ops)
    decreases ops, 1
  {
    hide Fragment, Closers, Lead, AfterCalls;
    var inner := buf + Lead(style, buf) + [LBRACE];
    CallsAreText(style, inner, ops);
    CloserLast(Opens(ops));
    RegroupObject(buf, Lead(style, buf), Fragment(style, ops, true), Closers(Opens(ops)));
  }

  lemma {:induction false} ArrayIsText(style: Style, buf: Bytes, elems: seq<ArrOp>)
    requires ElemsOk(style, elems)
    ensures AfterArray(style, buf, elems) == buf + Lead(style, buf) + ArrayText(style, elems)
    decreases elems, 1
  {
    hide ElemsFragment, Lead, AfterElems;
    var inner := buf + Lead(style, buf) + [LBRACKET];
    ElemsAreText(style, inner, elems);
  }

  lemma {:induction false} ElemsAreText(style: Style, buf: Bytes, elems: seq<ArrOp>)
    requires ElemsOk(style, elems)
    ensures AfterElems(style, buf, elems) == buf + ElemsFragment(style, elems, NoComma(buf))
    decreases elems, 0
  {
    if elems == [] {
      assert buf + [] == buf;
    } else {
      hide ElemsFragment, ElemText, ElemOk, Lead, NoComma, AfterElem;
      ElemIsText(style, buf, elems[0]);
      var next := AfterElem(style, buf, elems[0]);
      ElemsStep(style, elems, buf, next);
      ElemsAreText(style, next, elems[1..]);
    }
  }

  lemma {:induction false} ElemIsText(style: Style, buf: Bytes, e: ArrOp)
    requires ElemOk(style, e)
    ensures AfterElem(style, buf, e) == if SilentElem(e) then buf else buf + Lead(style, buf) + ElemText(style, e)
    decreases e
  {
    hide Lead, AfterValue, AfterObject, AfterArray, ObjectText, ArrayText, ValueText, ValueOk;
    match e {
      case AppendValue(v) => ValueIsText(style, buf, v);
      case AppendReflected(r) =>
      case AppendObject(ops) => ObjectIsText(style, buf, ops);
      case AppendArray(elems) => ArrayIsText(style, buf, elems);
    }
  }

  // ---- Lines ----

  /** A member of the entry whose value a user encoder may leave to the fallback. */
  function AfterMember(style: Style, buf: Bytes, key: Bytes, r: Option<Scalar>, fallback: Scalar): (b: Bytes) {
    AfterUser(style, AfterKey(style, buf, key), r, fallback)
  }

  function AfterLevel(cfg: Config, buf: Bytes, ent: Entry): (b: Bytes) {
    if cfg.levelKey == [] || cfg.encodeLevel.None? then buf
    else AfterMember(cfg.style, buf, cfg.levelKey, cfg.encodeLevel.value(ent.level), SString(LevelName(ent.level)))
  }

  function AfterName(cfg: Config, buf: Bytes, ent: Entry): (b: Bytes) {
    if ent.loggerName == [] || cfg.nameKey == [] then buf
    else
      var r := if cfg.encodeName.Some? then cfg.encodeName.value(ent.loggerName) else None;
      AfterMember(cfg.style, buf, cfg.nameKey, r, SString(ent.loggerName))
  }

  function AfterCaller(cfg: Config, buf: Bytes, ent: Entry): (b: Bytes) {
    if ent.caller.None? || cfg.callerKey == [] then buf
    else
      var c := ent.caller.value;
      AfterMember(cfg.style, buf, cfg.callerKey, cfg.encodeCaller(c), SString(FullPath(c)))
  }

  /** Everything `EncodeEntry` writes before the context. */
  function AfterEntry(cfg: Config, buf: Bytes, ent: Entry): (b: Bytes) {
    var level := AfterLevel(cfg, buf, ent);
    var name := AfterName(cfg, AfterCalls(cfg.style, level, TimeOps(cfg, ent)), ent);
    AfterCalls(cfg.style, AfterCaller(cfg, name, ent), FunctionOps(cfg, ent) + MessageOps(cfg, ent))
  }

  /** The line of an encoder that holds `text` and has `open` namespaces open. */
  function Line(cfg: Config, ent: Entry, text: Bytes, open: nat, ops: seq<ObjOp>): (line: Bytes) {
    var start := Spliced(cfg.style, AfterEntry(cfg, [LBRACE], ent), text);
    var closed := AfterCalls(cfg.style, start, ops) + Closers(open + Opens(ops));
    AfterCalls(cfg.style, closed, StackOps(cfg, ent)) + [RBRACE] + cfg.lineEnding
  }

  lemma EntryNotEmpty(cfg: Config, ent: Entry, buf: Bytes)
    requires buf != []
    ensures AfterEntry(cfg, buf, ent) != []
  {
    hide AfterCalls, LevelName, FullPath;
    var level := AfterLevel(cfg, buf, ent);
    MemberGrows(cfg.style, buf, cfg.levelKey);
    CallsShift(cfg.style, [], level, TimeOps(cfg, ent));
    var timed := AfterCalls(cfg.style, level, TimeOps(cfg, ent));
    MemberGrows(cfg.style, timed, cfg.nameKey);
    var name := AfterName(cfg, timed, ent);
    MemberGrows(cfg.style, name, cfg.callerKey);
    CallsShift(cfg.style, [], AfterCaller(cfg, name, ent), FunctionOps(cfg, ent) + MessageOps(cfg, ent));
  }

  lemma MemberGrows(style: Style, buf: Bytes, key: Bytes)
    requires buf != []
    ensures forall r, fallback :: AfterMember(style, buf, key, r, fallback) != []
  {
    hide ScalarText, KeyText, Lead;
  }

  /**
   Pre-serialised context agrees with no cache, for any tokens whatever: calls made ahead on the
   context and calls made in the entry give the same line.
   */
  lemma CachedLine(cfg: Config, ent: Entry, text: Bytes, open: nat, a: seq<ObjOp>, b: seq<ObjOp>)
    ensures Line(cfg, ent, AfterCalls(cfg.style, text, a), open + Opens(a), b) == Line(cfg, ent, text, open, a + b)
  {
    hide AfterCalls, AfterEntry, Spliced, Closers;
    var entry := AfterEntry(cfg, [LBRACE], ent);
    EntryNotEmpty(cfg, ent, [LBRACE]);
    SpliceAgrees(cfg.style, entry, text, a);
    AfterCallsConcat(cfg.style, Spliced(cfg.style, entry, text), a, b);
    OpensConcat(a, b);
  }

  lemma MemberIsCall(style: Style, buf: Bytes, key: Bytes, r: Option<Scalar>, fallback: Scalar)
    requires ScalarOk(UserOr(r, fallback))
    ensures AfterMember(style, buf, key, r, fallback) == AfterCalls(style, buf, Member(key, UserOr(r, fallback)))
  {
    hide ScalarText, ScalarOk, Lead, KeyText;
    var s := UserOr(r, fallback);
    var keyed := AfterKey(style, buf, key);
    ValueTextEnds(style, Simple(s));
    assert AfterUser(style, keyed, r, fallback) == AfterScalar(style, keyed, s);
    assert Member(key, s)[1..] == [];
    assert AfterCalls(style, buf, Member(key, s)) == AfterCall(style, buf, AddValue(key, Simple(s)));
  }

  lemma NoFragment(style: Style)
    ensures forall first :: Fragment(style, [], first) == []
    ensures OpsOk(style, [])
  {
  }

  lemma EntryOpsOk(cfg: Config, ent: Entry)
    requires OpsOk(cfg.style, EntryOps(cfg, ent))
    ensures var (l, t, n, c, f) := (LevelOps(cfg, ent), TimeOps(cfg, ent), NameOps(cfg, ent),
                                    CallerOps(cfg, ent), FunctionOps(cfg, ent));
            var style := cfg.style;
            && OpsOk(style, l) && OpsOk(style, t) && OpsOk(style, n) && OpsOk(style, c)
            && OpsOk(style, []) && OpsOk(style, l + t) && OpsOk(style, l + t + n)
            && OpsOk(style, l + t + n + c) && OpsOk(style, l + t + n + c + f)
  {
    hide OpsOk, LevelOps, TimeOps, NameOps, CallerOps, FunctionOps, MessageOps;
    var (l, t, n, c, f, m) := (LevelOps(cfg, ent), TimeOps(cfg, ent), NameOps(cfg, ent),
                               CallerOps(cfg, ent), FunctionOps(cfg, ent), MessageOps(cfg, ent));
    NoFragment(cfg.style);
    OpsOkConcat(cfg.style, l + t + n + c + f, m);
    OpsOkConcat(cfg.style, l + t + n + c, f);
    OpsOkConcat(cfg.style, l + t + n, c);
    OpsOkConcat(cfg.style, l + t, n);
    OpsOkConcat(cfg.style, l, t);
  }

  /** A trusted entry's members are calls like any others. */
  lemma EntryIsCalls(cfg: Config, ent: Entry, buf: Bytes)
    requires OpsOk(cfg.style, EntryOps(cfg, ent))
    ensures AfterEntry(cfg, buf, ent) == AfterCalls(cfg.style, buf, EntryOps(cfg, ent))
  {
    hide AfterCalls, LevelOps, TimeOps, NameOps, CallerOps, FunctionOps, MessageOps, OpsOk;
    hide AfterLevel, AfterName, AfterCaller;
    var style := cfg.style;
    var (l, t, n, c, f, m) := (LevelOps(cfg, ent), TimeOps(cfg, ent), NameOps(cfg, ent),
                               CallerOps(cfg, ent), FunctionOps(cfg, ent), MessageOps(cfg, ent));
    EntryOpsOk(cfg, ent);
    LevelIsCalls(cfg, ent, buf);
    AfterCallsConcat(style, buf, l, t);
    NameIsCalls(cfg, ent, AfterCalls(style, buf, l + t));
    AfterCallsConcat(style, buf, l + t, n);
    CallerIsCalls(cfg, ent, AfterCalls(style, buf, l + t + n));
    AfterCallsConcat(style, buf, l + t + n, c);
    AfterCallsConcat(style, buf, l + t + n + c, f + m);
    assert l + t + n + c + (f + m) == EntryOps(cfg, ent);
  }

  lemma LevelIsCalls(cfg: Config, ent: Entry, buf: Bytes)
    requires OpsOk(cfg.style, LevelOps(cfg, ent))
    ensures AfterLevel(cfg, buf, ent) == AfterCalls(cfg.style, buf, LevelOps(cfg, ent))
  {
    hide AfterMember, ScalarOk, LevelName;
    if cfg.levelKey != [] && cfg.encodeLevel.Some? {
      MemberIsCall(cfg.style, buf, cfg.levelKey, cfg.encodeLevel.value(ent.level), SString(LevelName(ent.level)));
    }
  }

  lemma NameIsCalls(cfg: Config, ent: Entry, buf: Bytes)
    requires OpsOk(cfg.style, NameOps(cfg, ent))
    ensures AfterName(cfg, buf, ent) == AfterCalls(cfg.style, buf, NameOps(cfg, ent))
  {
    hide AfterMember, ScalarOk;
    if ent.loggerName != [] && cfg.nameKey != [] {
      var r := if cfg.encodeName.Some? then cfg.encodeName.value(ent.loggerName) else None;
      MemberIsCall(cfg.style, buf, cfg.nameKey, r, SString(ent.loggerName));
    }
  }

  lemma CallerIsCalls(cfg: Config, ent: Entry, buf: Bytes)
    requires OpsOk(cfg.style, CallerOps(cfg, ent))
    ensures AfterCaller(cfg, buf, ent) == AfterCalls(cfg.style, buf, CallerOps(cfg, ent))
  {
    hide AfterMember, ScalarOk, FullPath;
    if ent.caller.Some? && cfg.callerKey != [] {
      var c := ent.caller.value;
      MemberIsCall(cfg.style, buf, cfg.callerKey, cfg.encodeCaller(c), SString(FullPath(c)));
    }
  }

  /** After the closing braces a comma is due exactly when the object holds something. */
  lemma StackComma(style: Style, all: seq<ObjOp>, ops: seq<ObjOp>, entryOps: seq<ObjOp>, buf: Bytes)
    requires OpsOk(style, all) && all == entryOps + ops && Opens(entryOps) == 0
    requires buf == [LBRACE] + Fragment(style, all, true) + Closers(Opens(ops))
    ensures NoComma(buf) == !Emits(all)
  {
    hide OpsOk, Fragment;
    OpensConcat(entryOps, ops);
    FreshnessIsAComma(style, all);
    if Opens(ops) == 0 {
      assert buf == [LBRACE] + Fragment(style, all, true);
      LastByteDecides(style, all, [LBRACE]);
      AfterNothingOpen(all, true);
    }
  }

  lemma {:induction false} AfterNothingOpen(ops: seq<ObjOp>, first: bool)
    requires Opens(ops) == 0
    ensures After(ops, first) == (first && !Emits(ops))
  {
    if ops != [] {
      AfterNothingOpen(ops[1..], if Silent(ops[0]) then first else false);
    }
  }

  /** With trusted tokens the line is the positional text of entry, context and fields. */
  lemma LineIsText(cfg: Config, ent: Entry, context: seq<ObjOp>, ops: seq<ObjOp>)
    requires OpsOk(cfg.style, EntryOps(cfg, ent)) && OpsOk(cfg.style, context) && OpsOk(cfg.style, ops)
    ensures Line(cfg, ent, AfterCalls(cfg.style, [], context), Opens(context), ops)
         == EntryText(cfg, ent, context + ops)
  {
    hide AfterCalls, AfterEntry, EntryOps, Fragment, OpsOk, Closers, StackOps, NoComma, Spliced;
    var style, entryOps, stack := cfg.style, EntryOps(cfg, ent), StackOps(cfg, ent);
    var all := entryOps + (context + ops);
    CachedLine(cfg, ent, [], 0, context, ops);
    EntryIsCalls(cfg, ent, [LBRACE]);
    NothingSpliced(style, AfterCalls(style, [LBRACE], entryOps));
    AfterCallsConcat(style, [LBRACE], entryOps, context + ops);
    OpsOkConcat(style, context, ops);
    OpsOkConcat(style, entryOps, context + ops);
    CallsAreText(style, [LBRACE], all);
    OpeningBrace();
    var closed := [LBRACE] + Fragment(style, all, true) + Closers(Opens(context + ops));
    EntryOpsOpenNothing(cfg, ent);
    StackComma(style, all, context + ops, entryOps, closed);
    StackOk(cfg, ent);
    CallsAreText(style, closed, stack);
  }

  lemma NothingSpliced(style: Style, buf: Bytes)
    ensures Spliced(style, buf, []) == buf
  {
  }

  lemma OpeningBrace()
    ensures NoComma([LBRACE])
  {
  }
}
