/**
 The text of a list of encoder calls and its meaning. A namespace is an object that
 everything after it goes into; it stays open until its enclosing object ends.
 */
module JsonFragments {
  import opened Utf8
  import opened StringEscape
  import opened JsonText
  import opened EncoderOps
  import opened JsonRendering

  /** The scalar a value ends up as: a user encoder's append, or the numeric fallback. */
  function Resolve(style: Style, v: Value): (s: Scalar) {
    match v
    case Simple(s) => s
    case Duration(d) =>
      if style.encodeDuration.Some? && style.encodeDuration.value(d).Some?
      then style.encodeDuration.value(d).value else SInt(d)
    case Time(t) =>
      if style.encodeTime.Some? && style.encodeTime.value(t).Some?
      then style.encodeTime.value(t).value else SInt(t.unixNano)
  }

  function ValueText(style: Style, v: Value): (t: Bytes) {
    ScalarText(Resolve(style, v))
  }

  function TrimNewline(t: Bytes): (r: Bytes) {
    if t != [] && t[|t| - 1] == 0x0A then t[..|t| - 1] else t
  }

  function ReflectedText(r: Reflected): (t: Bytes)
    requires !r.RFailed?
  {
    if r.RNil? then NULL_TEXT else TrimNewline(r.raw)
  }

  /** A reflected value that could not be encoded leaves nothing in the buffer. */
  predicate Silent(op: ObjOp) {
    op.AddReflected? && op.r.RFailed?
  }

  predicate SilentElem(e: ArrOp) {
    e.AppendReflected? && e.r.RFailed?
  }

  predicate Emits(ops: seq<ObjOp>) {
    ops != [] && (!Silent(ops[0]) || Emits(ops[1..]))
  }

  function Comma(style: Style): (t: Bytes) {
    if style.spaced then [COMMA, SPACE] else [COMMA]
  }

  function KeyText(style: Style, key: Bytes): (t: Bytes) {
    Quoted(Escape(key)) + (if style.spaced then [COLON, SPACE] else [COLON])
  }

  function Closers(n: nat): (t: Bytes)
    ensures |t| == n
    ensures forall i :: 0 <= i < n ==> t[i] == RBRACE
  {
    if n == 0 then [] else [RBRACE] + Closers(n - 1)
  }

  /** Text of the calls; `first` when no comma is due before the first. */
  function Fragment(style: Style, ops: seq<ObjOp>, first: bool): (t: Bytes)
    decreases ops, 0
  {
    if ops == [] then []
    else if Silent(ops[0]) then Fragment(style, ops[1..], first)
    else
      (if first then [] else Comma(style))
      + KeyText(style, ops[0].key) + OpText(style, ops[0])
      + Fragment(style, ops[1..], ops[0].OpenNamespace?)
  }

  /** Text of one call after its key. */
  function OpText(style: Style, op: ObjOp): (t: Bytes)
    requires !Silent(op)
    decreases op
  {
    match op
    case AddValue(_, v) => ValueText(style, v)
    case AddReflected(_, r) => ReflectedText(r)
    case AddObject(_, ops) => ObjectText(style, ops)
    case AddArray(_, elems) => ArrayText(style, elems)
    case OpenNamespace(_) => [LBRACE]
  }

  function ObjectText(style: Style, ops: seq<ObjOp>): (t: Bytes)
    decreases ops, 1
  {
    [LBRACE] + Fragment(style, ops, true) + Closers(Opens(ops)) + [RBRACE]
  }

  function ArrayText(style: Style, elems: seq<ArrOp>): (t: Bytes)
    decreases elems, 1
  {
    [LBRACKET] + ElemsFragment(style, elems, true) + [RBRACKET]
  }

  function ElemsFragment(style: Style, elems: seq<ArrOp>, first: bool): (t: Bytes)
    decreases elems, 0
  {
    if elems == [] then []
    else if SilentElem(elems[0]) then ElemsFragment(style, elems[1..], first)
    else
      (if first then [] else Comma(style)) + ElemText(style, elems[0]) + ElemsFragment(style, elems[1..], false)
  }

  function ElemText(style: Style, e: ArrOp): (t: Bytes)
    requires !SilentElem(e)
    decreases e
  {
    match e
    case AppendValue(v) => ValueText(style, v)
    case AppendReflected(r) => ReflectedText(r)
    case AppendObject(ops) => ObjectText(style, ops)
    case AppendArray(elems) => ArrayText(style, elems)
  }

  // ---- Trusted library output, all the way down ----

  predicate ReflectedOk(r: Reflected) {
    !r.RFailed? ==> OneValue(ReflectedText(r))
  }

  predicate ValueOk(style: Style, v: Value) {
    ScalarOk(Resolve(style, v))
  }

  predicate OpsOk(style: Style, ops: seq<ObjOp>)
    decreases ops
  {
    ops != [] ==> OpOk(style, ops[0]) && OpsOk(style, ops[1..])
  }

  predicate OpOk(style: Style, op: ObjOp)
    decreases op
  {
    match op
    case AddValue(_, v) => ValueOk(style, v)
    case AddReflected(_, r) => ReflectedOk(r)
    case AddObject(_, ops) => OpsOk(style, ops)
    case AddArray(_, elems) => ElemsOk(style, elems)
    case OpenNamespace(_) => true
  }

  predicate ElemsOk(style: Style, elems: seq<ArrOp>)
    decreases elems
  {
    elems != [] ==> ElemOk(style, elems[0]) && ElemsOk(style, elems[1..])
  }

  predicate ElemOk(style: Style, e: ArrOp)
    decreases e
  {
    match e
    case AppendValue(v) => ValueOk(style, v)
    case AppendReflected(r) => ReflectedOk(r)
    case AppendObject(ops) => OpsOk(style, ops)
    case AppendArray(elems) => ElemsOk(style, elems)
  }

  lemma {:induction false} OpsOkConcat(style: Style, a: seq<ObjOp>, b: seq<ObjOp>)
    ensures OpsOk(style, a + b) <==> OpsOk(style, a) && OpsOk(style, b)
  {
    hide OpOk;
    if a == [] {
      assert a + b == b;
    } else {
      OpsOkConcat(style, a[1..], b);
      assert (a + b)[1..] == a[1..] + b;
    }
  }

  // ---- Meaning ----

  function ReflectedJson(r: Reflected): (j: Json)
    requires !r.RFailed? && ReflectedOk(r)
  {
    ReadValue(ReflectedText(r)).value.0
  }

  /** The members, in order and with duplicates, that the calls put into their object. */
  function MembersOf(style: Style, ops: seq<ObjOp>): (ms: seq<JMember>)
    requires OpsOk(style, ops)
    decreases ops
  {
    if ops == [] then []
    else if Silent(ops[0]) then MembersOf(style, ops[1..])
    else if ops[0].OpenNamespace? then
      [JMember(Sanitize(ops[0].key), JObject(MembersOf(style, ops[1..])))]
    else [JMember(Sanitize(ops[0].key), OpJson(style, ops[0]))] + MembersOf(style, ops[1..])
  }

  function OpJson(style: Style, op: ObjOp): (j: Json)
    requires OpOk(style, op) && !Silent(op) && !op.OpenNamespace?
    decreases op
  {
    match op
    case AddValue(_, v) => ScalarJson(Resolve(style, v))
    case AddReflected(_, r) => ReflectedJson(r)
    case AddObject(_, ops) => JObject(MembersOf(style, ops))
    case AddArray(_, elems) => JArray(ElementsOf(style, elems))
  }

  function ElementsOf(style: Style, elems: seq<ArrOp>): (js: seq<Json>)
    requires ElemsOk(style, elems)
    decreases elems
  {
    if elems == [] then []
    else if SilentElem(elems[0]) then ElementsOf(style, elems[1..])
    else [ElemJson(style, elems[0])] + ElementsOf(style, elems[1..])
  }

  function ElemJson(style: Style, e: ArrOp): (j: Json)
    requires ElemOk(style, e) && !SilentElem(e)
    decreases e
  {
    match e
    case AppendValue(v) => ScalarJson(Resolve(style, v))
    case AppendReflected(r) => ReflectedJson(r)
    case AppendObject(ops) => JObject(MembersOf(style, ops))
    case AppendArray(elems) => JArray(ElementsOf(style, elems))
  }

  // ---- The text reads back as its meaning ----

  /** Text that goes on with another member or ends the object. */
  predicate GoesOn(y: Bytes) {
    y != [] && (y[0] == COMMA || y[0] == RBRACE)
  }

  lemma SkipSpace(t: Bytes)
    ensures SkipWhitespace([SPACE] + t) == SkipWhitespace(t)
  {
    assert ([SPACE] + t)[1..] == t;
  }

  lemma SkipNothing(t: Bytes)
    requires t == [] || !Whitespace(t[0])
    ensures SkipWhitespace(t) == t
  {
  }

  /** Reading is not disturbed by the optional space after a colon or a comma. */
  lemma SpacedValue(t: Bytes)
    ensures ReadValue([SPACE] + t) == ReadValue(t)
  {
    hide SkipWhitespace, ReadObject, ReadArray, ReadScalar;
    SkipSpace(t);
  }

  lemma SpacedMember(t: Bytes)
    ensures ReadMember([SPACE] + t) == ReadMember(t)
  {
    hide SkipWhitespace, ReadString, ReadMemberValue;
    SkipSpace(t);
  }

  lemma AfterOpeningQuote(e: Bytes, c: Bytes, w: Bytes)
    ensures var t := Quoted(e) + c + w; t != [] && t[0] == QUOTE && t[1..] == e + [QUOTE] + (c + w)
  {
  }

  lemma ColonReads(style: Style, w: Bytes)
    ensures ReadMemberValue((if style.spaced then [COLON, SPACE] else [COLON]) + w) == ReadValue(w)
  {
    hide ReadValue;
    var t := (if style.spaced then [COLON, SPACE] else [COLON]) + w;
    SkipNothing(t);
    if style.spaced {
      SpacedValue(w);
      assert t[1..] == [SPACE] + w;
    } else {
      assert t[1..] == w;
    }
  }

  lemma MemberReads(style: Style, key: Bytes, w: Bytes)
    requires ReadValue(w).Some?
    ensures ReadMember(KeyText(style, key) + w) ==
            Some((JMember(Sanitize(key), ReadValue(w).value.0), ReadValue(w).value.1))
  {
    hide ReadValue, ReadString, ReadMemberValue, Escape, Quoted, SkipWhitespace;
    var c := if style.spaced then [COLON, SPACE] else [COLON];
    var t := KeyText(style, key) + w;
    AfterOpeningQuote(Escape(key), c, w);
    SkipNothing(t);
    ReadEscaped(key, c + w);
    ColonReads(style, w);
  }

  lemma CommaReads(style: Style, t: Bytes)
    ensures ReadMoreMembers(Comma(style) + t) == ReadMembers(t)
  {
    hide ReadMembers, ReadMember;
    var c := Comma(style) + t;
    SkipNothing(c);
    if style.spaced {
      SpacedMember(t);
      assert c[1..] == [SPACE] + t;
      MembersFromMember([SPACE] + t, t);
    } else {
      assert c[1..] == t;
    }
  }

  lemma MembersFromMember(s: Bytes, t: Bytes)
    requires ReadMember(s) == ReadMember(t)
    ensures ReadMembers(s) == ReadMembers(t)
  {
    hide ReadMember, ReadMoreMembers;
  }

  lemma CommaReadsElement(style: Style, t: Bytes)
    ensures ReadMoreElements(Comma(style) + t) == ReadElements(t)
  {
    hide ReadElements, ReadValue;
    var c := Comma(style) + t;
    SkipNothing(c);
    if style.spaced {
      SpacedValue(t);
      assert c[1..] == [SPACE] + t;
      ElementsFromValue([SPACE] + t, t);
    } else {
      assert c[1..] == t;
    }
  }

  lemma ElementsFromValue(s: Bytes, t: Bytes)
    requires ReadValue(s) == ReadValue(t)
    ensures ReadElements(s) == ReadElements(t)
  {
    hide ReadValue, ReadMoreElements;
  }

  lemma CloserReads(y: Bytes)
    ensures ReadMoreMembers([RBRACE] + y) == Some(([], y))
  {
    hide ReadMembers;
    SkipNothing([RBRACE] + y);
    assert ([RBRACE] + y)[1..] == y;
  }

  lemma {:induction false} CloserLast(n: nat)
    ensures Closers(n) + [RBRACE] == [RBRACE] + Closers(n)
  {
    if n > 0 {
      CloserLast(n - 1);
      assert Closers(n) + [RBRACE] == [RBRACE] + (Closers(n - 1) + [RBRACE]);
    }
  }

  /** Commas are the only difference between a first fragment and one that is not. */
  lemma {:induction false} FreshnessIsAComma(style: Style, ops: seq<ObjOp>)
    ensures Emits(ops) ==> Fragment(style, ops, false) == Comma(style) + Fragment(style, ops, true)
    ensures !Emits(ops) ==> Fragment(style, ops, false) == Fragment(style, ops, true) == [] && Opens(ops) == 0
  {
    if ops != [] && Silent(ops[0]) {
      FreshnessIsAComma(style, ops[1..]);
    }
  }

  lemma {:induction false} ElemFreshnessIsAComma(style: Style, elems: seq<ArrOp>)
    ensures EmitsElem(elems) ==>
              ElemsFragment(style, elems, false) == Comma(style) + ElemsFragment(style, elems, true)
  {
    if elems != [] && SilentElem(elems[0]) {
      ElemFreshnessIsAComma(style, elems[1..]);
    }
  }

  /** The text after the head of a fragment lets a number end. */
  lemma TailGoesOn(style: Style, ops: seq<ObjOp>, y: Bytes)
    requires GoesOn(y)
    ensures var z := Fragment(style, ops, false) + Closers(Opens(ops)) + y; GoesOn(z) && Stops(z)
  {
    FreshnessIsAComma(style, ops);
  }

  /** Whatever the object goes on with, the calls' members come first. */
  lemma {:induction false} MembersRead(style: Style, ops: seq<ObjOp>, y: Bytes)
    requires OpsOk(style, ops)
    requires GoesOn(y) && ReadMoreMembers(y).Some?
    ensures ReadMoreMembers(Fragment(style, ops, false) + Closers(Opens(ops)) + y) ==
            Some((MembersOf(style, ops) + ReadMoreMembers(y).value.0, ReadMoreMembers(y).value.1))
    decreases ops, 1
  {
    hide ReadMoreMembers, ReadMembers, Fragment;
    FreshnessIsAComma(style, ops);
    if Emits(ops) {
      var t := Fragment(style, ops, true) + Closers(Opens(ops)) + y;
      FirstMembersRead(style, ops, y);
      CommaReads(style, t);
      assert Fragment(style, ops, false) + Closers(Opens(ops)) + y == Comma(style) + t;
    } else {
      NoMembers(style, ops);
      assert Fragment(style, ops, false) + Closers(Opens(ops)) + y == y;
      assert MembersOf(style, ops) + ReadMoreMembers(y).value.0 == ReadMoreMembers(y).value.0;
    }
  }

  lemma {:induction false} NoMembers(style: Style, ops: seq<ObjOp>)
    requires OpsOk(style, ops) && !Emits(ops)
    ensures MembersOf(style, ops) == []
  {
    if ops != [] {
      NoMembers(style, ops[1..]);
    }
  }

  lemma {:induction false} FirstMembersRead(style: Style, ops: seq<ObjOp>, y: Bytes)
    requires OpsOk(style, ops) && Emits(ops)
    requires GoesOn(y) && ReadMoreMembers(y).Some?
    ensures ReadMembers(Fragment(style, ops, true) + Closers(Opens(ops)) + y) ==
            Some((MembersOf(style, ops) + ReadMoreMembers(y).value.0, ReadMoreMembers(y).value.1))
    decreases ops, 0
  {
    hide ReadMoreMembers, ReadMembers, ReadValue, KeyText, OpText, Fragment, GoesOn, Closers;
    SplitHead(style, ops, y);
    if Silent(ops[0]) {
      FirstMembersRead(style, ops[1..], y);
    } else if ops[0].OpenNamespace? {
      NamespaceReads(style, ops[0].key, ops[1..], y);
    } else {
      var z := Fragment(style, ops[1..], false) + Closers(Opens(ops[1..])) + y;
      MembersRead(style, ops[1..], y);
      assert Stops(z) by { TailGoesOn(style, ops[1..], y); }
      OpReads(style, ops[0], z);
      HeadReads(style, ops[0].key, OpText(style, ops[0]) + z);
      assert [JMember(Sanitize(ops[0].key), OpJson(style, ops[0]))]
             + (MembersOf(style, ops[1..]) + ReadMoreMembers(y).value.0)
          == MembersOf(style, ops) + ReadMoreMembers(y).value.0;
    }
  }

  lemma Regroup(a: Bytes, b: Bytes, c: Bytes, d: Bytes, e: Bytes)
    ensures [] + a + b + c + d + e == a + (b + (c + d + e))
    ensures [] + a + b + c + d + e == a + b + c + d + e
  {
  }

  lemma SplitHead(style: Style, ops: seq<ObjOp>, y: Bytes)
    requires ops != []
    ensures var t := Fragment(style, ops, true) + Closers(Opens(ops)) + y;
            var rest := ops[1..];
            if Silent(ops[0]) then
              t == Fragment(style, rest, true) + Closers(Opens(rest)) + y
            else if ops[0].OpenNamespace? then
              t == KeyText(style, ops[0].key) + [LBRACE] + Fragment(style, rest, true) + Closers(1 + Opens(rest)) + y
            else
              t == KeyText(style, ops[0].key)
                   + (OpText(style, ops[0]) + (Fragment(style, rest, false) + Closers(Opens(rest)) + y))
  {
    hide KeyText, Closers;
    if !Silent(ops[0]) {
      var op := ops[0];
      Regroup(KeyText(style, op.key), OpText(style, op), Fragment(style, ops[1..], op.OpenNamespace?),
              Closers(Opens(ops)), y);
    }
  }

  /** A member followed by the rest of its object. */
  lemma HeadReads(style: Style, key: Bytes, w: Bytes)
    requires ReadValue(w).Some? && ReadMoreMembers(ReadValue(w).value.1).Some?
    ensures var (j, z) := ReadValue(w).value;
            ReadMembers(KeyText(style, key) + w) ==
            Some(([JMember(Sanitize(key), j)] + ReadMoreMembers(z).value.0, ReadMoreMembers(z).value.1))
  {
    hide ReadValue, ReadMoreMembers, ReadMember, KeyText;
    MemberReads(style, key, w);
  }

  lemma {:induction false} NamespaceReads(style: Style, key: Bytes, ops: seq<ObjOp>, y: Bytes)
    requires OpsOk(style, ops)
    requires GoesOn(y) && ReadMoreMembers(y).Some?
    ensures ReadMembers(KeyText(style, key) + [LBRACE] + Fragment(style, ops, true) + Closers(1 + Opens(ops)) + y) ==
            Some(([JMember(Sanitize(key), JObject(MembersOf(style, ops)))] + ReadMoreMembers(y).value.0,
                  ReadMoreMembers(y).value.1))
    decreases ops, 3
  {
    hide ReadValue, ReadMoreMembers, ReadMembers, KeyText, Fragment;
    var w := ObjectText(style, ops) + y;
    ObjectReads(style, ops, y);
    HeadReads(style, key, w);
    CloserLast(Opens(ops));
    assert KeyText(style, key) + [LBRACE] + Fragment(style, ops, true) + Closers(1 + Opens(ops)) + y ==
           KeyText(style, key) + w;
  }

  /** An object's text reads as its members whatever comes after it. */
  lemma {:induction false} ObjectReads(style: Style, ops: seq<ObjOp>, x: Bytes)
    requires OpsOk(style, ops)
    ensures ReadValue(ObjectText(style, ops) + x) == Some((JObject(MembersOf(style, ops)), x))
    decreases ops, 2
  {
    hide ReadMoreMembers, ReadMembers, Fragment;
    var t := ObjectText(style, ops) + x;
    var y := [RBRACE] + x;
    var body := Fragment(style, ops, true) + Closers(Opens(ops)) + y;
    assert t[1..] == body;
    CloserReads(x);
    SkipNothing(t);
    if Emits(ops) {
      FirstMembersRead(style, ops, y);
      StartsWithQuote(style, ops, body);
      SkipNothing(body);
      assert MembersOf(style, ops) + [] == MembersOf(style, ops);
    } else {
      FreshnessIsAComma(style, ops);
      NoMembers(style, ops);
      assert body == y;
      SkipNothing(body);
      assert y[1..] == x;
    }
  }

  lemma {:induction false} StartsWithQuote(style: Style, ops: seq<ObjOp>, body: Bytes)
    requires Emits(ops)
    requires Fragment(style, ops, true) <= body
    ensures body != [] && body[0] == QUOTE
  {
    if Silent(ops[0]) {
      StartsWithQuote(style, ops[1..], body);
    }
  }

  lemma TokenReads(text: Bytes, z: Bytes)
    requires OneValue(text) && Stops(z)
    ensures ReadValue(text + z) == Some((ReadValue(text).value.0, z))
  {
    hide ReadValue;
    ValueExtends(text, z);
    assert [] + z == z;
  }

  lemma {:induction false} OpReads(style: Style, op: ObjOp, z: Bytes)
    requires OpOk(style, op) && !Silent(op) && !op.OpenNamespace?
    requires Stops(z)
    ensures ReadValue(OpText(style, op) + z) == Some((OpJson(style, op), z))
    decreases op, 0
  {
    hide ReadValue;
    match op {
      case AddValue(_, v) =>
        ScalarReads(Resolve(style, v));
        TokenReads(OpText(style, op), z);
      case AddReflected(_, r) => TokenReads(OpText(style, op), z);
      case AddObject(_, ops) => ObjectReads(style, ops, z);
      case AddArray(_, elems) => ArrayReads(style, elems, z);
    }
  }

  lemma {:induction false} ElemReads(style: Style, e: ArrOp, z: Bytes)
    requires ElemOk(style, e) && !SilentElem(e)
    requires Stops(z)
    ensures ReadValue(ElemText(style, e) + z) == Some((ElemJson(style, e), z))
    decreases e, 0
  {
    hide ReadValue;
    match e {
      case AppendValue(v) =>
        ScalarReads(Resolve(style, v));
        TokenReads(ElemText(style, e), z);
      case AppendReflected(r) => TokenReads(ElemText(style, e), z);
      case AppendObject(ops) => ObjectReads(style, ops, z);
      case AppendArray(elems) => ArrayReads(style, elems, z);
    }
  }

  predicate EmitsElem(elems: seq<ArrOp>) {
    elems != [] && (!SilentElem(elems[0]) || EmitsElem(elems[1..]))
  }

  lemma {:induction false} ArrayReads(style: Style, elems: seq<ArrOp>, x: Bytes)
    requires ElemsOk(style, elems)
    ensures ReadValue(ArrayText(style, elems) + x) == Some((JArray(ElementsOf(style, elems)), x))
    decreases elems, 2
  {
    hide ReadElements, ElemsFragment;
    var t := ArrayText(style, elems) + x;
    var body := ElemsFragment(style, elems, true) + [RBRACKET] + x;
    assert t[1..] == body;
    SkipNothing(t);
    ElementsRead(style, elems, x);
  }

  /** The elements of an array, from just after its opening bracket. */
  lemma {:induction false} ElementsRead(style: Style, elems: seq<ArrOp>, x: Bytes)
    requires ElemsOk(style, elems)
    ensures ReadArray(ElemsFragment(style, elems, true) + [RBRACKET] + x) == Some((ElementsOf(style, elems), x))
    decreases elems, 1
  {
    hide ReadElements, ElemsFragment;
    var body := ElemsFragment(style, elems, true) + [RBRACKET] + x;
    if EmitsElem(elems) {
      FirstElementsRead(style, elems, x);
      NotAtBracket(body);
    } else {
      NoElements(style, elems);
      assert body == [RBRACKET] + x;
      SkipNothing(body);
      assert body[1..] == x;
    }
  }

  lemma {:induction false} NoElements(style: Style, elems: seq<ArrOp>)
    requires ElemsOk(style, elems) && !EmitsElem(elems)
    ensures ElementsOf(style, elems) == []
    ensures ElemsFragment(style, elems, true) == ElemsFragment(style, elems, false) == []
  {
    if elems != [] {
      NoElements(style, elems[1..]);
    }
  }

  /** A text that reads as elements does not start with the closing bracket. */
  lemma NotAtBracket(body: Bytes)
    requires ReadElements(body).Some?
    ensures SkipWhitespace(body) != [] && SkipWhitespace(body)[0] != RBRACKET
  {
    hide ReadMoreElements, ReadObject, ReadArray, SkipWhitespace;
  }

  lemma {:induction false} FirstElementsRead(style: Style, elems: seq<ArrOp>, x: Bytes)
    requires ElemsOk(style, elems) && EmitsElem(elems)
    ensures ReadElements(ElemsFragment(style, elems, true) + [RBRACKET] + x) == Some((ElementsOf(style, elems), x))
    decreases elems, 0
  {
    if SilentElem(elems[0]) {
      FirstElementsRead(style, elems[1..], x);
    } else {
      hide ReadValue, ReadMoreElements, ElemText, ElemsFragment;
      SplitHeadElem(style, elems, x);
      var z := ElemsFragment(style, elems[1..], false) + [RBRACKET] + x;
      MoreElementsRead(style, elems[1..], x);
      ElemReads(style, elems[0], z);
    }
  }

  lemma SplitHeadElem(style: Style, elems: seq<ArrOp>, x: Bytes)
    requires elems != [] && !SilentElem(elems[0])
    ensures ElemsFragment(style, elems, true) + [RBRACKET] + x ==
            ElemText(style, elems[0]) + (ElemsFragment(style, elems[1..], false) + [RBRACKET] + x)
  {
    hide ElemText;
  }

  lemma {:induction false} MoreElementsRead(style: Style, elems: seq<ArrOp>, x: Bytes)
    requires ElemsOk(style, elems)
    ensures var z := ElemsFragment(style, elems, false) + [RBRACKET] + x;
            Stops(z) && ReadMoreElements(z) == Some((ElementsOf(style, elems), x))
    decreases elems, 1
  {
    hide ReadElements, ElemsFragment;
    var z := ElemsFragment(style, elems, false) + [RBRACKET] + x;
    if EmitsElem(elems) {
      var t := ElemsFragment(style, elems, true) + [RBRACKET] + x;
      ElemFreshnessIsAComma(style, elems);
      FirstElementsRead(style, elems, x);
      CommaReadsElement(style, t);
      assert z == Comma(style) + t;
    } else {
      NoElements(style, elems);
      assert z == [RBRACKET] + x;
      SkipNothing(z);
      assert z[1..] == x;
    }
  }
}
