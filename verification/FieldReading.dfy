/**
 What a reader finds in a log line for the fields it was written with: the members of each kind of
 field by its key, value and error, and where they stand when fields open namespaces.
 */
module FieldReading {
  import opened Utf8
  import opened JsonText
  import opened EncoderOps
  import opened JsonRendering
  import opened JsonFragments
  import opened JsonEntry
  import opened JsonEncoder
  import opened Levels
  import opened LineReading

  // ---- Namespaces ----

  /** `more` at the end of the innermost of `n` namespaces, each the last member of the one around it. */
  function Within(ms: seq<JMember>, n: nat, more: seq<JMember>): (r: seq<JMember>) {
    if n == 0 then ms + more
    else if ms == [] || !ms[|ms| - 1].value.JObject? then ms
    else
      var m := ms[|ms| - 1];
      ms[..|ms| - 1] + [JMember(m.key, JObject(Within(m.value.members, n - 1, more)))]
  }

  predicate EndsInObject(ms: seq<JMember>) {
    ms != [] && ms[|ms| - 1].value.JObject?
  }

  lemma WithinPush(m: JMember, ms: seq<JMember>, n: nat, more: seq<JMember>)
    requires n == 0 || EndsInObject(ms)
    ensures Within([m] + ms, n, more) == [m] + Within(ms, n, more)
  {
    if n == 0 {
      assert [m] + ms + more == [m] + (ms + more);
    } else {
      var all := [m] + ms;
      assert all[..|all| - 1] == [m] + ms[..|ms| - 1];
    }
  }

  lemma {:induction false} NamespacesShow(style: Style, ops: seq<ObjOp>)
    requires OpsOk(style, ops) && Opens(ops) > 0
    ensures EndsInObject(MembersOf(style, ops))
  {
    hide OpOk, OpJson, Sanitize;
    if !ops[0].OpenNamespace? {
      NamespacesShow(style, ops[1..]);
    }
  }

  /** What is added after some calls goes into the namespace they have left open. */
  lemma {:induction false} AddedWithin(style: Style, a: seq<ObjOp>, b: seq<ObjOp>)
    requires OpsOk(style, a) && OpsOk(style, b)
    ensures OpsOk(style, a + b)
    ensures MembersOf(style, a + b) == Within(MembersOf(style, a), Opens(a), MembersOf(style, b))
  {
    hide OpOk, OpJson, Sanitize, MembersOf, Within;
    OpsOkConcat(style, a, b);
    if a == [] {
      assert a + b == b;
      NoMembers(style, a);
      WithinNothing(MembersOf(style, b));
    } else {
      assert (a + b)[1..] == a[1..] + b;
      AddedWithin(style, a[1..], b);
      if a[0].OpenNamespace? {
        NamespaceHead(style, a);
        NamespaceHead(style, a + b);
        WithinNamespace(Sanitize(a[0].key), MembersOf(style, a[1..]), Opens(a[1..]), MembersOf(style, b));
      } else {
        MembersHead(style, a);
        MembersHead(style, a + b);
        if Opens(a[1..]) > 0 {
          NamespacesShow(style, a[1..]);
        }
        if Silent(a[0]) {
          assert MembersOf(style, a) == MembersOf(style, a[1..]);
          assert MembersOf(style, a + b) == MembersOf(style, a[1..] + b);
        } else {
          WithinPush(JMember(Sanitize(a[0].key), OpJson(style, a[0])), MembersOf(style, a[1..]), Opens(a[1..]),
                     MembersOf(style, b));
        }
      }
    }
  }

  lemma WithinNothing(more: seq<JMember>)
    ensures Within([], 0, more) == more
  {
  }

  lemma NamespaceHead(style: Style, ops: seq<ObjOp>)
    requires OpsOk(style, ops) && ops != [] && ops[0].OpenNamespace?
    ensures MembersOf(style, ops) == [JMember(Sanitize(ops[0].key), JObject(MembersOf(style, ops[1..])))]
  {
    hide OpOk, OpJson, Sanitize;
  }

  lemma WithinNamespace(key: Bytes, ms: seq<JMember>, n: nat, more: seq<JMember>)
    ensures Within([JMember(key, JObject(ms))], n + 1, more) == [JMember(key, JObject(Within(ms, n, more)))]
  {
  }

  // ---- One call ----

  /** What one call on an object encoder adds. */
  ghost predicate OpRead(style: Style, op: ObjOp, ms: seq<JMember>) {
    match op
    case AddValue(key, v) => |ms| == 1 && ms[0].key == Sanitize(key) && ValueMeans(style, v, ms[0].value)
    case AddReflected(key, r) => ReflectedRead(key, r, ms)
    case AddObject(key, ops) =>
      OpsOk(style, ops) && ms == [JMember(Sanitize(key), JObject(MembersOf(style, ops)))]
    case AddArray(key, elems) =>
      ElemsOk(style, elems) && ms == [JMember(Sanitize(key), JArray(ElementsOf(style, elems)))]
    case OpenNamespace(key) => ms == [JMember(Sanitize(key), JObject([]))]
  }

  /** What the reflection encoder wrote, but for the newline at its end; nothing if it failed. */
  ghost predicate ReflectedRead(key: Bytes, r: Reflected, ms: seq<JMember>) {
    match r
    case RNil => ms == [JMember(Sanitize(key), JNull)]
    case REncoded(raw) =>
      && |ms| == 1 && ms[0].key == Sanitize(key)
      && ReadValue(if raw != [] && raw[|raw| - 1] == 0x0A then raw[..|raw| - 1] else raw) == Some((ms[0].value, []))
    case RFailed(_) => ms == []
  }

  lemma NullReads()
    ensures ReadValue([0x6E, 0x75, 0x6C, 0x6C]) == Some((JNull, []))
  {
    var t: Bytes := [0x6E, 0x75, 0x6C, 0x6C];
    hide ReadValue;
    ReadsScalar(t);
    assert t[..4] == t;
  }

  lemma CallMembers(style: Style, op: ObjOp)
    requires OpsOk(style, [op])
    ensures OpRead(style, op, MembersOf(style, [op]))
  {
    assert [op][1..] == [];
    hide Sanitize, ReadValue, ScalarJson, ValueMeans;
    if op.AddValue? {
      ValueMeaning(style, op.v);
    } else if op.AddReflected? {
      NullReads();
    }
  }

  /** What one call on an array encoder adds. */
  ghost predicate ElemRead(style: Style, e: ArrOp, js: seq<Json>) {
    match e
    case AppendValue(v) => |js| == 1 && ValueMeans(style, v, js[0])
    case AppendReflected(RFailed(_)) => js == []
    case AppendReflected(r) => |js| == 1 && ReflectedRead([], r, [JMember(Sanitize([]), js[0])])
    case AppendObject(ops) => OpsOk(style, ops) && js == [JObject(MembersOf(style, ops))]
    case AppendArray(elems) => ElemsOk(style, elems) && js == [JArray(ElementsOf(style, elems))]
  }

  /** The elements of an array are those of its calls, in order. */
  lemma ElementsInOrder(style: Style, e: ArrOp, rest: seq<ArrOp>) returns (js: seq<Json>)
    requires ElemsOk(style, [e] + rest)
    ensures ElemsOk(style, rest) && ElementsOf(style, [e] + rest) == js + ElementsOf(style, rest)
    ensures ElemRead(style, e, js)
  {
    hide ReadValue, ScalarJson, ValueMeans, MembersOf, OpsOk, Sanitize;
    assert ([e] + rest)[1..] == rest;
    js := if SilentElem(e) then [] else [ElemJson(style, e)];
    if e.AppendValue? {
      ValueMeaning(style, e.v);
    } else if e.AppendReflected? {
      NullReads();
    }
  }

  // ---- Errors ----

  /** `<key>Error`, if there is an error. */
  function ErrorMember(key: Bytes, err: Option<Bytes>): (ms: seq<JMember>) {
    if err.None? then [] else [TextMember(key + Ascii("Error"), err.value)]
  }

  /** What an error adds under a key, and the error that encoding it comes to itself. */
  ghost predicate ErrorRead(key: Bytes, e: ErrorValue, ms: seq<JMember>, err: Option<Bytes>)
    decreases e
  {
    match e
    case NilPointer => ms == [TextMember(key, Ascii("<nil>"))] && err == None
    case Panics(message) => ms == [] && err == Some(Ascii("PANIC=") + message)
    case Failure(message, NoDetail) => ms == [TextMember(key, message)] && err == None
    case Failure(message, Verbose(text)) =>
      && ms == [TextMember(key, message)] + (if text == message then [] else [TextMember(key + Ascii("Verbose"), text)])
      && err == None
    case Failure(message, Causes(errors)) =>
      && |ms| == 2
      && ms[0] == TextMember(key, message)
      && ms[1].key == Sanitize(key + Ascii("Causes")) && ms[1].value.JArray?
      && CausesRead(errors, ms[1].value.elements, err)
  }

  /** An object for each cause that is not nil, with `error` for its key, up to the first that panics. */
  ghost predicate CausesRead(errors: seq<Cause>, js: seq<Json>, err: Option<Bytes>)
    decreases errors
  {
    if errors == [] then js == [] && err == None
    else if errors[0].NilCause? then CausesRead(errors[1..], js, err)
    else
      && js != []
      && (|| (CauseRead(errors[0], js[0], err) && err.Some? && |js| == 1)
          || (CauseRead(errors[0], js[0], None) && CausesRead(errors[1..], js[1..], err)))
  }

  ghost predicate CauseRead(c: Cause, j: Json, err: Option<Bytes>)
    requires c.Cause?
    decreases c
  {
    j.JObject? && ErrorRead(Ascii("error"), c.e, j.members, err)
  }

  lemma Suffixes()
    ensures Ascii("Error") == ERROR_SUFFIX
    ensures Ascii("Verbose") == VERBOSE_SUFFIX
    ensures Ascii("Causes") == CAUSES_SUFFIX
    ensures Ascii("error") == ERROR_KEY
    ensures Ascii("<nil>") == NIL_TEXT
    ensures Ascii("PANIC=") == PANIC_PREFIX
  {
  }

  lemma StringMember(style: Style, key: Bytes, s: Bytes)
    ensures OpsOk(style, [AddString(key, s)])
    ensures MembersOf(style, [AddString(key, s)]) == [TextMember(key, s)]
  {
    assert [AddString(key, s)][1..] == [];
    OneMember(style, key, Simple(SString(s)));
  }

  /** Nothing that an error is encoded with opens a namespace or needs to be trusted. */
  lemma {:induction false} ErrorMembers(style: Style, key: Bytes, e: ErrorValue)
    ensures var (ops, err) := ErrorOps(key, e);
      OpsOk(style, ops) && Opens(ops) == 0 && ErrorRead(key, e, MembersOf(style, ops), err)
    decreases e
  {
    hide Sanitize;
    Suffixes();
    var (ops, err) := ErrorOps(key, e);
    match e {
      case NilPointer => StringMember(style, key, NIL_TEXT);
      case Panics(_) =>
      case Failure(message, NoDetail) => StringMember(style, key, message);
      case Failure(message, Verbose(text)) => VerboseMembers(style, key, message, text);
      case Failure(message, Causes(errors)) =>
        CauseMembers(style, errors);
        TwoMembers(style, key, message, CauseOps(errors).0);
    }
  }

  lemma VerboseMembers(style: Style, key: Bytes, message: Bytes, text: Bytes)
    ensures var ops := [AddString(key, message)]
                       + (if text == message then [] else [AddString(key + VERBOSE_SUFFIX, text)]);
      && OpsOk(style, ops) && Opens(ops) == 0
      && MembersOf(style, ops)
         == [TextMember(key, message)] + (if text == message then [] else [TextMember(key + VERBOSE_SUFFIX, text)])
  {
    hide Sanitize, MembersOf, OpsOk;
    var a := [AddString(key, message)];
    var b := if text == message then [] else [AddString(key + VERBOSE_SUFFIX, text)];
    StringMember(style, key, message);
    NothingOk(style);
    if text != message {
      StringMember(style, key + VERBOSE_SUFFIX, text);
    }
    OpensConcat(a, b);
    MembersConcat(style, a, b);
  }

  lemma NothingOk(style: Style)
    ensures OpsOk(style, []) && MembersOf(style, []) == []
  {
  }

  lemma TwoMembers(style: Style, key: Bytes, message: Bytes, elems: seq<ArrOp>)
    requires ElemsOk(style, elems)
    ensures var ops := [AddString(key, message), AddArray(key + CAUSES_SUFFIX, elems)];
      && OpsOk(style, ops) && Opens(ops) == 0
      && MembersOf(style, ops)
         == [TextMember(key, message), JMember(Sanitize(key + CAUSES_SUFFIX), JArray(ElementsOf(style, elems)))]
  {
    hide Sanitize, MembersOf, ElementsOf, ElemsOk;
    var (a, b) := ([AddString(key, message)], [AddArray(key + CAUSES_SUFFIX, elems)]);
    StringMember(style, key, message);
    assert b[1..] == [];
    CallMembers(style, b[0]);
    OpensConcat(a, b);
    MembersConcat(style, a, b);
    assert a + b == [AddString(key, message), AddArray(key + CAUSES_SUFFIX, elems)];
  }

  lemma {:induction false} CauseMembers(style: Style, errors: seq<Cause>)
    ensures var (elems, err) := CauseOps(errors);
      ElemsOk(style, elems) && CausesRead(errors, ElementsOf(style, elems), err)
    decreases errors
  {
    hide Sanitize, CauseElement, CauseRead;
    if errors == [] {
    } else if errors[0].NilCause? {
      CauseMembers(style, errors[1..]);
    } else {
      var (ops, err) := CauseElement(errors[0]);
      CauseElementMembers(style, errors[0]);
      if err.Some? {
        OneElement(style, ops, []);
      } else {
        CauseMembers(style, errors[1..]);
        OneElement(style, ops, CauseOps(errors[1..]).0);
      }
    }
  }

  lemma {:induction false} CauseElementMembers(style: Style, c: Cause)
    requires c.Cause?
    ensures var (ops, err) := CauseElement(c);
      OpsOk(style, ops) && CauseRead(c, JObject(MembersOf(style, ops)), err)
    decreases c
  {
    Suffixes();
    ErrorMembers(style, ERROR_KEY, c.e);
  }

  lemma OneElement(style: Style, ops: seq<ObjOp>, rest: seq<ArrOp>)
    requires OpsOk(style, ops) && ElemsOk(style, rest)
    ensures ElemsOk(style, [AppendObject(ops)] + rest)
    ensures ElementsOf(style, [AppendObject(ops)] + rest)
         == [JObject(MembersOf(style, ops))] + ElementsOf(style, rest)
    ensures ElemsOk(style, [AppendObject(ops)])
    ensures ElementsOf(style, [AppendObject(ops)]) == [JObject(MembersOf(style, ops))]
  {
    hide MembersOf, OpsOk;
    assert ([AppendObject(ops)] + rest)[1..] == rest;
    assert [AppendObject(ops)][1..] == [];
  }

  // ---- Fields ----

  /** What one field adds, and `<key>Error` after it when it comes with an error. */
  ghost predicate FieldRead(style: Style, f: Field, ms: seq<JMember>) {
    match f
    case ValueField(key, v) => |ms| == 1 && ms[0].key == Sanitize(key) && ValueMeans(style, v, ms[0].value)
    case ObjectField(key, ops, err) =>
      && OpsOk(style, ops)
      && ms == [JMember(Sanitize(key), JObject(MembersOf(style, ops)))] + ErrorMember(key, err)
    case InlineField(key, ops, err) =>
      OpsOk(style, ops) && ms == Within(MembersOf(style, ops), Opens(ops), ErrorMember(key, err))
    case ArrayField(key, elems, err) =>
      && ElemsOk(style, elems)
      && ms == [JMember(Sanitize(key), JArray(ElementsOf(style, elems)))] + ErrorMember(key, err)
    case ReflectField(key, RFailed(error)) => ms == ErrorMember(key, Some(error))
    case ReflectField(key, r) => ReflectedRead(key, r, ms)
    case NamespaceField(key) => ms == [JMember(Sanitize(key), JObject([]))]
    case StringerField(key, Text(s)) => ms == [TextMember(key, s)]
    case StringerField(key, NilStringer) => ms == [TextMember(key, Ascii("<nil>"))]
    case StringerField(key, PanickingStringer(message)) => ms == ErrorMember(key, Some(Ascii("PANIC=") + message))
    case ErrorField(key, e) =>
      exists own, err :: ErrorRead(key, e, own, err) && ms == own + ErrorMember(key, err)
    case SkipField => ms == []
  }

  /** Namespaces that a field leaves open. */
  function FieldOpens(f: Field): (n: nat) {
    if f.NamespaceField? then 1 else if f.InlineField? then Opens(f.ops) else 0
  }

  lemma FallbackMembers(style: Style, key: Bytes, err: Option<Bytes>)
    ensures OpsOk(style, ErrorFallback(key, err)) && Opens(ErrorFallback(key, err)) == 0
    ensures MembersOf(style, ErrorFallback(key, err)) == ErrorMember(key, err)
  {
    hide Sanitize;
    Suffixes();
    if err.Some? {
      StringMember(style, key + ERROR_SUFFIX, err.value);
    }
  }

  lemma FieldParts(style: Style, f: Field)
    requires OpsOk(style, FieldOps(f))
    ensures var (ops, err) := FieldCalls(f);
      && OpsOk(style, ops)
      && MembersOf(style, FieldOps(f)) == Within(MembersOf(style, ops), Opens(ops), ErrorMember(FieldKey(f), err))
      && Opens(FieldOps(f)) == Opens(ops)
  {
    hide FieldCalls, OpsOk, MembersOf, Opens, Within, ErrorMember, ErrorFallback;
    var (ops, err) := FieldCalls(f);
    FallbackMembers(style, FieldKey(f), err);
    OpsOkConcat(style, ops, ErrorFallback(FieldKey(f), err));
    AddedWithin(style, ops, ErrorFallback(FieldKey(f), err));
    OpensConcat(ops, ErrorFallback(FieldKey(f), err));
  }

  /** The members of each kind of field. */
  lemma FieldMembers(style: Style, f: Field)
    requires OpsOk(style, FieldOps(f))
    ensures FieldRead(style, f, MembersOf(style, FieldOps(f)))
    ensures Opens(FieldOps(f)) == FieldOpens(f)
  {
    hide FieldOps, OpsOk, MembersOf, Sanitize, ErrorMember, ErrorRead, ValueMeans, ReflectedRead, ErrorOps, Within;
    FieldParts(style, f);
    Suffixes();
    var (ops, err) := FieldCalls(f);
    var ms := MembersOf(style, ops);
    NothingOk(style);
    WithinLevel(ms, FieldKey(f), err);
    if f.ErrorField? {
      ErrorMembers(style, f.key, f.e);
    } else if |ops| == 1 && !f.InlineField? {
      assert ops == [ops[0]];
      SingleCall(style, ops[0]);
      if f.ReflectField? {
        FailedIsSilent(f.key, f.r, ms);
      } else if f.NamespaceField? {
        WithinNamespace(Sanitize(f.key), [], 0, []);
        WithinNothing([]);
      } else if f.StringerField? {
        StringMember(style, f.key, ops[0].v.s.s);
      }
    }
  }

  /** With no namespace open an error is the last member at its level, and without an error there is none. */
  lemma WithinLevel(ms: seq<JMember>, key: Bytes, err: Option<Bytes>)
    ensures Within(ms, 0, ErrorMember(key, err)) == ms + ErrorMember(key, err)
    ensures err.None? ==> ErrorMember(key, err) == [] && ms + ErrorMember(key, err) == ms
    ensures [] + ErrorMember(key, err) == ErrorMember(key, err)
  {
  }

  lemma FailedIsSilent(key: Bytes, r: Reflected, ms: seq<JMember>)
    requires ReflectedRead(key, r, ms)
    ensures r.RFailed? ==> ms == []
  {
  }

  lemma SingleCall(style: Style, op: ObjOp)
    requires OpsOk(style, [op])
    ensures OpRead(style, op, MembersOf(style, [op]))
    ensures Opens([op]) == if op.OpenNamespace? then 1 else 0
  {
    CallMembers(style, op);
    assert [op][1..] == [];
  }

  /** What fields add, one after the other, each inside the namespaces that those before it left open. */
  ghost predicate FieldsRead(style: Style, fields: seq<Field>, ms: seq<JMember>) {
    if fields == [] then ms == []
    else
      exists first, rest ::
        && FieldRead(style, fields[0], first) && FieldsRead(style, fields[1..], rest)
        && ms == Within(first, FieldOpens(fields[0]), rest)
  }

  lemma {:induction false} FieldsMembers(style: Style, fields: seq<Field>)
    requires OpsOk(style, FieldsOps(fields))
    ensures FieldsRead(style, fields, MembersOf(style, FieldsOps(fields)))
  {
    if fields != [] {
      hide FieldRead, FieldOps, OpsOk, MembersOf, Within;
      OpsOkConcat(style, FieldOps(fields[0]), FieldsOps(fields[1..]));
      FieldsMembers(style, fields[1..]);
      FieldMembers(style, fields[0]);
      AddedWithin(style, FieldOps(fields[0]), FieldsOps(fields[1..]));
    }
  }

  // ---- Lines ----

  /** The members of a line between those of the entry and the stack trace. */
  ghost function Middle(cfg: Config, ent: Entry, line: Bytes): (ms: seq<JMember>) {
    var read := ReadValue(line);
    if read.None? || !read.value.0.JObject? then []
    else
      var ms := read.value.0.members;
      var (n, k) := (EntryCount(cfg, ent), |ms| - Count(HasStack(cfg, ent)));
      if n <= k then ms[n..k] else []
  }

  /** The line of one field holds that field's members between the entry and the stack trace. */
  lemma OneFieldLine(cfg: Config, ent: Entry, f: Field, line: Bytes)
    requires ReadsAs(cfg, ent, FieldsOps([f]), line)
    ensures FieldRead(cfg.style, f, Middle(cfg, ent, line))
  {
    hide FieldRead, FieldOps, EntryRead, ReadValue, OpsOk, MembersOf, EntryCount;
    LineMembers(cfg, ent, FieldsOps([f]), line);
    assert [f][1..] == [] && FieldOps(f) + [] == FieldOps(f);
    FieldMembers(cfg.style, f);
  }

  /** An encoder that has been given context and is asked for a line, and what is found in that line. */
  method WriteLine(cfg: Config, context: seq<Field>, ent: Entry, fields: seq<Field>) returns (line: Bytes)
    requires Trusted(cfg, ent, FieldsOps(context), FieldsOps(fields))
    ensures ReadValue(line).Some? && ReadValue(line).value.0.JObject? && ReadValue(line).value.1 == cfg.lineEnding
    ensures var ms := ReadValue(line).value.0.members;
      && EntryCount(cfg, ent) + Count(HasStack(cfg, ent)) <= |ms|
      && EntryRead(cfg, ent, ms[..EntryCount(cfg, ent)])
      && FieldsRead(cfg.style, context + fields, Middle(cfg, ent, line))
      && (HasStack(cfg, ent) ==> ms[|ms| - 1] == TextMember(cfg.stacktraceKey, ent.stack))
  {
    hide EntryRead, FieldsRead, ReadValue, OpsOk, MembersOf, EntryCount, FieldsOps, Trusted;
    var enc := new Encoder(cfg);
    enc.AddFields(context);
    assert [] + FieldsOps(context) == FieldsOps(context);
    line := EncodedEntryReads(enc, ent, fields);
    FieldsOpsConcat(context, fields);
    LineMembers(cfg, ent, FieldsOps(context + fields), line);
    FieldsMembers(cfg.style, context + fields);
  }
}
