/**
 The JSON encoder as an object. It appends to its buffer, decides on commas by the last byte
 there and keeps a count of open namespaces; every method is proved against what its calls make
 of the buffer.
 */
module JsonEncoder {
  import opened Utf8
  import opened StringEscape
  import opened JsonText
  import opened EncoderOps
  import opened JsonRendering
  import opened JsonFragments
  import opened JsonEntry
  import opened JsonCalls

  lemma RegroupKey(buf: Bytes, e: Bytes, c: Bytes)
    ensures buf + [QUOTE] + e + [QUOTE] + c == buf + (Quoted(e) + c)
  {
  }

  class Encoder {
    const cfg: Config
    const style: Style
    var buf: Bytes
    var openNamespaces: nat
    ghost var context: seq<ObjOp>  // the calls whose text the buffer holds

    ghost predicate Valid()
      reads this
    {
      && style == cfg.style
      && buf == AfterCalls(style, [], context)
      && openNamespaces == Opens(context)
    }

    constructor (cfg: Config)
      ensures Valid() && this.cfg == cfg && context == []
    {
      this.cfg := cfg;
      this.style := cfg.style;
      buf := [];
      openNamespaces := 0;
      context := [];
    }

    /** `Clone`: a separate encoder with the same settings and the same context. */
    constructor Clone(enc: Encoder)
      requires enc.Valid()
      ensures Valid() && cfg == enc.cfg && context == enc.context
    {
      cfg := enc.cfg;
      style := enc.style;
      buf := enc.buf;
      openNamespaces := enc.openNamespaces;
      context := enc.context;
    }

    /** `clone`: the settings and the count of open namespaces, but an empty buffer. */
    constructor Blank(enc: Encoder)
      ensures cfg == enc.cfg && style == enc.style && buf == [] && openNamespaces == enc.openNamespaces
    {
      cfg := enc.cfg;
      style := enc.style;
      buf := [];
      openNamespaces := enc.openNamespaces;
      context := [];
    }

    method AddElementSeparator()
      modifies this`buf
      ensures buf == old(buf) + Lead(style, old(buf))
    {
      if |buf| - 1 < 0 {
        return;
      }
      var last := buf[|buf| - 1];
      if last == LBRACE || last == LBRACKET || last == COLON || last == COMMA || last == SPACE {
        return;
      }
      buf := buf + [COMMA];
      if style.spaced {
        buf := buf + [SPACE];
      }
    }

    method AddKey(key: Bytes)
      modifies this`buf
      ensures buf == AfterKey(style, old(buf), key)
    {
      hide Escape, Quoted;
      AddElementSeparator();
      ghost var led := buf;
      buf := buf + [QUOTE];
      buf := SafeAppendStringLike(buf, key);
      buf := buf + [QUOTE];
      ghost var quoted := buf;
      buf := buf + [COLON];
      if style.spaced {
        buf := buf + [SPACE];
      }
      assert buf == quoted + (if style.spaced then [COLON, SPACE] else [COLON]);
      RegroupKey(led, Escape(key), if style.spaced then [COLON, SPACE] else [COLON]);
    }

    method AppendScalar(s: Scalar)
      modifies this`buf
      ensures buf == AfterScalar(style, old(buf), s)
    {
      hide Escape, Lead, IntText;
      AddElementSeparator();
      match s {
        case SString(b) => AppendQuotedString(b);
        case SBool(b) => buf := buf + (if b then TRUE_TEXT else FALSE_TEXT);
        case SInt(n) => buf := buf + IntText(n);
        case SFloat(Finite(t)) => buf := buf + t;
        case SFloat(NaN) => buf := buf + Quoted(NAN_TEXT);
        case SFloat(PosInf) => buf := buf + Quoted(POS_INF_TEXT);
        case SFloat(NegInf) => buf := buf + Quoted(NEG_INF_TEXT);
        case SQuoted(t) => AppendQuoted(t);
      }
    }

    method AppendQuotedString(b: Bytes)
      modifies this`buf
      ensures buf == old(buf) + Quoted(Escape(b))
    {
      hide Escape;
      buf := buf + [QUOTE];
      buf := SafeAppendStringLike(buf, b);
      buf := buf + [QUOTE];
    }

    method AppendQuoted(t: Bytes)
      modifies this`buf
      ensures buf == old(buf) + Quoted(t)
    {
      buf := buf + [QUOTE];
      buf := buf + t;
      buf := buf + [QUOTE];
    }

    /** A user encoder that appends nothing is noticed by the buffer's length. */
    method AppendDuration(d: int)
      modifies this`buf
      ensures buf == AfterValue(style, old(buf), Duration(d))
    {
      hide AfterScalar;
      var cur := |buf|;
      if style.encodeDuration.Some? {
        AppendByUser(style.encodeDuration.value(d));
      }
      if cur == |buf| {
        AppendScalar(SInt(d));
      }
    }

    method AppendTime(t: Moment)
      modifies this`buf
      ensures buf == AfterValue(style, old(buf), Time(t))
    {
      hide AfterScalar;
      var cur := |buf|;
      if style.encodeTime.Some? {
        AppendByUser(style.encodeTime.value(t));
      }
      if cur == |buf| {
        AppendScalar(SInt(t.unixNano));
      }
    }

    /** What a user-supplied primitive encoder does to the encoder: one append or none. */
    method AppendByUser(r: Option<Scalar>)
      modifies this`buf
      ensures buf == if r.None? then old(buf) else AfterScalar(style, old(buf), r.value)
    {
      if r.Some? {
        AppendScalar(r.value);
      }
    }

    method AppendValueOf(v: Value)
      modifies this`buf
      ensures buf == AfterValue(style, old(buf), v)
    {
      match v {
        case Simple(s) => AppendScalar(s);
        case Duration(d) => AppendDuration(d);
        case Time(t) => AppendTime(t);
      }
    }

    method CloseOpenNamespaces()
      modifies this`buf, this`openNamespaces
      ensures buf == old(buf) + Closers(old(openNamespaces))
      ensures openNamespaces == 0
    {
      var i := 0;
      while i < openNamespaces
        invariant 0 <= i <= openNamespaces == old(openNamespaces)
        invariant buf == old(buf) + Closers(i)
      {
        CloserLast(i);
        buf := buf + [RBRACE];
        i := i + 1;
      }
      openNamespaces := 0;
    }

    /** The object's own namespaces are closed with it; those already open stay open. */
    method AppendObjectOf(ops: seq<ObjOp>)
      modifies this`buf, this`openNamespaces
      ensures buf == AfterObject(style, old(buf), ops)
      ensures openNamespaces == old(openNamespaces)
      decreases ops, 1
    {
      hide AfterCalls, Closers, Lead;
      var outer := openNamespaces;
      openNamespaces := 0;
      AddElementSeparator();
      buf := buf + [LBRACE];
      MarshalObject(ops);
      buf := buf + [RBRACE];
      CloseOpenNamespaces();
      openNamespaces := outer;
    }

    method AppendArrayOf(elems: seq<ArrOp>)
      modifies this`buf, this`openNamespaces
      ensures buf == AfterArray(style, old(buf), elems)
      ensures openNamespaces == old(openNamespaces)
      decreases elems, 1
    {
      hide AfterElems;
      AddElementSeparator();
      buf := buf + [LBRACKET];
      MarshalArray(elems);
      buf := buf + [RBRACKET];
    }

    /** The calls a marshaler makes, in order. */
    method MarshalObject(ops: seq<ObjOp>)
      modifies this`buf, this`openNamespaces
      ensures buf == AfterCalls(style, old(buf), ops)
      ensures openNamespaces == old(openNamespaces) + Opens(ops)
      decreases ops, 0
    {
      hide AfterCall;
      if ops != [] {
        Call(ops[0]);
        MarshalObject(ops[1..]);
      }
    }

    /** One call: its key and value after the comma that is due, or nothing. */
    method Call(op: ObjOp)
      modifies this`buf, this`openNamespaces
      ensures buf == AfterCall(style, old(buf), op)
      ensures openNamespaces == old(openNamespaces) + (if op.OpenNamespace? then 1 else 0)
      decreases op, 1
    {
      hide AfterKey, AfterValue, AfterObject, AfterArray;
      if op.AddReflected? && op.r.RFailed? {
        return;
      }
      AddKey(op.key);
      match op {
        case AddValue(_, v) => AppendValueOf(v);
        case AddReflected(_, r) => buf := buf + ReflectedText(r);
        case AddObject(_, ops) => AppendObjectOf(ops);
        case AddArray(_, elems) => AppendArrayOf(elems);
        case OpenNamespace(_) =>
          buf := buf + [LBRACE];
          openNamespaces := openNamespaces + 1;
      }
    }

    method MarshalArray(elems: seq<ArrOp>)
      modifies this`buf, this`openNamespaces
      ensures buf == AfterElems(style, old(buf), elems)
      ensures openNamespaces == old(openNamespaces)
      decreases elems, 0
    {
      hide AfterElem;
      if elems != [] {
        CallElem(elems[0]);
        MarshalArray(elems[1..]);
      }
    }

    method CallElem(e: ArrOp)
      modifies this`buf, this`openNamespaces
      ensures buf == AfterElem(style, old(buf), e)
      ensures openNamespaces == old(openNamespaces)
      decreases e, 1
    {
      hide AfterValue, AfterObject, AfterArray;
      match e {
        case AppendValue(v) => AppendValueOf(v);
        case AppendReflected(r) =>
          if r.RFailed? {
            return;
          }
          AddElementSeparator();
          buf := buf + ReflectedText(r);
        case AppendObject(ops) => AppendObjectOf(ops);
        case AppendArray(elems) => AppendArrayOf(elems);
      }
    }

    // ---- Fields ----

    /** `Field.AddTo`, with the `<key>Error` member when the field's encoding fails. */
    method AddTo(f: Field)
      modifies this`buf, this`openNamespaces
      ensures buf == AfterCalls(style, old(buf), FieldOps(f))
      ensures openNamespaces == old(openNamespaces) + Opens(FieldOps(f))
    {
      hide AfterCalls, FieldCalls;
      var (ops, err) := FieldCalls(f);
      var fallback := ErrorFallback(FieldKey(f), err);
      AfterCallsConcat(style, buf, ops, fallback);
      OpensConcat(ops, fallback);
      MarshalObject(ops);
      MarshalObject(fallback);
    }

    /** The loop of `addFields`. */
    method AddAll(fields: seq<Field>)
      modifies this`buf, this`openNamespaces
      ensures buf == AfterCalls(style, old(buf), FieldsOps(fields))
      ensures openNamespaces == old(openNamespaces) + Opens(FieldsOps(fields))
    {
      hide FieldOps, AfterCall;
      assert fields[..0] == [];
      for i := 0 to |fields|
        invariant buf == AfterCalls(style, old(buf), FieldsOps(fields[..i]))
        invariant openNamespaces == old(openNamespaces) + Opens(FieldsOps(fields[..i]))
      {
        ghost var before := FieldsOps(fields[..i]);
        NextField(fields, i);
        AddTo(fields[i]);
        AfterCallsConcat(style, old(buf), before, FieldOps(fields[i]));
        OpensConcat(before, FieldOps(fields[i]));
      }
      assert fields[..|fields|] == fields;
    }

    /** `addFields` on a context encoder. */
    method AddFields(fields: seq<Field>)
      requires Valid()
      modifies this
      ensures Valid() && context == old(context) + FieldsOps(fields)
      ensures buf == AfterCalls(style, old(buf), FieldsOps(fields))
    {
      hide FieldsOps, AfterCalls;
      AddAll(fields);
      AfterCallsConcat(style, [], context, FieldsOps(fields));
      OpensConcat(context, FieldsOps(fields));
      context := context + FieldsOps(fields);
    }

    // ---- Entries ----

    /** A member of the entry whose value a user encoder may leave to the fallback. */
    method AddMember(key: Bytes, r: Option<Scalar>, fallback: Scalar)
      modifies this`buf
      ensures buf == AfterMember(style, old(buf), key, r, fallback)
    {
      hide AfterKey, AfterScalar;
      AddKey(key);
      var cur := |buf|;
      AppendByUser(r);
      if cur == |buf| {
        AppendScalar(fallback);
      }
    }

    method AddText(key: Bytes, s: Bytes)
      modifies this`buf
      ensures buf == AfterCalls(style, old(buf), Member(key, SString(s)))
    {
      hide AfterKey, AfterScalar;
      AddKey(key);
      AppendScalar(SString(s));
      OneCall(style, old(buf), AddValue(key, Simple(SString(s))));
    }

    method AddLevelAndTime(ent: Entry)
      requires style == cfg.style
      modifies this`buf
      ensures buf == AfterCalls(style, AfterLevel(cfg, old(buf), ent), TimeOps(cfg, ent))
    {
      hide AfterMember, AfterKey, AfterValue, LevelName;
      if cfg.levelKey != [] && cfg.encodeLevel.Some? {
        AddMember(cfg.levelKey, cfg.encodeLevel.value(ent.level), SString(LevelName(ent.level)));
      }
      if cfg.timeKey != [] && !ent.time.isZero {
        OneCall(style, buf, AddValue(cfg.timeKey, Time(ent.time)));
        AddKey(cfg.timeKey);
        AppendTime(ent.time);
      }
    }

    method AddName(ent: Entry)
      requires style == cfg.style
      modifies this`buf
      ensures buf == AfterName(cfg, old(buf), ent)
    {
      hide AfterMember;
      if ent.loggerName != [] && cfg.nameKey != [] {
        var r := if cfg.encodeName.Some? then cfg.encodeName.value(ent.loggerName) else None;
        AddMember(cfg.nameKey, r, SString(ent.loggerName));
      }
    }

    method AddCaller(ent: Entry)
      requires style == cfg.style
      modifies this`buf
      ensures buf == AfterCaller(cfg, old(buf), ent)
    {
      hide AfterMember, FullPath;
      if ent.caller.Some? && cfg.callerKey != [] {
        AddMember(cfg.callerKey, cfg.encodeCaller(ent.caller.value), SString(FullPath(ent.caller.value)));
      }
    }

    /** Everything `EncodeEntry` writes before the context. */
    method AddEntryMembers(ent: Entry)
      requires style == cfg.style
      modifies this`buf
      ensures buf == AfterEntry(cfg, old(buf), ent)
    {
      hide AfterCalls, AfterLevel, AfterName, AfterCaller, TimeOps;
      AddLevelAndTime(ent);
      AddName(ent);
      AddCaller(ent);
      ghost var before := buf;
      NoCalls(style, buf);
      AfterCallsConcat(style, buf, FunctionOps(cfg, ent), MessageOps(cfg, ent));
      if ent.caller.Some? && cfg.functionKey != [] {
        AddText(cfg.functionKey, ent.caller.value.function_);
      }
      assert buf == AfterCalls(style, before, FunctionOps(cfg, ent));
      NoCalls(style, buf);
      if cfg.messageKey != [] {
        AddText(cfg.messageKey, ent.message);
      }
    }

    /** Copies the bytes of the context behind the entry's members. */
    method Splice(enc: Encoder)
      requires enc != this
      modifies this`buf
      ensures buf == Spliced(style, old(buf), enc.buf)
    {
      if |enc.buf| > 0 {
        AddElementSeparator();
        buf := buf + enc.buf;
      }
    }

    /**
     The whole line, for any tokens; this encoder is left as it was. With trusted tokens it is
     the text of entry, context and fields, however they came to be in the buffer.
     */
    method EncodeEntry(ent: Entry, fields: seq<Field>) returns (line: Bytes)
      requires Valid()
      ensures line == Line(cfg, ent, buf, openNamespaces, FieldsOps(fields))
      ensures Trusted(cfg, ent, context, FieldsOps(fields)) ==> line == EntryText(cfg, ent, context + FieldsOps(fields))
    {
      hide AfterCalls, AfterEntry, FieldsOps, Closers, Spliced, EntryText, Trusted;
      var final := new Encoder.Blank(this);
      final.buf := final.buf + [LBRACE];
      assert final.buf == [LBRACE];
      final.AddEntryMembers(ent);
      final.Splice(this);
      final.AddAll(fields);
      final.CloseOpenNamespaces();
      NoCalls(style, final.buf);
      if ent.stack != [] && cfg.stacktraceKey != [] {
        final.AddText(cfg.stacktraceKey, ent.stack);
      }
      final.buf := final.buf + [RBRACE];
      final.buf := final.buf + cfg.lineEnding;
      line := final.buf;
      TrustedLine(cfg, ent, context, FieldsOps(fields));
    }
  }

  /** All text that libraries or user encoders format is well formed. */
  predicate Trusted(cfg: Config, ent: Entry, context: seq<ObjOp>, ops: seq<ObjOp>) {
    OpsOk(cfg.style, EntryOps(cfg, ent)) && OpsOk(cfg.style, context) && OpsOk(cfg.style, ops)
  }

  lemma TrustedLine(cfg: Config, ent: Entry, context: seq<ObjOp>, ops: seq<ObjOp>)
    ensures Trusted(cfg, ent, context, ops) ==>
      Line(cfg, ent, AfterCalls(cfg.style, [], context), Opens(context), ops) == EntryText(cfg, ent, context + ops)
  {
    hide OpsOk, EntryOps, Line, EntryText, AfterCalls;
    if Trusted(cfg, ent, context, ops) {
      LineIsText(cfg, ent, context, ops);
    }
  }

  lemma OneCall(style: Style, buf: Bytes, op: ObjOp)
    ensures AfterCalls(style, buf, [op]) == AfterCall(style, buf, op)
  {
    hide AfterCall;
    assert [op][1..] == [];
  }

  lemma NoCalls(style: Style, buf: Bytes)
    ensures AfterCalls(style, buf, []) == buf
  {
  }

  lemma NextField(fields: seq<Field>, i: nat)
    requires i < |fields|
    ensures FieldsOps(fields[..i + 1]) == FieldsOps(fields[..i]) + FieldOps(fields[i])
  {
    hide FieldOps;
    assert fields[..i + 1] == fields[..i] + [fields[i]];
    FieldsOpsConcat(fields[..i], [fields[i]]);
    assert FieldsOps([fields[i]]) == FieldOps(fields[i]) + FieldsOps([]);
  }

  /**
   Pre-serialised context agrees with no cache: a clone given the fields `a`, encoding an
   entry with the fields `b`, writes byte for byte what the original writes with `a + b`,
   well-formed tokens or not, and the original's buffer is untouched.
   */
  method WithAgreesWithFields(enc: Encoder, a: seq<Field>, b: seq<Field>, ent: Entry)
    returns (cached: Bytes, direct: Bytes)
    requires enc.Valid()
    ensures cached == direct
    ensures direct == Line(enc.cfg, ent, enc.buf, enc.openNamespaces, FieldsOps(a + b))
    ensures enc.Valid() && enc.buf == old(enc.buf) && enc.context == old(enc.context)
  {
    hide Line, FieldsOps, AfterCalls, EntryText, Trusted;
    FieldsOpsConcat(a, b);
    var clone := new Encoder.Clone(enc);
    clone.AddFields(a);
    OpensConcat(enc.context, FieldsOps(a));
    cached := clone.EncodeEntry(ent, b);
    direct := enc.EncodeEntry(ent, a + b);
    CachedLine(enc.cfg, ent, enc.buf, enc.openNamespaces, FieldsOps(a), FieldsOps(b));
  }

  /** What any line this encoder writes means to a reader. */
  method EncodedEntryReads(enc: Encoder, ent: Entry, fields: seq<Field>) returns (line: Bytes)
    requires enc.Valid() && Trusted(enc.cfg, ent, enc.context, FieldsOps(fields))
    ensures ReadsAs(enc.cfg, ent, enc.context + FieldsOps(fields), line)
  {
    hide EntryOps, EntryText, OpsOk, FieldsOps, ReadValue, LineJson, AfterCalls, Line;
    OpsOkConcat(enc.style, enc.context, FieldsOps(fields));
    line := enc.EncodeEntry(ent, fields);
    EntryReads(enc.cfg, ent, enc.context + FieldsOps(fields));
  }

  /** One JSON object, of the entry's members, those of `ops` and the stack trace, and then the line ending. */
  ghost predicate ReadsAs(cfg: Config, ent: Entry, ops: seq<ObjOp>, line: Bytes) {
    && OpsOk(cfg.style, EntryOps(cfg, ent)) && OpsOk(cfg.style, ops)
    && ReadValue(line) == Some((LineJson(cfg, ent, ops), cfg.lineEnding))
  }
}
