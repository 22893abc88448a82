/**
 What log fields ask of an encoder. A marshaler is the finite tree of calls it makes
 on the encoder it is given, together with the error it returns.
 */
module EncoderOps {
  import opened Utf8

  /** A floating-point value: the shortest decimal text of a finite one, or one of the rest. */
  datatype Float = Finite(text: Bytes) | NaN | PosInf | NegInf

  /** Values that primitive encoder methods write as a single token. */
  datatype Scalar =
    | SString(s: Bytes)
    | SBool(b: bool)
    | SInt(n: int)
    | SFloat(f: Float)
    | SQuoted(text: Bytes)  // complex numbers and formatted times: written between quotes as they are

  /** A point in time, as far as encoding looks at it. */
  datatype Moment = Moment(unixNano: int, zone: Bytes, isZero: bool)

  datatype Value = Simple(s: Scalar) | Duration(nanos: int) | Time(t: Moment)

  /** What the reflection encoder made of a value; `raw` is its whole output. */
  datatype Reflected = RNil | REncoded(raw: Bytes) | RFailed(error: Bytes)

  /** Calls a marshaler makes on an object encoder. */
  datatype ObjOp =
    | AddValue(key: Bytes, v: Value)
    | AddReflected(key: Bytes, r: Reflected)
    | AddObject(key: Bytes, ops: seq<ObjOp>)
    | AddArray(key: Bytes, elems: seq<ArrOp>)
    | OpenNamespace(key: Bytes)

  /** Calls a marshaler makes on an array encoder. */
  datatype ArrOp =
    | AppendValue(v: Value)
    | AppendReflected(r: Reflected)
    | AppendObject(ops: seq<ObjOp>)
    | AppendArray(elems: seq<ArrOp>)

  /** An error as `encodeError` sees it. Absent causes are nil entries of an error group. */
  datatype ErrorValue =
    | NilPointer
    | Panics(message: Bytes)
    | Failure(message: Bytes, detail: ErrorDetail)

  datatype ErrorDetail = NoDetail | Verbose(text: Bytes) | Causes(errors: seq<Cause>)

  datatype Cause = NilCause | Cause(e: ErrorValue)

  datatype StringerValue = Text(s: Bytes) | NilStringer | PanickingStringer(message: Bytes)

  /** The union `zapcore.Field`; `err` is what the marshaler returns. */
  datatype Field =
    | ValueField(key: Bytes, v: Value)
    | ObjectField(key: Bytes, ops: seq<ObjOp>, err: Option<Bytes>)
    | InlineField(key: Bytes, ops: seq<ObjOp>, err: Option<Bytes>)
    | ArrayField(key: Bytes, elems: seq<ArrOp>, err: Option<Bytes>)
    | ReflectField(key: Bytes, r: Reflected)
    | NamespaceField(key: Bytes)
    | StringerField(key: Bytes, stringer: StringerValue)
    | ErrorField(key: Bytes, e: ErrorValue)
    | SkipField

  const ERROR_SUFFIX: Bytes := [0x45, 0x72, 0x72, 0x6F, 0x72]
  const VERBOSE_SUFFIX: Bytes := [0x56, 0x65, 0x72, 0x62, 0x6F, 0x73, 0x65]
  const CAUSES_SUFFIX: Bytes := [0x43, 0x61, 0x75, 0x73, 0x65, 0x73]
  const ERROR_KEY: Bytes := [0x65, 0x72, 0x72, 0x6F, 0x72]
  const NIL_TEXT: Bytes := [0x3C, 0x6E, 0x69, 0x6C, 0x3E]
  const PANIC_PREFIX: Bytes := [0x50, 0x41, 0x4E, 0x49, 0x43, 0x3D]

  function AddString(key: Bytes, s: Bytes): (op: ObjOp) {
    AddValue(key, Simple(SString(s)))
  }

  /** Calls made by `encodeError`, and the error it returns. */
  function ErrorOps(key: Bytes, e: ErrorValue): (r: (seq<ObjOp>, Option<Bytes>))
    decreases e
  {
    match e
    case NilPointer => ([AddString(key, NIL_TEXT)], None)
    case Panics(message) => ([], Some(PANIC_PREFIX + message))
    case Failure(message, NoDetail) => ([AddString(key, message)], None)
    case Failure(message, Verbose(text)) =>
      ([AddString(key, message)] + (if text == message then [] else [AddString(key + VERBOSE_SUFFIX, text)]), None)
    case Failure(message, Causes(errors)) =>
      var (elems, err) := CauseOps(errors);
      ([AddString(key, message), AddArray(key + CAUSES_SUFFIX, elems)], err)
  }

  /** `errArray.MarshalLogArray`: nil errors are passed over and the first failure stops the array. */
  function CauseOps(errors: seq<Cause>): (r: (seq<ArrOp>, Option<Bytes>))
    decreases errors
  {
    if errors == [] then ([], None)
    else if errors[0].NilCause? then CauseOps(errors[1..])
    else
      var (ops, err) := CauseElement(errors[0]);
      if err.Some? then ([AppendObject(ops)], err)
      else
        var rest := CauseOps(errors[1..]);
        ([AppendObject(ops)] + rest.0, rest.1)
  }

  /** `errArrayElem.MarshalLogObject`. */
  function CauseElement(c: Cause): (r: (seq<ObjOp>, Option<Bytes>))
    requires c.Cause?
    decreases c
  {
    ErrorOps(ERROR_KEY, c.e)
  }

  /** The fallback member written when a field's encoding returns an error. */
  function ErrorFallback(key: Bytes, err: Option<Bytes>): (ops: seq<ObjOp>) {
    if err.None? then [] else [AddString(key + ERROR_SUFFIX, err.value)]
  }

  /** The error `AddReflected` returns to `AddTo` on the JSON encoder. */
  function ReflectError(r: Reflected): (err: Option<Bytes>) {
    if r.RFailed? then Some(r.error) else None
  }

  /** The calls of the switch in `Field.AddTo` on the JSON encoder, and the error it is left with. */
  function FieldCalls(f: Field): (r: (seq<ObjOp>, Option<Bytes>)) {
    match f
    case ValueField(key, v) => ([AddValue(key, v)], None)
    case ObjectField(key, ops, err) => ([AddObject(key, ops)], err)
    case InlineField(_, ops, err) => (ops, err)
    case ArrayField(key, elems, err) => ([AddArray(key, elems)], err)
    case ReflectField(key, r) => ([AddReflected(key, r)], ReflectError(r))
    case NamespaceField(key) => ([OpenNamespace(key)], None)
    case StringerField(key, Text(s)) => ([AddString(key, s)], None)
    case StringerField(key, NilStringer) => ([AddString(key, NIL_TEXT)], None)
    case StringerField(key, PanickingStringer(m)) => ([], Some(PANIC_PREFIX + m))
    case ErrorField(key, e) => ErrorOps(key, e)
    case SkipField => ([], None)
  }

  /** Every call `Field.AddTo` makes on the JSON encoder. */
  function FieldOps(f: Field): (ops: seq<ObjOp>) {
    var (ops, err) := FieldCalls(f);
    ops + ErrorFallback(FieldKey(f), err)
  }

  function FieldKey(f: Field): (key: Bytes) {
    if f.SkipField? then [] else f.key
  }

  /** Every call `addFields` makes. */
  function FieldsOps(fields: seq<Field>): (ops: seq<ObjOp>) {
    if fields == [] then [] else FieldOps(fields[0]) + FieldsOps(fields[1..])
  }

  lemma {:induction false} FieldsOpsConcat(a: seq<Field>, b: seq<Field>)
    ensures FieldsOps(a + b) == FieldsOps(a) + FieldsOps(b)
  {
    hide FieldOps;
    if a == [] {
      assert a + b == b;
    } else {
      FieldsOpsConcat(a[1..], b);
      assert (a + b)[1..] == a[1..] + b;
    }
  }

  /** Namespaces opened and never closed by the calls themselves. */
  function Opens(ops: seq<ObjOp>): (n: nat) {
    if ops == [] then 0 else (if ops[0].OpenNamespace? then 1 else 0) + Opens(ops[1..])
  }

  lemma {:induction false} OpensConcat(a: seq<ObjOp>, b: seq<ObjOp>)
    ensures Opens(a + b) == Opens(a) + Opens(b)
  {
    if a == [] {
      assert a + b == b;
    } else {
      OpensConcat(a[1..], b);
      assert (a + b)[1..] == a[1..] + b;
    }
  }
}
