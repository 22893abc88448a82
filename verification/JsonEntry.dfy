/**
 A whole log line: the configured members of the entry, the accumulated context and
 the call's fields inside whatever namespaces are open, then the stack trace at top level.
 */
module JsonEntry {
  import opened Utf8
  import opened JsonText
  import opened EncoderOps
  import opened JsonRendering
  import opened JsonFragments

  datatype Caller = Caller(file: Bytes, line: int, function_: Bytes)

  datatype Entry = Entry(
    level: int, time: Moment, loggerName: Bytes, message: Bytes, caller: Option<Caller>, stack: Bytes)

  /** `EncoderConfig` after `newJSONEncoder` has filled in the line ending. */
  datatype Config = Config(
    style: Style,
    messageKey: Bytes, levelKey: Bytes, timeKey: Bytes, nameKey: Bytes,
    callerKey: Bytes, functionKey: Bytes, stacktraceKey: Bytes,
    lineEnding: Bytes,
    encodeLevel: Option<int -> Option<Scalar>>,
    encodeName: Option<Bytes -> Option<Scalar>>,
    encodeCaller: Caller -> Option<Scalar>)

  /** `Level.String`. */
  function LevelName(level: int): (t: Bytes) {
    match level
    case -1 => [0x64, 0x65, 0x62, 0x75, 0x67]
    case 0 => [0x69, 0x6E, 0x66, 0x6F]
    case 1 => [0x77, 0x61, 0x72, 0x6E]
    case 2 => [0x65, 0x72, 0x72, 0x6F, 0x72]
    case 3 => [0x64, 0x70, 0x61, 0x6E, 0x69, 0x63]
    case 4 => [0x70, 0x61, 0x6E, 0x69, 0x63]
    case 5 => [0x66, 0x61, 0x74, 0x61, 0x6C]
    case _ => [0x4C, 0x65, 0x76, 0x65, 0x6C, 0x28] + IntText(level) + [0x29]
  }

  /** `EntryCaller.FullPath` of a defined caller. */
  function FullPath(c: Caller): (t: Bytes) {
    c.file + [COLON] + IntText(c.line)
  }

  function UserOr(r: Option<Scalar>, fallback: Scalar): (s: Scalar) {
    if r.Some? then r.value else fallback
  }

  function Member(key: Bytes, s: Scalar): (ops: seq<ObjOp>) {
    [AddValue(key, Simple(s))]
  }

  function LevelOps(cfg: Config, ent: Entry): (ops: seq<ObjOp>) {
    if cfg.levelKey == [] || cfg.encodeLevel.None? then []
    else Member(cfg.levelKey, UserOr(cfg.encodeLevel.value(ent.level), SString(LevelName(ent.level))))
  }

  function TimeOps(cfg: Config, ent: Entry): (ops: seq<ObjOp>) {
    if cfg.timeKey == [] || ent.time.isZero then [] else [AddValue(cfg.timeKey, Time(ent.time))]
  }

  function NameOps(cfg: Config, ent: Entry): (ops: seq<ObjOp>) {
    if ent.loggerName == [] || cfg.nameKey == [] then []
    else Member(cfg.nameKey,
                UserOr(if cfg.encodeName.Some? then cfg.encodeName.value(ent.loggerName) else None,
                       SString(ent.loggerName)))
  }

  function CallerOps(cfg: Config, ent: Entry): (ops: seq<ObjOp>) {
    if ent.caller.None? || cfg.callerKey == [] then []
    else Member(cfg.callerKey, UserOr(cfg.encodeCaller(ent.caller.value), SString(FullPath(ent.caller.value))))
  }

  function FunctionOps(cfg: Config, ent: Entry): (ops: seq<ObjOp>) {
    if ent.caller.None? || cfg.functionKey == [] then []
    else Member(cfg.functionKey, SString(ent.caller.value.function_))
  }

  function MessageOps(cfg: Config, ent: Entry): (ops: seq<ObjOp>) {
    if cfg.messageKey == [] then [] else Member(cfg.messageKey, SString(ent.message))
  }

  /** The entry's own members, in order. */
  function EntryOps(cfg: Config, ent: Entry): (ops: seq<ObjOp>) {
    LevelOps(cfg, ent) + TimeOps(cfg, ent) + NameOps(cfg, ent)
    + CallerOps(cfg, ent) + FunctionOps(cfg, ent) + MessageOps(cfg, ent)
  }

  function StackOps(cfg: Config, ent: Entry): (ops: seq<ObjOp>) {
    if ent.stack == [] || cfg.stacktraceKey == [] then [] else Member(cfg.stacktraceKey, SString(ent.stack))
  }

  /** The line for an entry logged with the calls `ops` (context, then fields). */
  function EntryText(cfg: Config, ent: Entry, ops: seq<ObjOp>): (t: Bytes) {
    var all := EntryOps(cfg, ent) + ops;
    [LBRACE] + Fragment(cfg.style, all, true) + Closers(Opens(ops))
    + Fragment(cfg.style, StackOps(cfg, ent), !Emits(all)) + [RBRACE] + cfg.lineEnding
  }

  /** A stack trace is a string like any other. */
  lemma StackOk(cfg: Config, ent: Entry)
    ensures OpsOk(cfg.style, StackOps(cfg, ent))
  {
    hide ScalarText;
  }

  /** What the line means: the entry's members, those of context and fields, and the stack trace. */
  function LineJson(cfg: Config, ent: Entry, ops: seq<ObjOp>): (j: Json)
    requires OpsOk(cfg.style, EntryOps(cfg, ent)) && OpsOk(cfg.style, ops)
  {
    StackOk(cfg, ent);
    JObject(MembersOf(cfg.style, EntryOps(cfg, ent)) + MembersOf(cfg.style, ops)
            + MembersOf(cfg.style, StackOps(cfg, ent)))
  }

  lemma EntryOpsOpenNothing(cfg: Config, ent: Entry)
    ensures Opens(EntryOps(cfg, ent)) == 0
  {
    hide LevelOps, TimeOps, NameOps, CallerOps, FunctionOps, MessageOps, Opens;
    var (l, t, n, c, f, m) := (LevelOps(cfg, ent), TimeOps(cfg, ent), NameOps(cfg, ent),
                               CallerOps(cfg, ent), FunctionOps(cfg, ent), MessageOps(cfg, ent));
    PartsOpenNothing(cfg, ent);
    OpensConcat(l, t);
    OpensConcat(l + t, n);
    OpensConcat(l + t + n, c);
    OpensConcat(l + t + n + c, f);
    OpensConcat(l + t + n + c + f, m);
  }

  lemma PartsOpenNothing(cfg: Config, ent: Entry)
    ensures Opens(LevelOps(cfg, ent)) == Opens(TimeOps(cfg, ent)) == Opens(NameOps(cfg, ent)) == 0
    ensures Opens(CallerOps(cfg, ent)) == Opens(FunctionOps(cfg, ent)) == Opens(MessageOps(cfg, ent)) == 0
  {
    hide UserOr, LevelName, FullPath;
  }

  /** The members that a call gives, when it does not open a namespace. */
  lemma MembersHead(style: Style, ops: seq<ObjOp>)
    requires OpsOk(style, ops) && ops != [] && !ops[0].OpenNamespace?
    ensures MembersOf(style, ops)
         == (if Silent(ops[0]) then [] else [JMember(Sanitize(ops[0].key), OpJson(style, ops[0]))])
            + MembersOf(style, ops[1..])
  {
    hide OpOk, OpJson, Sanitize;
  }

  lemma {:induction false} MembersConcat(style: Style, a: seq<ObjOp>, b: seq<ObjOp>)
    requires OpsOk(style, a) && OpsOk(style, b) && Opens(a) == 0
    ensures OpsOk(style, a + b)
    ensures MembersOf(style, a + b) == MembersOf(style, a) + MembersOf(style, b)
  {
    hide OpOk, OpJson, Sanitize, MembersOf;
    OpsOkConcat(style, a, b);
    if a == [] {
      assert a + b == b;
      assert MembersOf(style, a) == [] by { NoMembers(style, a); }
    } else {
      assert (a + b)[1..] == a[1..] + b;
      MembersConcat(style, a[1..], b);
      MembersHead(style, a);
      MembersHead(style, a + b);
      var head := if Silent(a[0]) then [] else [JMember(Sanitize(a[0].key), OpJson(style, a[0]))];
      var (rest, more) := (MembersOf(style, a[1..]), MembersOf(style, b));
      assert head + (rest + more) == head + rest + more;
    }
  }

  /** An object that its calls begin and `y` goes on with. */
  lemma ObjectReadsOn(style: Style, ops: seq<ObjOp>, y: Bytes)
    requires OpsOk(style, ops) && Emits(ops)
    requires GoesOn(y) && ReadMoreMembers(y).Some?
    ensures ReadValue([LBRACE] + Fragment(style, ops, true) + Closers(Opens(ops)) + y) ==
            Some((JObject(MembersOf(style, ops) + ReadMoreMembers(y).value.0), ReadMoreMembers(y).value.1))
  {
    hide ReadMoreMembers, ReadMembers, Fragment;
    var body := Fragment(style, ops, true) + Closers(Opens(ops)) + y;
    var t := [LBRACE] + Fragment(style, ops, true) + Closers(Opens(ops)) + y;
    assert t[1..] == body;
    FirstMembersRead(style, ops, y);
    StartsWithQuote(style, ops, body);
    SkipNothing(body);
    SkipNothing(t);
  }

  /** What the stack trace adds after the namespaces have been closed. */
  lemma StackReads(style: Style, stack: seq<ObjOp>, x: Bytes)
    requires OpsOk(style, stack) && Opens(stack) == 0
    ensures var y := Fragment(style, stack, false) + [RBRACE] + x;
            GoesOn(y) && ReadMoreMembers(y) == Some((MembersOf(style, stack), x))
  {
    hide ReadMoreMembers, Fragment;
    var z := [RBRACE] + x;
    CloserReads(x);
    TailGoesOn(style, stack, z);
    MembersRead(style, stack, z);
    assert Fragment(style, stack, false) + Closers(0) + z == Fragment(style, stack, false) + [RBRACE] + x;
    assert MembersOf(style, stack) + [] == MembersOf(style, stack);
  }

  lemma RegroupEntry(a: Bytes, f: Bytes, c: Bytes, s: Bytes, e: Bytes)
    ensures a + f + c + s + [RBRACE] + e == a + f + c + (s + [RBRACE] + e)
  {
  }

  /**
   Every line is one well-formed JSON object followed by the line ending, and reads back
   as the entry's members, the context and fields inside their namespaces, and the stack
   trace, in that order and with duplicates kept.
   */
  lemma EntryReads(cfg: Config, ent: Entry, ops: seq<ObjOp>)
    requires OpsOk(cfg.style, EntryOps(cfg, ent)) && OpsOk(cfg.style, ops)
    ensures ReadValue(EntryText(cfg, ent, ops)) == Some((LineJson(cfg, ent, ops), cfg.lineEnding))
  {
    hide EntryOps, ReadMoreMembers, ReadValue, Fragment, MembersOf;
    var style, all, stack := cfg.style, EntryOps(cfg, ent) + ops, StackOps(cfg, ent);
    EntryOpsOpenNothing(cfg, ent);
    OpensConcat(EntryOps(cfg, ent), ops);
    MembersConcat(style, EntryOps(cfg, ent), ops);
    if Emits(all) {
      var y := Fragment(style, stack, false) + [RBRACE] + cfg.lineEnding;
      StackReads(style, stack, cfg.lineEnding);
      ObjectReadsOn(style, all, y);
      RegroupEntry([LBRACE], Fragment(style, all, true), Closers(Opens(ops)), Fragment(style, stack, false),
                   cfg.lineEnding);
    } else {
      FreshnessIsAComma(style, all);
      NoMembers(style, all);
      ObjectReads(style, stack, cfg.lineEnding);
      assert EntryText(cfg, ent, ops) == ObjectText(style, stack) + cfg.lineEnding;
      assert MembersOf(style, EntryOps(cfg, ent)) + MembersOf(style, ops) + MembersOf(style, stack)
          == MembersOf(style, stack);
    }
  }
}
