/**
 What a reader finds in a log line, told from the configuration, the entry and the fields alone.
 */
module LineReading {
  import opened Utf8
  import opened JsonText
  import opened EncoderOps
  import opened JsonRendering
  import opened JsonFragments
  import opened JsonEntry
  import opened JsonEncoder
  import StringEscape
  import opened Levels

  /** The bytes that JSON gives a meaning, as section 2 of RFC 8259 has them, and its three literals. */
  lemma Punctuation()
    ensures [LBRACE, RBRACE, LBRACKET, RBRACKET, COLON, COMMA] == Ascii("{}[]:,")
    ensures [StringEscape.QUOTE, StringEscape.BACKSLASH, MINUS, PLUS, DOT, SPACE] == Ascii("\"\\-+. ")
    ensures TRUE_TEXT == Ascii("true") && FALSE_TEXT == Ascii("false") && NULL_TEXT == Ascii("null")
  {
  }

  // ---- Values ----

  ghost predicate ScalarMeans(s: Scalar, j: Json) {
    match s
    case SString(b) => j == JString(Sanitize(b))
    case SBool(b) => j == JBool(b)
    case SInt(n) => IsNumber(n, j)
    case SFloat(Finite(t)) => j == JNumber(t)
    case SFloat(NaN) => j == JString(Ascii("NaN"))
    case SFloat(PosInf) => j == JString(Ascii("+Inf"))
    case SFloat(NegInf) => j == JString(Ascii("-Inf"))
    case SQuoted(t) => j == JString(t)
  }

  predicate IsNumber(n: int, j: Json) {
    j.JNumber? && Decimal(j.text, n)
  }

  /** Times and durations are as a configured encoder appends them, and otherwise nanoseconds. */
  ghost predicate ValueMeans(style: Style, v: Value, j: Json) {
    match v
    case Simple(s) => ScalarMeans(s, j)
    case Duration(d) =>
      if style.encodeDuration.Some? && style.encodeDuration.value(d).Some?
      then ScalarMeans(style.encodeDuration.value(d).value, j) else IsNumber(d, j)
    case Time(t) =>
      if style.encodeTime.Some? && style.encodeTime.value(t).Some?
      then ScalarMeans(style.encodeTime.value(t).value, j) else IsNumber(t.unixNano, j)
  }

  lemma ScalarMeaning(s: Scalar)
    ensures ScalarMeans(s, ScalarJson(s))
  {
    if s.SInt? {
      IntTextValue(s.n);
    }
  }

  lemma ValueMeaning(style: Style, v: Value)
    ensures ValueMeans(style, v, ScalarJson(Resolve(style, v)))
  {
    hide ScalarMeans, ScalarJson;
    ScalarMeaning(Resolve(style, v));
    if !v.Simple? {
      NumberMeaning(if v.Duration? then v.nanos else v.t.unixNano);
    }
  }

  lemma NumberMeaning(n: int)
    ensures IsNumber(n, ScalarJson(SInt(n)))
  {
    IntTextValue(n);
  }

  // ---- The entry's own members ----

  predicate HasLevel(cfg: Config, ent: Entry) {
    cfg.levelKey != [] && cfg.encodeLevel.Some?
  }

  predicate HasTime(cfg: Config, ent: Entry) {
    cfg.timeKey != [] && !ent.time.isZero
  }

  predicate HasName(cfg: Config, ent: Entry) {
    cfg.nameKey != [] && ent.loggerName != []
  }

  predicate HasCaller(cfg: Config, ent: Entry) {
    cfg.callerKey != [] && ent.caller.Some?
  }

  predicate HasFunction(cfg: Config, ent: Entry) {
    cfg.functionKey != [] && ent.caller.Some?
  }

  predicate HasMessage(cfg: Config, ent: Entry) {
    cfg.messageKey != []
  }

  predicate HasStack(cfg: Config, ent: Entry) {
    cfg.stacktraceKey != [] && ent.stack != []
  }

  function Count(b: bool): (n: nat) {
    if b then 1 else 0
  }

  function EntryCount(cfg: Config, ent: Entry): (n: nat) {
    Count(HasLevel(cfg, ent)) + Count(HasTime(cfg, ent)) + Count(HasName(cfg, ent))
    + Count(HasCaller(cfg, ent)) + Count(HasFunction(cfg, ent)) + Count(HasMessage(cfg, ent))
  }

  /** A configured encoder's append, or a level's name. */
  ghost predicate LevelMeans(cfg: Config, ent: Entry, j: Json)
    requires HasLevel(cfg, ent)
  {
    var user := cfg.encodeLevel.value(ent.level);
    if user.Some? then ScalarMeans(user.value, j) else j.JString? && NamesLevel(j.contents, ent.level)
  }

  ghost predicate NameMeans(cfg: Config, ent: Entry, j: Json) {
    if cfg.encodeName.Some? && cfg.encodeName.value(ent.loggerName).Some?
    then ScalarMeans(cfg.encodeName.value(ent.loggerName).value, j)
    else j == JString(Sanitize(ent.loggerName))
  }

  ghost predicate CallerMeans(cfg: Config, ent: Entry, j: Json)
    requires HasCaller(cfg, ent)
  {
    var user := cfg.encodeCaller(ent.caller.value);
    if user.Some? then ScalarMeans(user.value, j)
    else exists path :: IsPath(path, ent.caller.value) && j == JString(Sanitize(path))
  }

  /** What is before the last colon, and what is after it. */
  function CutAtLastColon(t: Bytes): (r: Option<(Bytes, Bytes)>) {
    if t == [] then None
    else
      var n := |t| - 1;
      if t[n] == 0x3A then Some((t[..n], []))
      else if CutAtLastColon(t[..n]).None? then None
      else
        var (before, after) := CutAtLastColon(t[..n]).value;
        Some((before, after + [t[n]]))
  }

  /** The path of a caller, which is cut at its last colon into file and line. */
  predicate IsPath(path: Bytes, c: Caller) {
    var cut := CutAtLastColon(path);
    cut.Some? && cut.value.0 == c.file && Decimal(cut.value.1, c.line)
  }

  /** The entry's members, each behind those of level, time, name, caller, function and message that it has. */
  ghost predicate EntryRead(cfg: Config, ent: Entry, ms: seq<JMember>) {
    var t := Count(HasLevel(cfg, ent));
    var n := t + Count(HasTime(cfg, ent));
    var c := n + Count(HasName(cfg, ent));
    var f := c + Count(HasCaller(cfg, ent));
    var m := f + Count(HasFunction(cfg, ent));
    && |ms| == EntryCount(cfg, ent)
    && (HasLevel(cfg, ent) ==> ms[0].key == Sanitize(cfg.levelKey) && LevelMeans(cfg, ent, ms[0].value))
    && (HasTime(cfg, ent) ==> ms[t].key == Sanitize(cfg.timeKey) && ValueMeans(cfg.style, Time(ent.time), ms[t].value))
    && (HasName(cfg, ent) ==> ms[n].key == Sanitize(cfg.nameKey) && NameMeans(cfg, ent, ms[n].value))
    && (HasCaller(cfg, ent) ==> ms[c].key == Sanitize(cfg.callerKey) && CallerMeans(cfg, ent, ms[c].value))
    && (HasFunction(cfg, ent) ==> ms[f] == TextMember(cfg.functionKey, ent.caller.value.function_))
    && (HasMessage(cfg, ent) ==> ms[m] == TextMember(cfg.messageKey, ent.message))
  }

  /** A member that holds a string. */
  function TextMember(key: Bytes, s: Bytes): (m: JMember) {
    JMember(Sanitize(key), JString(Sanitize(s)))
  }

  function Maybe(has: bool, m: JMember): (ms: seq<JMember>) {
    if has then [m] else []
  }

  function Part(has: bool, key: Bytes, j: Json): (ms: seq<JMember>) {
    Maybe(has, JMember(Sanitize(key), j))
  }

  lemma OneMember(style: Style, key: Bytes, v: Value)
    requires OpsOk(style, [AddValue(key, v)])
    ensures MembersOf(style, [AddValue(key, v)]) == [JMember(Sanitize(key), ScalarJson(Resolve(style, v)))]
  {
    hide ScalarJson, Sanitize;
    assert [AddValue(key, v)][1..] == [];
  }

  lemma LevelPart(cfg: Config, ent: Entry) returns (j: Json)
    requires OpsOk(cfg.style, LevelOps(cfg, ent))
    ensures MembersOf(cfg.style, LevelOps(cfg, ent)) == Part(HasLevel(cfg, ent), cfg.levelKey, j)
    ensures HasLevel(cfg, ent) ==> LevelMeans(cfg, ent, j)
  {
    hide ScalarMeans, ScalarJson, OpsOk, LevelName, NamesLevel, Sanitize;
    j := JNull;
    if HasLevel(cfg, ent) {
      var user := cfg.encodeLevel.value(ent.level);
      var s := UserOr(user, SString(LevelName(ent.level)));
      OneMember(cfg.style, cfg.levelKey, Simple(s));
      j := ScalarJson(s);
      ScalarMeaning(s);
      if user.None? {
        NameIsVerbatim(ent.level);
      }
    }
  }

  lemma NameIsVerbatim(level: int)
    ensures var j := ScalarJson(SString(LevelName(level))); j.JString? && NamesLevel(j.contents, level)
  {
    LevelNames(level);
    PlainName(level);
    SanitizeFixesValid(LevelName(level));
  }

  lemma PlainName(level: int)
    ensures ValidUtf8(LevelName(level))
  {
    hide ValidUtf8;
    PlainBytes(level);
    PlainTextIsVerbatim(LevelName(level));
  }

  lemma PlainBytes(level: int)
    ensures forall b :: b in LevelName(level) ==> StringEscape.Plain(b)
  {
    hide IntText;
    PlainNumber(level);
  }

  lemma PlainNumber(n: int)
    ensures forall b :: b in IntText(n) ==> StringEscape.Plain(b)
  {
    hide DecimalValue;
    IntTextValue(n);
    var t := IntText(n);
    if n < 0 {
      assert t == [t[0]] + t[1..];
    }
  }

  lemma TimePart(cfg: Config, ent: Entry) returns (j: Json)
    requires OpsOk(cfg.style, TimeOps(cfg, ent))
    ensures MembersOf(cfg.style, TimeOps(cfg, ent)) == Part(HasTime(cfg, ent), cfg.timeKey, j)
    ensures HasTime(cfg, ent) ==> ValueMeans(cfg.style, Time(ent.time), j)
  {
    hide ValueMeans, ScalarJson, OpsOk, Sanitize;
    j := JNull;
    if HasTime(cfg, ent) {
      OneMember(cfg.style, cfg.timeKey, Time(ent.time));
      j := ScalarJson(Resolve(cfg.style, Time(ent.time)));
      ValueMeaning(cfg.style, Time(ent.time));
    }
  }

  lemma NamePart(cfg: Config, ent: Entry) returns (j: Json)
    requires OpsOk(cfg.style, NameOps(cfg, ent))
    ensures MembersOf(cfg.style, NameOps(cfg, ent)) == Part(HasName(cfg, ent), cfg.nameKey, j)
    ensures HasName(cfg, ent) ==> NameMeans(cfg, ent, j)
  {
    hide OpsOk, Sanitize;
    j := JNull;
    if HasName(cfg, ent) {
      var user := if cfg.encodeName.Some? then cfg.encodeName.value(ent.loggerName) else None;
      var s := UserOr(user, SString(ent.loggerName));
      OneMember(cfg.style, cfg.nameKey, Simple(s));
      j := ScalarJson(s);
      ScalarMeaning(s);
    }
  }

  lemma CallerPart(cfg: Config, ent: Entry) returns (j: Json)
    requires OpsOk(cfg.style, CallerOps(cfg, ent))
    ensures MembersOf(cfg.style, CallerOps(cfg, ent)) == Part(HasCaller(cfg, ent), cfg.callerKey, j)
    ensures HasCaller(cfg, ent) ==> CallerMeans(cfg, ent, j)
  {
    hide OpsOk, Sanitize, FullPath, IsPath;
    j := JNull;
    if HasCaller(cfg, ent) {
      var user := cfg.encodeCaller(ent.caller.value);
      var s := UserOr(user, SString(FullPath(ent.caller.value)));
      OneMember(cfg.style, cfg.callerKey, Simple(s));
      j := ScalarJson(s);
      ScalarMeaning(s);
      PathIsCut(ent.caller.value);
    }
  }

  lemma PathIsCut(c: Caller)
    ensures IsPath(FullPath(c), c)
  {
    IntTextValue(c.line);
    CutBehind(c.file, IntText(c.line));
  }

  lemma {:induction false} CutBehind(before: Bytes, after: Bytes)
    requires 0x3A !in after
    ensures CutAtLastColon(before + [0x3A] + after) == Some((before, after))
  {
    var t := before + [0x3A] + after;
    var n := |t| - 1;
    if after == [] {
      assert t[..n] == before;
    } else {
      var k := |after| - 1;
      CutBehind(before, after[..k]);
      assert t[..n] == before + [0x3A] + after[..k];
      assert t[n] == after[k] && after[k] in after;
      assert after[..k] + [after[k]] == after;
    }
  }

  lemma FunctionPart(cfg: Config, ent: Entry) returns (j: Json)
    requires OpsOk(cfg.style, FunctionOps(cfg, ent))
    ensures MembersOf(cfg.style, FunctionOps(cfg, ent)) == Part(HasFunction(cfg, ent), cfg.functionKey, j)
    ensures HasFunction(cfg, ent) ==> j == JString(Sanitize(ent.caller.value.function_))
  {
    hide OpsOk, Sanitize;
    j := JNull;
    if HasFunction(cfg, ent) {
      OneMember(cfg.style, cfg.functionKey, Simple(SString(ent.caller.value.function_)));
      j := JString(Sanitize(ent.caller.value.function_));
    }
  }

  lemma MessagePart(cfg: Config, ent: Entry) returns (j: Json)
    requires OpsOk(cfg.style, MessageOps(cfg, ent))
    ensures MembersOf(cfg.style, MessageOps(cfg, ent)) == Part(HasMessage(cfg, ent), cfg.messageKey, j)
    ensures HasMessage(cfg, ent) ==> j == JString(Sanitize(ent.message))
  {
    hide OpsOk, Sanitize;
    j := JNull;
    if HasMessage(cfg, ent) {
      OneMember(cfg.style, cfg.messageKey, Simple(SString(ent.message)));
      j := JString(Sanitize(ent.message));
    }
  }

  lemma StackPart(cfg: Config, ent: Entry)
    requires OpsOk(cfg.style, StackOps(cfg, ent))
    ensures MembersOf(cfg.style, StackOps(cfg, ent))
         == if HasStack(cfg, ent) then [TextMember(cfg.stacktraceKey, ent.stack)] else []
  {
    hide OpsOk, Sanitize;
    if HasStack(cfg, ent) {
      OneMember(cfg.style, cfg.stacktraceKey, Simple(SString(ent.stack)));
    }
  }

  /** The six parts, one after the other. */
  lemma EntryParts(cfg: Config, ent: Entry)
    requires OpsOk(cfg.style, EntryOps(cfg, ent))
    ensures OpsOk(cfg.style, LevelOps(cfg, ent)) && OpsOk(cfg.style, TimeOps(cfg, ent))
    ensures OpsOk(cfg.style, NameOps(cfg, ent)) && OpsOk(cfg.style, CallerOps(cfg, ent))
    ensures OpsOk(cfg.style, FunctionOps(cfg, ent)) && OpsOk(cfg.style, MessageOps(cfg, ent))
    ensures MembersOf(cfg.style, EntryOps(cfg, ent))
         == MembersOf(cfg.style, LevelOps(cfg, ent)) + MembersOf(cfg.style, TimeOps(cfg, ent))
            + MembersOf(cfg.style, NameOps(cfg, ent)) + MembersOf(cfg.style, CallerOps(cfg, ent))
            + MembersOf(cfg.style, FunctionOps(cfg, ent)) + MembersOf(cfg.style, MessageOps(cfg, ent))
  {
    hide LevelOps, TimeOps, NameOps, CallerOps, FunctionOps, MessageOps, OpsOk, MembersOf, Opens;
    var (l, t, n, c, f, m) := (LevelOps(cfg, ent), TimeOps(cfg, ent), NameOps(cfg, ent),
                               CallerOps(cfg, ent), FunctionOps(cfg, ent), MessageOps(cfg, ent));
    PartsOpenNothing(cfg, ent);
    Joined(cfg.style, l + t + n + c + f, m);
    Joined(cfg.style, l + t + n + c, f);
    Joined(cfg.style, l + t + n, c);
    Joined(cfg.style, l + t, n);
    Joined(cfg.style, l, t);
    Closed(l, t);
    Closed(l + t, n);
    Closed(l + t + n, c);
    Closed(l + t + n + c, f);
  }

  lemma Closed(a: seq<ObjOp>, b: seq<ObjOp>)
    ensures Opens(a + b) == Opens(a) + Opens(b)
  {
    OpensConcat(a, b);
  }

  lemma Joined(style: Style, a: seq<ObjOp>, b: seq<ObjOp>)
    requires OpsOk(style, a + b)
    ensures OpsOk(style, a) && OpsOk(style, b)
    ensures Opens(a) == 0 ==> MembersOf(style, a + b) == MembersOf(style, a) + MembersOf(style, b)
  {
    OpsOkConcat(style, a, b);
    if Opens(a) == 0 {
      MembersConcat(style, a, b);
    }
  }

  /** A part that is there stands behind the members of the parts before it. */
  lemma ThreeParts(h0: bool, m0: JMember, h1: bool, m1: JMember, h2: bool, m2: JMember)
    ensures var ms := Maybe(h0, m0) + Maybe(h1, m1) + Maybe(h2, m2);
      && |ms| == Count(h0) + Count(h1) + Count(h2)
      && (h0 ==> ms[0] == m0)
      && (h1 ==> ms[Count(h0)] == m1)
      && (h2 ==> ms[Count(h0) + Count(h1)] == m2)
  {
  }

  lemma PartsStand(cfg: Config, ent: Entry, l: Json, t: Json, n: Json, c: Json, f: Json, m: Json)
    requires HasLevel(cfg, ent) ==> LevelMeans(cfg, ent, l)
    requires HasTime(cfg, ent) ==> ValueMeans(cfg.style, Time(ent.time), t)
    requires HasName(cfg, ent) ==> NameMeans(cfg, ent, n)
    requires HasCaller(cfg, ent) ==> CallerMeans(cfg, ent, c)
    requires HasFunction(cfg, ent) ==> f == JString(Sanitize(ent.caller.value.function_))
    requires HasMessage(cfg, ent) ==> m == JString(Sanitize(ent.message))
    ensures EntryRead(cfg, ent,
                      Part(HasLevel(cfg, ent), cfg.levelKey, l) + Part(HasTime(cfg, ent), cfg.timeKey, t)
                      + Part(HasName(cfg, ent), cfg.nameKey, n) + Part(HasCaller(cfg, ent), cfg.callerKey, c)
                      + Part(HasFunction(cfg, ent), cfg.functionKey, f)
                      + Part(HasMessage(cfg, ent), cfg.messageKey, m))
  {
    hide HasLevel, HasTime, HasName, HasCaller, HasFunction, HasMessage, Sanitize, Maybe, Count;
    hide LevelMeans, ValueMeans, NameMeans, CallerMeans;
    SixParts(HasLevel(cfg, ent), JMember(Sanitize(cfg.levelKey), l), HasTime(cfg, ent),
             JMember(Sanitize(cfg.timeKey), t), HasName(cfg, ent), JMember(Sanitize(cfg.nameKey), n),
             HasCaller(cfg, ent), JMember(Sanitize(cfg.callerKey), c), HasFunction(cfg, ent),
             JMember(Sanitize(cfg.functionKey), f), HasMessage(cfg, ent), JMember(Sanitize(cfg.messageKey), m));
  }

  lemma SixParts(h0: bool, m0: JMember, h1: bool, m1: JMember, h2: bool, m2: JMember,
                 h3: bool, m3: JMember, h4: bool, m4: JMember, h5: bool, m5: JMember)
    ensures var ms := Maybe(h0, m0) + Maybe(h1, m1) + Maybe(h2, m2) + Maybe(h3, m3) + Maybe(h4, m4) + Maybe(h5, m5);
      var k := Count(h0) + Count(h1) + Count(h2);
      && |ms| == k + Count(h3) + Count(h4) + Count(h5)
      && (h0 ==> ms[0] == m0)
      && (h1 ==> ms[Count(h0)] == m1)
      && (h2 ==> ms[Count(h0) + Count(h1)] == m2)
      && (h3 ==> ms[k] == m3)
      && (h4 ==> ms[k + Count(h3)] == m4)
      && (h5 ==> ms[k + Count(h3) + Count(h4)] == m5)
  {
    ThreeParts(h0, m0, h1, m1, h2, m2);
    ThreeParts(h3, m3, h4, m4, h5, m5);
    hide Maybe;
    var (a, b) := (Maybe(h0, m0) + Maybe(h1, m1) + Maybe(h2, m2), Maybe(h3, m3) + Maybe(h4, m4) + Maybe(h5, m5));
    Regrouped(a, Maybe(h3, m3), Maybe(h4, m4), Maybe(h5, m5));
    Halves(a, b, h0, 0, h1, Count(h0), h2, Count(h0) + Count(h1),
           h3, 0, h4, Count(h3), h5, Count(h3) + Count(h4));
  }

  /** What stands where in two halves put together. */
  lemma Halves(a: seq<JMember>, b: seq<JMember>, h0: bool, i0: nat, h1: bool, i1: nat, h2: bool, i2: nat,
               h3: bool, i3: nat, h4: bool, i4: nat, h5: bool, i5: nat)
    requires (h0 ==> i0 < |a|) && (h1 ==> i1 < |a|) && (h2 ==> i2 < |a|)
    requires (h3 ==> i3 < |b|) && (h4 ==> i4 < |b|) && (h5 ==> i5 < |b|)
    ensures (h0 ==> (a + b)[i0] == a[i0]) && (h1 ==> (a + b)[i1] == a[i1]) && (h2 ==> (a + b)[i2] == a[i2])
    ensures (h3 ==> (a + b)[|a| + i3] == b[i3]) && (h4 ==> (a + b)[|a| + i4] == b[i4])
    ensures h5 ==> (a + b)[|a| + i5] == b[i5]
    ensures |a + b| == |a| + |b|
  {
  }

  lemma Regrouped(a: seq<JMember>, c: seq<JMember>, f: seq<JMember>, m: seq<JMember>)
    ensures a + c + f + m == a + (c + f + m)
  {
  }

  lemma EntryMembers(cfg: Config, ent: Entry)
    requires OpsOk(cfg.style, EntryOps(cfg, ent))
    ensures EntryRead(cfg, ent, MembersOf(cfg.style, EntryOps(cfg, ent)))
  {
    hide OpsOk, MembersOf, EntryOps, LevelOps, TimeOps, NameOps, CallerOps, FunctionOps, MessageOps;
    hide LevelMeans, ValueMeans, NameMeans, CallerMeans, Sanitize, EntryRead, Part;
    EntryParts(cfg, ent);
    var l := LevelPart(cfg, ent);
    var t := TimePart(cfg, ent);
    var n := NamePart(cfg, ent);
    var c := CallerPart(cfg, ent);
    var f := FunctionPart(cfg, ent);
    var m := MessagePart(cfg, ent);
    PartsStand(cfg, ent, l, t, n, c, f, m);
  }

  /**
   What a line holds: the entry's members at the places that configuration and entry give them,
   then those of context and fields, and last the stack trace; and nothing else.
   */
  lemma LineMembers(cfg: Config, ent: Entry, ops: seq<ObjOp>, line: Bytes)
    requires ReadsAs(cfg, ent, ops, line)
    ensures ReadValue(line).Some? && ReadValue(line).value.0.JObject?
    ensures var (ms, n, k) := (ReadValue(line).value.0.members, EntryCount(cfg, ent), |MembersOf(cfg.style, ops)|);
      && |ms| == n + k + Count(HasStack(cfg, ent))
      && EntryRead(cfg, ent, ms[..n])
      && ms[n..n + k] == MembersOf(cfg.style, ops)
      && (HasStack(cfg, ent) ==> ms[|ms| - 1] == TextMember(cfg.stacktraceKey, ent.stack))
    ensures ReadValue(line).value.1 == cfg.lineEnding
  {
    hide OpsOk, MembersOf, EntryOps, StackOps, ReadValue, EntryRead, TextMember;
    EntryMembers(cfg, ent);
    EntryReadCounts(cfg, ent, MembersOf(cfg.style, EntryOps(cfg, ent)));
    StackOk(cfg, ent);
    StackPart(cfg, ent);
    var (a, b, c) := (MembersOf(cfg.style, EntryOps(cfg, ent)), MembersOf(cfg.style, ops),
                      MembersOf(cfg.style, StackOps(cfg, ent)));
    assert (a + b + c)[..|a|] == a;
    assert (a + b + c)[|a|..|a| + |b|] == b;
  }

  lemma EntryReadCounts(cfg: Config, ent: Entry, ms: seq<JMember>)
    requires EntryRead(cfg, ent, ms)
    ensures |ms| == EntryCount(cfg, ent)
  {
  }
}
