/**
 What a reader finds in a log line for slog attributes: their keys and values, groups as objects,
 and groups without a name in place.
 */
module AttrReading {
  import opened Utf8
  import opened JsonText
  import opened EncoderOps
  import opened JsonRendering
  import opened JsonFragments
  import opened JsonEntry
  import opened LineReading
  import opened FieldReading
  import opened Levels
  import opened SlogHandler

  ghost predicate AttrRead(style: Style, key: Bytes, value: AttrValue, ms: seq<JMember>)
    decreases value
  {
    match value
    case NoValue => ms == if key == [] then [] else [JMember(Sanitize(key), JNull)]
    case Plain(v) => |ms| == 1 && ms[0].key == Sanitize(key) && ValueMeans(style, v, ms[0].value)
    case Group(attrs) =>
      if key == [] then AttrsRead(style, attrs, ms)
      else
        && |ms| == 1 && ms[0].key == Sanitize(key) && ms[0].value.JObject?
        && AttrsRead(style, attrs, ms[0].value.members)
    case Valuer(resolved) => AttrRead(style, key, resolved, ms)
    case Object(ops, err) =>
      && OpsOk(style, ops)
      && ms == [JMember(Sanitize(key), JObject(MembersOf(style, ops)))] + ErrorMember(key, err)
    case List(elems, err) =>
      && ElemsOk(style, elems)
      && ms == [JMember(Sanitize(key), JArray(ElementsOf(style, elems)))] + ErrorMember(key, err)
    case AnError(e) => exists own, err :: ErrorRead(key, e, own, err) && ms == own + ErrorMember(key, err)
    case AStringer(Text(s)) => ms == [TextMember(key, s)]
    case AStringer(NilStringer) => ms == [TextMember(key, Ascii("<nil>"))]
    case AStringer(PanickingStringer(message)) => ms == ErrorMember(key, Some(Ascii("PANIC=") + message))
    case Other(RFailed(error)) => ms == ErrorMember(key, Some(error))
    case Other(r) => ReflectedRead(key, r, ms)
  }

  /** The members of each attribute, one attribute after the other. */
  ghost predicate AttrsRead(style: Style, attrs: seq<Attr>, ms: seq<JMember>)
    decreases attrs
  {
    if attrs == [] then ms == []
    else
      exists k :: 0 <= k <= |ms| && AttrRead(style, attrs[0].key, attrs[0].value, ms[..k])
        && AttrsRead(style, attrs[1..], ms[k..])
  }

  lemma {:induction false} OpensCount(ops: seq<ObjOp>)
    ensures Opens(ops) == |Opened(ops)|
  {
    if ops != [] {
      OpensCount(ops[1..]);
    }
  }

  lemma LeafMembers(style: Style, key: Bytes, value: AttrValue)
    requires OpsOk(style, FieldOps(ConvertValue(key, value))) && !value.Group? && !value.Valuer?
    ensures AttrRead(style, key, value, MembersOf(style, FieldOps(ConvertValue(key, value))))
  {
    hide FieldOps, OpsOk, MembersOf, ElemsOk, ElementsOf, Sanitize, ValueMeans, ErrorRead;
    FieldMembers(style, ConvertValue(key, value));
  }

  lemma GroupFieldMembers(style: Style, key: Bytes, attrs: seq<Attr>)
    requires OpsOk(style, FieldOps(ConvertValue(key, Group(attrs))))
    ensures OpsOk(style, GroupOps(attrs))
    ensures MembersOf(style, FieldOps(ConvertValue(key, Group(attrs))))
         == if key == [] then MembersOf(style, GroupOps(attrs))
            else [JMember(Sanitize(key), JObject(MembersOf(style, GroupOps(attrs))))]
  {
    hide FieldOps, OpsOk, MembersOf, Sanitize, GroupOps, Opens;
    FieldMembers(style, ConvertValue(key, Group(attrs)));
    GroupsOpenNothing(attrs);
    OpensCount(GroupOps(attrs));
    if key == [] {
      WithinLevel(MembersOf(style, GroupOps(attrs)), key, None);
    }
  }

  /** What an attribute adds to a line. */
  lemma {:induction false} AttrMembers(style: Style, key: Bytes, value: AttrValue)
    requires OpsOk(style, FieldOps(ConvertValue(key, value)))
    ensures AttrRead(style, key, value, MembersOf(style, FieldOps(ConvertValue(key, value))))
    decreases value
  {
    hide FieldOps, OpsOk, MembersOf, Sanitize, GroupOps, AttrsRead;
    if value.Group? {
      GroupFieldMembers(style, key, value.attrs);
      AttrsMembers(style, value.attrs);
    } else if value.Valuer? {
      AttrMembers(style, key, value.resolved);
    } else {
      LeafMembers(style, key, value);
    }
  }

  lemma {:induction false} AttrsMembers(style: Style, attrs: seq<Attr>)
    requires OpsOk(style, GroupOps(attrs))
    ensures AttrsRead(style, attrs, MembersOf(style, GroupOps(attrs)))
    decreases attrs
  {
    if attrs != [] {
      hide FieldOps, OpsOk, MembersOf, ConvertValue, AttrRead;
      var (first, rest) := (FieldOps(ConvertValue(attrs[0].key, attrs[0].value)), GroupOps(attrs[1..]));
      OpsOkConcat(style, first, rest);
      AttrMembers(style, attrs[0].key, attrs[0].value);
      AttrsMembers(style, attrs[1..]);
      AttrsOpenNothing(attrs[0].key, attrs[0].value);
      OpensCount(first);
      MembersConcat(style, first, rest);
      var (ms, k) := (MembersOf(style, GroupOps(attrs)), |MembersOf(style, first)|);
      assert ms[..k] == MembersOf(style, first) && ms[k..] == MembersOf(style, rest);
    }
  }
}
