/**
 The slog handler: groups are held back until an attribute needs them.
 */
module SlogHandler {
  import opened Utf8
  import opened EncoderOps
  import opened Cores
  import LazyCores

  /** An attribute; the empty attribute has neither key nor value. */
  datatype Attr = Attr(key: Bytes, value: AttrValue)

  datatype AttrValue =
    | NoValue
    | Plain(v: Value)
    | Group(attrs: seq<Attr>)
    | Valuer(resolved: AttrValue)
    | Object(ops: seq<ObjOp>, err: Option<Bytes>)
    | List(elems: seq<ArrOp>, listErr: Option<Bytes>)
    | AnError(e: ErrorValue)
    | AStringer(stringer: StringerValue)
    | Other(r: Reflected)

  /** `convertAttrToField`. */
  function Convert(attr: Attr): (f: Field)
    decreases attr.value, 1
  {
    ConvertValue(attr.key, attr.value)
  }

  function ConvertValue(key: Bytes, value: AttrValue): (f: Field)
    decreases value, 0
  {
    match value
    case NoValue => if key == [] then SkipField else ReflectField(key, RNil)
    case Plain(v) => ValueField(key, v)
    case Group(attrs) =>
      if key == [] then InlineField([], GroupOps(attrs), None) else ObjectField(key, GroupOps(attrs), None)
    case Valuer(resolved) => ConvertValue(key, resolved)
    case Object(ops, err) => ObjectField(key, ops, err)
    case List(elems, err) => ArrayField(key, elems, err)
    case AnError(e) => ErrorField(key, e)
    case AStringer(stringer) => StringerField(key, stringer)
    case Other(r) => ReflectField(key, r)
  }

  /** `groupObject.MarshalLogObject`. */
  function GroupOps(attrs: seq<Attr>): (ops: seq<ObjOp>)
    decreases attrs
  {
    if attrs == [] then [] else FieldOps(ConvertValue(attrs[0].key, attrs[0].value)) + GroupOps(attrs[1..])
  }

  // ---- Where calls land ----

  /** A call on the encoder and the namespaces it lands under. */
  datatype Placed = Placed(path: seq<Bytes>, op: ObjOp)

  function Place(ops: seq<ObjOp>, path: seq<Bytes>): (r: seq<Placed>) {
    if ops == [] then []
    else if ops[0].OpenNamespace? then Place(ops[1..], path + [ops[0].key])
    else [Placed(path, ops[0])] + Place(ops[1..], path)
  }

  /** The namespaces opened, in order. */
  function Opened(ops: seq<ObjOp>): (r: seq<Bytes>) {
    if ops == [] then [] else (if ops[0].OpenNamespace? then [ops[0].key] else []) + Opened(ops[1..])
  }

  function At(path: seq<Bytes>, ops: seq<ObjOp>): (r: seq<Placed>) {
    seq(|ops|, i requires 0 <= i < |ops| => Placed(path, ops[i]))
  }

  lemma {:induction false} PlaceConcat(a: seq<ObjOp>, b: seq<ObjOp>, path: seq<Bytes>)
    ensures Place(a + b, path) == Place(a, path) + Place(b, path + Opened(a))
    ensures Opened(a + b) == Opened(a) + Opened(b)
    decreases a
  {
    if a == [] {
      assert a + b == b && path + Opened(a) == path;
    } else {
      assert (a + b)[1..] == a[1..] + b;
      if a[0].OpenNamespace? {
        PlaceConcat(a[1..], b, path + [a[0].key]);
        assert path + [a[0].key] + Opened(a[1..]) == path + Opened(a);
      } else {
        PlaceConcat(a[1..], b, path);
        assert Opened(a) == Opened(a[1..]);
      }
    }
  }

  /** Calls that open nothing all land where they are made. */
  lemma {:induction false} ClosedStaysPut(ops: seq<ObjOp>, path: seq<Bytes>)
    requires Opened(ops) == []
    ensures Place(ops, path) == At(path, ops)
    decreases ops
  {
    if ops != [] {
      assert ops == [ops[0]] + ops[1..];
      ClosedStaysPut(ops[1..], path);
      assert At(path, ops) == [Placed(path, ops[0])] + At(path, ops[1..]);
    }
  }

  lemma OpenedConcat(a: seq<ObjOp>, b: seq<ObjOp>)
    ensures Opened(a + b) == Opened(a) + Opened(b)
  {
    PlaceConcat(a, b, []);
  }

  lemma {:induction false} ErrorsOpenNothing(key: Bytes, e: ErrorValue)
    ensures Opened(FieldOps(ErrorField(key, e))) == []
  {
    var (ops, err) := ErrorOps(key, e);
    assert forall op :: op in ops ==> !op.OpenNamespace?;
    NothingOpened(ops + ErrorFallback(key, err));
  }

  lemma {:induction false} NothingOpened(ops: seq<ObjOp>)
    requires forall op :: op in ops ==> !op.OpenNamespace?
    ensures Opened(ops) == []
    decreases ops
  {
    if ops != [] {
      NothingOpened(ops[1..]);
    }
  }

  /** An attribute, whatever it holds, leaves no namespace open behind it. */
  lemma {:induction false} AttrsOpenNothing(key: Bytes, value: AttrValue)
    ensures Opened(FieldOps(ConvertValue(key, value))) == []
    decreases value
  {
    match value {
      case Group(attrs) =>
        GroupsOpenNothing(attrs);
        if key == [] {
          assert GroupOps(attrs) + [] == GroupOps(attrs);
        } else {
          NothingOpened(FieldOps(ConvertValue(key, value)));
        }
      case Valuer(resolved) => AttrsOpenNothing(key, resolved);
      case AnError(e) => ErrorsOpenNothing(key, e);
      case _ => NothingOpened(FieldOps(ConvertValue(key, value)));
    }
  }

  lemma {:induction false} GroupsOpenNothing(attrs: seq<Attr>)
    ensures Opened(GroupOps(attrs)) == []
    decreases attrs
  {
    hide FieldOps, ConvertValue;
    if attrs != [] {
      AttrsOpenNothing(attrs[0].key, attrs[0].value);
      GroupsOpenNothing(attrs[1..]);
      OpenedConcat(FieldOps(ConvertValue(attrs[0].key, attrs[0].value)), GroupOps(attrs[1..]));
    }
  }

  // ---- One list of attributes under pending groups ----

  function Namespaces(groups: seq<Bytes>): (fields: seq<Field>)
    ensures |fields| == |groups|
  {
    seq(|groups|, i requires 0 <= i < |groups| => NamespaceField(groups[i]))
  }

  /** The field list: groups just before the first field that is not Skip. */
  function Emit(groups: seq<Bytes>, attrs: seq<Attr>, added: bool): (fields: seq<Field>)
    decreases attrs
  {
    if attrs == [] then []
    else
      var f := Convert(attrs[0]);
      var opens := !added && groups != [] && f != SkipField;
      (if opens then Namespaces(groups) else []) + [f] + Emit(groups, attrs[1..], added || opens)
  }

  /** Some attribute is more than Skip. */
  predicate AnyReal(attrs: seq<Attr>) {
    attrs != [] && (Convert(attrs[0]) != SkipField || AnyReal(attrs[1..]))
  }

  /** Every call of every attribute under `path`, in order. */
  function Under(path: seq<Bytes>, attrs: seq<Attr>): (r: seq<Placed>) {
    if attrs == [] then [] else At(path, FieldOps(Convert(attrs[0]))) + Under(path, attrs[1..])
  }

  lemma {:induction false} NamespacesOpen(groups: seq<Bytes>, path: seq<Bytes>)
    ensures Opened(FieldsOps(Namespaces(groups))) == groups
    ensures Place(FieldsOps(Namespaces(groups)), path) == []
    decreases groups
  {
    if groups != [] {
      var first := NamespaceField(groups[0]);
      assert Namespaces(groups)[1..] == Namespaces(groups[1..]);
      NamespacesOpen(groups[1..], path + [groups[0]]);
      assert FieldOps(first) == [OpenNamespace(groups[0])];
      PlaceConcat([OpenNamespace(groups[0])], FieldsOps(Namespaces(groups[1..])), path);
      assert path + Opened([OpenNamespace(groups[0])]) == path + [groups[0]];
      assert [groups[0]] + groups[1..] == groups;
    }
  }

  /** One attribute after some fields. */
  lemma OneAttr(attr: Attr, path: seq<Bytes>)
    ensures Place(FieldsOps([Convert(attr)]), path) == At(path, FieldOps(Convert(attr)))
    ensures Opened(FieldsOps([Convert(attr)])) == []
  {
    hide FieldOps, ConvertValue;
    var ops := FieldOps(Convert(attr));
    assert Convert(attr) == ConvertValue(attr.key, attr.value);
    AttrsOpenNothing(attr.key, attr.value);
    assert FieldsOps([Convert(attr)]) == ops + [] == ops;
    ClosedStaysPut(ops, path);
  }

  lemma SkipLandsNowhere(path: seq<Bytes>)
    ensures At(path, FieldOps(SkipField)) == []
  {
  }

  /**
   Attributes land under the groups; the groups are opened, once and in order, exactly when some
   attribute is more than Skip.
   */
  lemma {:induction false} EmitPlaces(groups: seq<Bytes>, attrs: seq<Attr>, added: bool, path: seq<Bytes>)
    ensures Place(FieldsOps(Emit(groups, attrs, added)), path)
         == Under(if added then path else path + groups, attrs)
    ensures Opened(FieldsOps(Emit(groups, attrs, added))) == if !added && AnyReal(attrs) then groups else []
    decreases attrs
  {
    hide FieldOps, Convert, FieldsOps, Place, Opened, At, Namespaces;
    NoFields(path);
    if attrs != [] {
      var f := Convert(attrs[0]);
      if !added && groups != [] && f != SkipField {
        var rest := Emit(groups, attrs[1..], true);
        NamespacesOpen(groups, path);
        OneAttr(attrs[0], path + groups);
        EmitHead(Namespaces(groups), f, rest, path);
        EmitPlaces(groups, attrs[1..], true, path + groups);
        assert groups + [] == groups;
      } else {
        var rest := Emit(groups, attrs[1..], added);
        assert path + [] == path;
        OneAttr(attrs[0], path);
        EmitHead([], f, rest, path);
        EmitPlaces(groups, attrs[1..], added, path);
        SkipLandsNowhere(path);
        SkipLandsNowhere(path + groups);
      }
    }
  }

  lemma NoFields(path: seq<Bytes>)
    ensures Place(FieldsOps([]), path) == [] && Opened(FieldsOps([])) == []
  {
  }

  lemma EmitHead(head: seq<Field>, f: Field, rest: seq<Field>, path: seq<Bytes>)
    requires Opened(FieldsOps([f])) == []
    ensures var path' := path + Opened(FieldsOps(head));
      && Place(FieldsOps(head + [f] + rest), path)
         == Place(FieldsOps(head), path) + Place(FieldsOps([f]), path') + Place(FieldsOps(rest), path')
      && Opened(FieldsOps(head + [f] + rest)) == Opened(FieldsOps(head)) + Opened(FieldsOps(rest))
  {
    hide FieldOps, FieldsOps, Place, Opened;
    var path' := path + Opened(FieldsOps(head));
    FieldsOpsConcat(head + [f], rest);
    FieldsOpsConcat(head, [f]);
    PlaceConcat(FieldsOps(head) + FieldsOps([f]), FieldsOps(rest), path);
    PlaceConcat(FieldsOps(head), FieldsOps([f]), path);
    assert Opened(FieldsOps(head)) + [] == Opened(FieldsOps(head));
  }

  // ---- Chains of handlers ----

  datatype Link = OpenGroup(name: Bytes) | Attrs(attrs: seq<Attr>)

  /** Fields given to the core so far, and groups not yet applied. */
  datatype State = State(context: seq<Field>, groups: seq<Bytes>)

  function Step(s: State, link: Link): (r: State) {
    match link
    case OpenGroup(name) => if name == [] then s else s.(groups := s.groups + [name])
    case Attrs(attrs) =>
      State(s.context + Emit(s.groups, attrs, false), if AnyReal(attrs) then [] else s.groups)
  }

  function Run(s: State, links: seq<Link>): (r: State)
    decreases links
  {
    if links == [] then s else Run(Step(s, links[0]), links[1..])
  }

  /** Group names given so far, without empty ones. */
  function Path(path: seq<Bytes>, link: Link): (r: seq<Bytes>) {
    if link.OpenGroup? && link.name != [] then path + [link.name] else path
  }

  /** Each attribute under all the groups opened before it. */
  function Expected(links: seq<Link>, path: seq<Bytes>): (r: seq<Placed>)
    decreases links
  {
    if links == [] then []
    else (if links[0].Attrs? then Under(path, links[0].attrs) else []) + Expected(links[1..], Path(path, links[0]))
  }

  /** The groups opened before the last attribute that is more than Skip. */
  function Needed(links: seq<Link>, path: seq<Bytes>, sofar: seq<Bytes>): (r: seq<Bytes>)
    decreases links
  {
    if links == [] then sofar
    else Needed(links[1..], Path(path, links[0]), if links[0].Attrs? && AnyReal(links[0].attrs) then path else sofar)
  }

  lemma StepPlaces(s: State, link: Link)
    ensures var r := Step(s, link);
      var ops, ops' := FieldsOps(s.context), FieldsOps(r.context);
      var path := Opened(ops) + s.groups;
      && Opened(ops') + r.groups == Path(path, link)
      && Place(ops', []) == Place(ops, []) + (if link.Attrs? then Under(path, link.attrs) else [])
      && Opened(ops') == if link.Attrs? && AnyReal(link.attrs) then path else Opened(ops)
  {
    hide FieldOps, FieldsOps, Place, Opened, Emit, Under;
    var ops := FieldsOps(s.context);
    if link.Attrs? {
      var fields := Emit(s.groups, link.attrs, false);
      FieldsOpsConcat(s.context, fields);
      PlaceConcat(ops, FieldsOps(fields), []);
      assert [] + Opened(ops) == Opened(ops);
      EmitPlaces(s.groups, link.attrs, false, Opened(ops));
      assert Opened(ops) + [] == Opened(ops);
      assert Opened(ops) + s.groups + [] == Opened(ops) + s.groups;
    } else if link.name != [] {
      assert Opened(ops) + (s.groups + [link.name]) == Opened(ops) + s.groups + [link.name];
    }
  }

  /**
   For every chain: each attribute lands under exactly the non-empty groups opened before it, and
   the namespaces opened are those before the last attribute that is more than Skip, each once
   and in order; groups after it are never opened.
   */
  lemma {:induction false} ChainPlaces(s: State, links: seq<Link>)
    ensures var r := Run(s, links);
      var ops, ops' := FieldsOps(s.context), FieldsOps(r.context);
      var path := Opened(ops) + s.groups;
      && Place(ops', []) == Place(ops, []) + Expected(links, path)
      && Opened(ops') == Needed(links, path, Opened(ops))
    decreases links
  {
    hide FieldsOps, Place, Opened, Step, Under, Path;
    var ops := FieldsOps(s.context);
    if links == [] {
      assert Place(ops, []) + [] == Place(ops, []);
    } else {
      var s' := Step(s, links[0]);
      StepPlaces(s, links[0]);
      ChainPlaces(s', links[1..]);
      var path := Opened(ops) + s.groups;
      var here := if links[0].Attrs? then Under(path, links[0].attrs) else [];
      assert Place(ops, []) + here + Expected(links[1..], Path(path, links[0]))
          == Place(ops, []) + (here + Expected(links[1..], Path(path, links[0])));
    }
  }

  // ---- When opened namespaces hold something ----

  /** An attribute that makes no call: nothing without a key, or an inline group of such attributes. */
  predicate Hollow(key: Bytes, value: AttrValue)
    decreases value
  {
    match value
    case NoValue => key == []
    case Group(attrs) => key == [] && AllHollow(attrs)
    case Valuer(resolved) => Hollow(key, resolved)
    case _ => false
  }

  predicate AllHollow(attrs: seq<Attr>)
    decreases attrs
  {
    attrs != [] ==> Hollow(attrs[0].key, attrs[0].value) && AllHollow(attrs[1..])
  }

  lemma {:induction false} HollowMakesNoCall(key: Bytes, value: AttrValue)
    ensures FieldOps(ConvertValue(key, value)) == [] <==> Hollow(key, value)
    decreases value
  {
    match value {
      case Group(attrs) =>
        GroupOfHollow(attrs);
        assert GroupOps(attrs) + [] == GroupOps(attrs);
      case Valuer(resolved) => HollowMakesNoCall(key, resolved);
      case AnError(e) => ErrorsMakeACall(key, e);
      case _ =>
    }
  }

  lemma {:induction false} GroupOfHollow(attrs: seq<Attr>)
    ensures GroupOps(attrs) == [] <==> AllHollow(attrs)
    decreases attrs
  {
    hide FieldOps, ConvertValue;
    if attrs != [] {
      HollowMakesNoCall(attrs[0].key, attrs[0].value);
      GroupOfHollow(attrs[1..]);
      assert |GroupOps(attrs)| == |FieldOps(ConvertValue(attrs[0].key, attrs[0].value))| + |GroupOps(attrs[1..])|;
    }
  }

  lemma ErrorsMakeACall(key: Bytes, e: ErrorValue)
    ensures FieldOps(ErrorField(key, e)) != []
  {
    var (ops, err) := ErrorOps(key, e);
    assert ops != [] || err.Some?;
  }

  /** Some attribute of the chain makes a call. */
  predicate AnySolid(links: seq<Link>) {
    links != [] && ((links[0].Attrs? && !AllHollow(links[0].attrs)) || AnySolid(links[1..]))
  }

  /** The part of the chain after the `k`-th non-empty group. */
  function AfterGroup(links: seq<Link>, k: nat): (r: seq<Link>)
    decreases links
  {
    if k == 0 || links == [] then links
    else AfterGroup(links[1..], if links[0].OpenGroup? && links[0].name != [] then k - 1 else k)
  }

  /** All groups of the chain. */
  function FullPath(links: seq<Link>, path: seq<Bytes>): (r: seq<Bytes>)
    decreases links
  {
    if links == [] then path else FullPath(links[1..], Path(path, links[0]))
  }

  lemma {:induction false} UnderIsAt(path: seq<Bytes>, attrs: seq<Attr>)
    ensures forall p :: p in Under(path, attrs) ==> p.path == path
    ensures Under(path, attrs) == [] <==> AllHollow(attrs)
    ensures Under(path, attrs) != [] ==> AnyReal(attrs)
    decreases attrs
  {
    hide FieldOps, ConvertValue;
    if attrs != [] {
      HollowMakesNoCall(attrs[0].key, attrs[0].value);
      UnderIsAt(path, attrs[1..]);
      var here := At(path, FieldOps(Convert(attrs[0])));
      assert |Under(path, attrs)| == |here| + |Under(path, attrs[1..])|;
      SkipLandsNowhere(path);
    }
  }

  /** Every call lands on the way from `path` to the full path, no deeper than is needed. */
  lemma {:induction false} PathsOnTheWay(links: seq<Link>, path: seq<Bytes>, sofar: seq<Bytes>)
    requires sofar <= path
    ensures path <= FullPath(links, path) && sofar <= Needed(links, path, sofar) <= FullPath(links, path)
    ensures forall p :: p in Expected(links, path) ==>
      path <= p.path <= FullPath(links, path) && |p.path| <= |Needed(links, path, sofar)|
    decreases links
  {
    hide Under, AnyReal;
    if links != [] {
      var path' := Path(path, links[0]);
      var needs := links[0].Attrs? && AnyReal(links[0].attrs);
      PathsOnTheWay(links[1..], path', if needs then path else sofar);
      if links[0].Attrs? {
        UnderIsAt(path, links[0].attrs);
      }
    }
  }

  /** A call lands below `k` more groups exactly if some attribute after the `k`-th of them makes one. */
  lemma {:induction false} DeepCalls(links: seq<Link>, path: seq<Bytes>, k: nat)
    ensures (exists p :: p in Expected(links, path) && |p.path| >= |path| + k) <==> AnySolid(AfterGroup(links, k))
    decreases links
  {
    hide Under;
    if links != [] {
      var path' := Path(path, links[0]);
      var opens := links[0].OpenGroup? && links[0].name != [];
      var here := if links[0].Attrs? then Under(path, links[0].attrs) else [];
      var later := Expected(links[1..], path');
      assert forall p :: p in Expected(links, path) <==> p in here || p in later;
      if links[0].Attrs? {
        UnderIsAt(path, links[0].attrs);
        if here != [] {
          assert here[0] in here;
        }
      }
      if k > 0 {
        DeepCalls(links[1..], path', if opens then k - 1 else k);
      } else {
        DeepCalls(links[1..], path', 0);
        PathsOnTheWay(links, path, []);
        PathsOnTheWay(links[1..], path', []);
      }
    }
  }

  /** If namespaces are opened, the innermost has a call in it, and so all of them hold something. */
  ghost predicate NoneEmpty(ops: seq<ObjOp>) {
    Opened(ops) != [] ==> exists p :: p in Place(ops, []) && p.path == Opened(ops)
  }

  /** If groups are needed, some attribute after the last of them makes a call. */
  predicate LastGroupFilled(links: seq<Link>) {
    var needed := Needed(links, [], []);
    needed != [] ==> AnySolid(AfterGroup(links, |needed|))
  }

  /**
   For every chain from a new handler: no opened namespace is left empty if and only if, after
   the last group that is needed, some attribute makes a call.
   */
  lemma ChainFills(links: seq<Link>)
    ensures NoneEmpty(FieldsOps(Run(State([], []), links).context)) <==> LastGroupFilled(links)
  {
    hide FieldsOps, Place, Opened, Run, Expected, Needed, AnySolid, AfterGroup;
    var ops := FieldsOps(Run(State([], []), links).context);
    var needed := Needed(links, [], []);
    FromNothing(links);
    PathsOnTheWay(links, [], []);
    DeepCalls(links, [], |needed|);
    forall p | p in Expected(links, []) && |p.path| >= |needed|
      ensures p.path == needed
    {
      SamePrefix(p.path, needed, FullPath(links, []));
    }
  }

  lemma SamePrefix(a: seq<Bytes>, b: seq<Bytes>, whole: seq<Bytes>)
    requires a <= whole && b <= whole && |a| == |b|
    ensures a == b
  {
    assert a == whole[..|a|] && b == whole[..|b|];
  }

  /** The chain theorem from a new handler. */
  lemma FromNothing(links: seq<Link>)
    ensures var ops := FieldsOps(Run(State([], []), links).context);
      Place(ops, []) == Expected(links, []) && Opened(ops) == Needed(links, [], [])
  {
    hide Place, Opened, Run, Expected, Needed, FieldsOps;
    ChainPlaces(State([], []), links);
    NoFields([]);
    assert Opened(FieldsOps([])) + [] == [];
    assert [] + Expected(links, []) == Expected(links, []);
  }

  /** A group, and in it an inline group without members. */
  function EmptyInlineGroup(name: Bytes): (links: seq<Link>) {
    [OpenGroup(name), Attrs([Attr([], Group([]))])]
  }

  lemma EmptyInlineGroupNeeds(name: Bytes)
    requires name != []
    ensures var links := EmptyInlineGroup(name); Needed(links, [], []) == [name] && !LastGroupFilled(links)
  {
    var attr := Attr([], Group([]));
    var links := EmptyInlineGroup(name);
    assert links[1..] == [Attrs([attr])] && links[1..][1..] == [];
    assert [] + [name] == [name];
    assert Convert(attr) == InlineField([], [], None);
    assert AnyReal([attr]);
    assert Needed(links, [], []) == Needed(links[1..], [name], []) == [name];
    assert AfterGroup(links, 1) == AfterGroup(links[1..], 0) == links[1..];
    assert [attr][1..] == [] && Hollow([], attr.value) && AllHollow([attr]);
    assert !AnySolid(links[1..]);
    assert |Needed(links, [], [])| == 1;
  }

  /** Such a chain opens the group and leaves it empty. */
  lemma EmptyInlineGroupOpensGroups(name: Bytes)
    requires name != []
    ensures var ops := FieldsOps(Run(State([], []), EmptyInlineGroup(name)).context);
      Opened(ops) == [name] && !NoneEmpty(ops)
  {
    hide FieldsOps, Opened, Run, NoneEmpty, Needed, LastGroupFilled, EmptyInlineGroup;
    EmptyInlineGroupNeeds(name);
    ChainFills(EmptyInlineGroup(name));
    FromNothing(EmptyInlineGroup(name));
  }

  /** One turn of the loop over attributes. */
  lemma EmitStep(groups: seq<Bytes>, attrs: seq<Attr>, i: nat, added: bool)
    requires i < |attrs|
    ensures var f := Convert(attrs[i]);
      var opens := !added && groups != [] && f != SkipField;
      && Emit(groups, attrs[i..], added)
         == (if opens then Namespaces(groups) else []) + [f] + Emit(groups, attrs[i + 1..], added || opens)
      && AnyReal(attrs[i..]) == (f != SkipField || AnyReal(attrs[i + 1..]))
  {
    hide Convert, Namespaces;
    assert attrs[i..][1..] == attrs[i + 1..];
  }

  lemma NothingLeft(groups: seq<Bytes>, added: bool)
    ensures Emit(groups, [], added) == [] && !AnyReal([])
  {
  }

  // ---- The handler ----

  /** A record, apart from its attributes. */
  datatype Record = Record(level: int, message: Bytes, time: int)

  const SLOG_INFO := 0
  const SLOG_WARN := 4
  const SLOG_ERROR := 8

  /** `convertSlogLevel`: the highest zap level from debug to error whose slog level is not above the given one. */
  function ConvertLevel(level: int): (r: int)
    ensures -1 <= r <= 2
    ensures r >= 2 <==> level >= 8
    ensures r >= 1 <==> level >= 4
    ensures r >= 0 <==> level >= 0
  {
    if level >= SLOG_ERROR then 2 else if level >= SLOG_WARN then 1 else if level >= SLOG_INFO then 0 else -1
  }

  class Handler {
    const core: Core
    const groups: array<Bytes>
    ghost const root: Core           // the core of the handler this one descends from
    ghost const context: seq<Field>  // the fields it has been given since

    ghost predicate Valid() {
      core == Applied(root, context) || (core == root && context == [])
    }

    ghost function Value(): (s: State)
      reads groups
    {
      State(context, groups[..])
    }

    constructor New(root: Core)
      ensures Valid() && this.root == core == root && Value() == State([], []) && fresh(groups)
    {
      core, this.root, context := root, root, [];
      groups := new Bytes[0];
    }

    constructor Derived(h: Handler, core: Core, groups: array<Bytes>, ghost context: seq<Field>)
      ensures this.core == core && this.groups == groups && root == h.root && this.context == context
    {
      this.core, this.groups, this.root, this.context := core, groups, h.root, context;
    }

    method AppendGroups(fields: seq<Field>) returns (r: seq<Field>)
      ensures r == fields + Namespaces(groups[..])
    {
      r := fields;
      for i := 0 to groups.Length
        invariant r == fields + Namespaces(groups[..i])
      {
        r := r + [NamespaceField(groups[i])];
        assert Namespaces(groups[..i + 1]) == Namespaces(groups[..i]) + [NamespaceField(groups[i])];
      }
      assert groups[..groups.Length] == groups[..];
    }

    /** The loop that Handle and WithAttrs share. */
    method FieldsFor(attrs: seq<Attr>) returns (fields: seq<Field>, addedNamespace: bool)
      ensures fields == Emit(groups[..], attrs, false)
      ensures addedNamespace == (groups.Length > 0 && AnyReal(attrs))
      ensures |fields| <= |attrs| + groups.Length
    {
      hide Convert, Emit, AnyReal, Namespaces;
      fields, addedNamespace := [], false;
      assert attrs[0..] == attrs;
      for i := 0 to |attrs|
        invariant Emit(groups[..], attrs, false) == fields + Emit(groups[..], attrs[i..], addedNamespace)
        invariant addedNamespace ==> groups.Length > 0 && AnyReal(attrs)
        invariant !addedNamespace && groups.Length > 0 ==> (AnyReal(attrs) <==> AnyReal(attrs[i..]))
        invariant |fields| == i + if addedNamespace then groups.Length else 0
      {
        ghost var before := fields;
        EmitStep(groups[..], attrs, i, addedNamespace);
        var f := Convert(attrs[i]);
        ghost var head: seq<Field> := [];
        if !addedNamespace && groups.Length > 0 && f != SkipField {
          fields := AppendGroups(fields);
          addedNamespace := true;
          head := Namespaces(groups[..]);
        }
        fields := fields + [f];
        ghost var rest := Emit(groups[..], attrs[i + 1..], addedNamespace);
        assert fields + rest == before + (head + [f] + rest);
      }
      NothingLeft(groups[..], addedNamespace);
      assert attrs[|attrs|..] == [] && fields + [] == fields;
    }

    /** A new handler; this one is as it was. */
    method WithAttrs(w: World, attrs: seq<Attr>) returns (h: Handler, r: World)
      requires Valid()
      ensures fresh(h) && h.Valid() && h.root == root && h.Value() == Step(Value(), Attrs(attrs))
      ensures h.core == Applied(core, Emit(groups[..], attrs, false)) && r == WithInits(w, core)
      ensures h.groups == groups || fresh(h.groups)
    {
      hide Applied, Emit, AnyReal;
      var fields, addedNamespace := FieldsFor(attrs);
      var rest := groups;
      if addedNamespace {
        rest := new Bytes[0];
      }
      r := WithInits(w, core);
      h := new Handler.Derived(this, Applied(core, fields), rest, context + fields);
      WithTwice(root, context, fields);
      assert [] + fields == fields;
      assert groups.Length == 0 ==> groups[..] == [];
    }

    /** The new group goes into an array of its own, so handlers made from the same one stay apart. */
    method WithGroup(name: Bytes) returns (h: Handler)
      requires Valid()
      ensures h.Valid() && h.root == root && h.core == core && h.Value() == Step(Value(), OpenGroup(name))
      ensures if name == [] then h == this else fresh(h) && fresh(h.groups)
    {
      hide Applied;
      if name == [] {
        return this;
      }
      var n := groups.Length;
      var newGroups := new Bytes[n + 1];
      for i := 0 to n
        invariant newGroups[..i] == groups[..i]
      {
        newGroups[i] := groups[i];
      }
      newGroups[n] := name;
      h := new Handler.Derived(this, core, newGroups, context);
      assert newGroups[..] == groups[..] + [name];
    }

    /** The core decides; what it takes is written with the record's fields behind the groups still pending. */
    method Handle(w: World, record: Record, attrs: seq<Attr>) returns (r: World)
      ensures r == LogEntry(w, core, Entry(ConvertLevel(record.level), record.message, record.time),
                            Emit(groups[..], attrs, false))
    {
      hide Check, WriteAll, Emit;
      var ent := Entry(ConvertLevel(record.level), record.message, record.time);
      var checked := Check(w, core, ent, None);
      if checked.1.None? {
        return checked.0;
      }
      var fields, _ := FieldsFor(attrs);
      return WriteAll(checked.0, checked.1.value.cores, checked.1.value.ent, fields);
    }
  }

  /** A handler's core, given the fields of a record, logs what the first core of the chain logs given all of them. */
  lemma ContextIsFields(w: World, v: World, root: Core, core: Core, context: seq<Field>, ent: Entry, fs: seq<Field>)
    requires core == Applied(root, context) || (core == root && context == [])
    requires NoLazy(LazyCores.Eager(root)) && Same(v, w)
    ensures Same(LogEntry(v, core, ent, fs), LogEntry(w, LazyCores.Eager(root), ent, context + fs))
  {
    hide LogEntry, Applied, NoLazy;
    var eager := LazyCores.Eager(root);
    if context == [] && core == root {
      assert context + fs == fs;
      LazyCores.LogEntryAlike(v, w, root, ent, fs);
    } else {
      LazyCores.WithAlike(root, context);
      WithThenLog(v, eager, ent, context, fs);
      LazyCores.LogEntryAlike(v, w, eager, ent, context + fs);
    }
  }

  /**
   A chain of handlers over any core whose lazy cores, if it has any, are at its root, and a
   record at its end. It is logged as the core would log it with all the chain's fields at once.
   Every attribute is under the groups before it; the groups opened are the needed ones, and none
   is left empty exactly if some attribute after the last of them makes a call.
   */
  method HandleChain(w: World, root: Core, links: seq<Link>, record: Record, attrs: seq<Attr>)
    returns (r: World, ghost written: seq<Field>)
    ensures NoLazy(LazyCores.Eager(root)) ==>
      var ent := Entry(ConvertLevel(record.level), record.message, record.time);
      Same(r, LogEntry(w, LazyCores.Eager(root), ent, written))
    ensures var all := links + [Attrs(attrs)];
      && Place(FieldsOps(written), []) == Expected(all, [])
      && Opened(FieldsOps(written)) == Needed(all, [], [])
      && (NoneEmpty(FieldsOps(written)) <==> LastGroupFilled(all))
  {
    hide FieldsOps, Place, Opened, Expected, Needed, NoneEmpty, LastGroupFilled, Emit, AnyReal;
    hide LogEntry, Applied, NoLazy;
    var h := new Handler.New(root);
    var v := w;
    ghost var start := State([], []);
    for i := 0 to |links|
      invariant h.Valid() && h.root == root && h.Value() == Run(start, links[..i]) && Same(v, w)
    {
      assert links[..i + 1] == links[..i] + [links[i]];
      RunSnoc(start, links[..i], links[i]);
      match links[i] {
        case OpenGroup(name) => h := h.WithGroup(name);
        case Attrs(more) =>
          InitKeepsWorld(v, h.core);
          h, v := h.WithAttrs(v, more);
      }
    }
    assert links[..|links|] == links;
    RunSnoc(start, links, Attrs(attrs));
    written := Run(start, links + [Attrs(attrs)]).context;
    r := h.Handle(v, record, attrs);
    if NoLazy(LazyCores.Eager(root)) {
      ContextIsFields(w, v, root, h.core, h.context, Entry(ConvertLevel(record.level), record.message, record.time),
                      Emit(h.groups[..], attrs, false));
    }
    FromNothing(links + [Attrs(attrs)]);
    ChainFills(links + [Attrs(attrs)]);
  }

  lemma {:induction false} RunSnoc(s: State, links: seq<Link>, last: Link)
    ensures Run(s, links + [last]) == Step(Run(s, links), last)
    decreases links
  {
    hide Step;
    if links == [] {
      assert (links + [last])[1..] == [];
    } else {
      assert (links + [last])[1..] == links[1..] + [last];
      RunSnoc(Step(s, links[0]), links[1..], last);
    }
  }
}
