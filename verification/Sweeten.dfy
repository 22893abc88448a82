/**
 SugaredLogger.sweetenFields: loosely typed arguments sorted into fields and complaints.
 */
module Sweeten {
  import opened Utf8
  import opened EncoderOps
  import opened Sequences

  /** An argument, as the type tests see it: a Field, an error, a string, or anything else. */
  datatype Arg = FieldArg(f: Field) | ErrorArg(e: ErrorValue) | StringArg(s: Bytes) | OtherArg(id: nat)

  /** A field of the result: one passed as such, the first error, or a key with any value. */
  datatype Sweet = Given(f: Field) | TheError(e: ErrorValue) | Any(key: Bytes, value: Arg)

  datatype InvalidPair = InvalidPair(position: nat, key: Arg, value: Arg)

  /** What is logged on the side. */
  datatype Complaint =
    | MultipleErrors(e: ErrorValue)
    | OddNumber(ignored: Arg)
    | NonStringKeys(invalid: seq<InvalidPair>)

  // ---- The reference: every argument has a role ----

  datatype Token =
    | Kept(at: nat)
    | FirstError(at: nat)
    | ExtraError(at: nat)
    | Pair(at: nat)
    | BadPair(at: nat)
    | Dangling(at: nat)

  function Width(t: Token): (n: nat)
    ensures 1 <= n <= 2
  {
    if t.Pair? || t.BadPair? then 2 else 1
  }

  /** A token has the role that its argument calls for. */
  predicate Fits(args: seq<Arg>, t: Token, seenError: bool) {
    && t.at + Width(t) <= |args|
    && match args[t.at]
       case FieldArg(_) => t.Kept?
       case ErrorArg(_) => if seenError then t.ExtraError? else t.FirstError?
       case StringArg(_) => if t.at + 1 == |args| then t.Dangling? else t.Pair?
       case OtherArg(_) => if t.at + 1 == |args| then t.Dangling? else t.BadPair?
  }

  function TokenAt(args: seq<Arg>, i: nat, seenError: bool): (t: Token)
    requires i < |args|
    ensures t.at == i && Fits(args, t, seenError)
  {
    match args[i]
    case FieldArg(_) => Kept(i)
    case ErrorArg(_) => if seenError then ExtraError(i) else FirstError(i)
    case StringArg(_) => if i + 1 == |args| then Dangling(i) else Pair(i)
    case OtherArg(_) => if i + 1 == |args| then Dangling(i) else BadPair(i)
  }

  /** Left to right from `i`. */
  function Tokens(args: seq<Arg>, i: nat, seenError: bool): (ts: seq<Token>)
    requires i <= |args|
    decreases |args| - i
  {
    if i == |args| then []
    else
      var t := TokenAt(args, i, seenError);
      [t] + Tokens(args, i + Width(t), seenError || t.FirstError?)
  }

  /** Tokens laid end to end from `i` to the last argument, each in a role that fits. */
  predicate Covers(args: seq<Arg>, ts: seq<Token>, i: nat, seenError: bool)
    decreases ts
  {
    if ts == [] then i == |args|
    else
      && ts[0].at == i && Fits(args, ts[0], seenError)
      && Covers(args, ts[1..], i + Width(ts[0]), seenError || ts[0].FirstError?)
  }

  /** The roles are forced: the reference is the only way to cover the arguments. */
  lemma {:induction false} TokensCoverUniquely(args: seq<Arg>, ts: seq<Token>, i: nat, seenError: bool)
    requires i <= |args|
    ensures Covers(args, ts, i, seenError) <==> ts == Tokens(args, i, seenError)
    decreases |args| - i
  {
    if i < |args| {
      var t := TokenAt(args, i, seenError);
      var rest := Tokens(args, i + Width(t), seenError || t.FirstError?);
      assert ([t] + rest)[1..] == rest;
      TokensCoverUniquely(args, rest, i + Width(t), seenError || t.FirstError?);
      if ts != [] {
        assert ts == [ts[0]] + ts[1..];
        TokensCoverUniquely(args, ts[1..], i + Width(t), seenError || t.FirstError?);
      }
    } else if ts != [] {
      assert !Fits(args, ts[0], seenError) || ts[0].at != i;
    }
  }

  /** The argument indices that tokens consume. */
  function Indices(ts: seq<Token>): (r: seq<nat>) {
    if ts == [] then []
    else (if Width(ts[0]) == 2 then [ts[0].at, ts[0].at + 1] else [ts[0].at]) + Indices(ts[1..])
  }

  function FieldsOf(args: seq<Arg>, ts: seq<Token>): (r: seq<Sweet>) {
    if ts == [] then []
    else FieldOf(args, ts[0]) + FieldsOf(args, ts[1..])
  }

  function FieldOf(args: seq<Arg>, t: Token): (r: seq<Sweet>) {
    if t.at + Width(t) > |args| then []
    else if t.Kept? && args[t.at].FieldArg? then [Given(args[t.at].f)]
    else if t.FirstError? && args[t.at].ErrorArg? then [TheError(args[t.at].e)]
    else if t.Pair? && args[t.at].StringArg? then [Any(args[t.at].s, args[t.at + 1])]
    else []
  }

  function InvalidOf(args: seq<Arg>, ts: seq<Token>): (r: seq<InvalidPair>) {
    if ts == [] then []
    else BadOf(args, ts[0]) + InvalidOf(args, ts[1..])
  }

  function BadOf(args: seq<Arg>, t: Token): (r: seq<InvalidPair>) {
    if t.BadPair? && t.at + 1 < |args| then [InvalidPair(t.at, args[t.at], args[t.at + 1])] else []
  }

  /** Complaints made on the way: each further error, and a key left without a value. */
  function ComplaintsOf(args: seq<Arg>, ts: seq<Token>): (r: seq<Complaint>) {
    if ts == [] then []
    else ComplaintOf(args, ts[0]) + ComplaintsOf(args, ts[1..])
  }

  function ComplaintOf(args: seq<Arg>, t: Token): (r: seq<Complaint>) {
    if t.at >= |args| then []
    else if t.ExtraError? && args[t.at].ErrorArg? then [MultipleErrors(args[t.at].e)]
    else if t.Dangling? then [OddNumber(args[t.at])]
    else []
  }

  // ---- Facts about the reference ----

  /** Every argument is consumed exactly once, in order, whatever the arguments are. */
  lemma {:induction false} EveryIndexOnce(args: seq<Arg>, i: nat, seenError: bool)
    requires i <= |args|
    ensures Indices(Tokens(args, i, seenError)) == UpFrom(i, |args| - i)
    decreases |args| - i
  {
    hide TokenAt, Tokens;
    if i == |args| {
      NoTokens(args, seenError);
    } else {
      var t := TokenAt(args, i, seenError);
      EveryIndexOnce(args, i + Width(t), seenError || t.FirstError?);
      FirstToken(args, i, seenError);
      var left := |args| - i - Width(t);
      assert UpFrom(i, |args| - i) == (if Width(t) == 2 then [i, i + 1] else [i]) + UpFrom(i + Width(t), left);
    }
  }

  lemma NoTokens(args: seq<Arg>, seenError: bool)
    ensures Tokens(args, |args|, seenError) == []
  {
  }

  lemma FirstToken(args: seq<Arg>, i: nat, seenError: bool)
    requires i < |args|
    ensures var t := TokenAt(args, i, seenError);
      var ts := Tokens(args, i, seenError);
      ts != [] && ts[0] == t && ts[1..] == Tokens(args, i + Width(t), seenError || t.FirstError?)
  {
    hide TokenAt;
  }

  /** How many tokens of a list are first errors. */
  function FirstErrors(ts: seq<Token>): (n: nat) {
    if ts == [] then 0 else (if ts[0].FirstError? then 1 else 0) + FirstErrors(ts[1..])
  }

  /** One error at most becomes a field: the first that is not the value of a pair. */
  lemma {:induction false} OneErrorField(args: seq<Arg>, i: nat, seenError: bool)
    requires i <= |args|
    ensures var ts := Tokens(args, i, seenError);
      && FirstErrors(ts) <= (if seenError then 0 else 1)
      && (forall k :: 0 <= k < |ts| && ts[k].ExtraError? && !seenError ==> FirstErrors(ts[..k]) == 1)
    decreases |args| - i
  {
    var ts := Tokens(args, i, seenError);
    if i < |args| {
      var t := TokenAt(args, i, seenError);
      var seen := seenError || t.FirstError?;
      var rest := Tokens(args, i + Width(t), seen);
      OneErrorField(args, i + Width(t), seen);
      assert ts[1..] == rest;
      forall k | 0 <= k < |ts| && ts[k].ExtraError? && !seenError
        ensures FirstErrors(ts[..k]) == 1
      {
        assert k > 0;
        assert ts[..k][1..] == rest[..k - 1];
        if t.FirstError? {
          NoFirstErrors(args, i + Width(t), k - 1);
        } else {
          assert rest[k - 1].ExtraError?;
        }
      }
    }
  }

  lemma {:induction false} NoFirstErrors(args: seq<Arg>, i: nat, k: nat)
    requires i <= |args| && k <= |Tokens(args, i, true)|
    ensures FirstErrors(Tokens(args, i, true)[..k]) == 0
    decreases |args| - i
  {
    if k > 0 {
      var t := TokenAt(args, i, true);
      var rest := Tokens(args, i + Width(t), true);
      assert Tokens(args, i, true)[..k][1..] == rest[..k - 1];
      NoFirstErrors(args, i + Width(t), k - 1);
    }
  }

  /** Each recorded pair stands where it says, and its key is not a Field, error or string. */
  lemma {:induction false} InvalidPositionsAreTrue(args: seq<Arg>, i: nat, seenError: bool)
    requires i <= |args|
    ensures forall p :: p in InvalidOf(args, Tokens(args, i, seenError)) ==>
      && i <= p.position && p.position + 1 < |args|
      && p.key == args[p.position] && p.key.OtherArg? && p.value == args[p.position + 1]
    decreases |args| - i
  {
    if i < |args| {
      var t := TokenAt(args, i, seenError);
      InvalidPositionsAreTrue(args, i + Width(t), seenError || t.FirstError?);
      assert Tokens(args, i, seenError)[1..] == Tokens(args, i + Width(t), seenError || t.FirstError?);
    }
  }

  // ---- Outputs tell the arguments ----

  /** Something put out for one argument or two. */
  datatype Output = Put(field: Sweet) | Bad(pair: InvalidPair) | Complain(complaint: Complaint)

  function Puts(outs: seq<Output>): (r: seq<Sweet>) {
    if outs == [] then [] else (if outs[0].Put? then [outs[0].field] else []) + Puts(outs[1..])
  }

  function Bads(outs: seq<Output>): (r: seq<InvalidPair>) {
    if outs == [] then [] else (if outs[0].Bad? then [outs[0].pair] else []) + Bads(outs[1..])
  }

  function Complains(outs: seq<Output>): (r: seq<Complaint>) {
    if outs == [] then [] else (if outs[0].Complain? then [outs[0].complaint] else []) + Complains(outs[1..])
  }

  /** The arguments that an output was put out for. */
  function Restored(out: Output): (args: seq<Arg>) {
    match out
    case Put(Given(f)) => [FieldArg(f)]
    case Put(TheError(e)) => [ErrorArg(e)]
    case Put(Any(key, value)) => [StringArg(key), value]
    case Bad(InvalidPair(_, key, value)) => [key, value]
    case Complain(MultipleErrors(e)) => [ErrorArg(e)]
    case Complain(OddNumber(ignored)) => [ignored]
    case Complain(NonStringKeys(_)) => []
  }

  function AllRestored(outs: seq<Output>): (args: seq<Arg>) {
    if outs == [] then [] else Restored(outs[0]) + AllRestored(outs[1..])
  }

  /**
   Outputs from argument `i` on: the error field before complaints of further errors, pairs recorded
   where they stand if their key is none, and a lone key or value only at the end.
   */
  predicate Sound(outs: seq<Output>, i: nat, seenError: bool)
    decreases outs
  {
    if outs == [] then true
    else
      var next := i + |Restored(outs[0])|;
      match outs[0]
      case Put(TheError(_)) => !seenError && Sound(outs[1..], next, true)
      case Put(_) => Sound(outs[1..], next, seenError)
      case Bad(pair) => pair.position == i && pair.key.OtherArg? && Sound(outs[1..], next, seenError)
      case Complain(MultipleErrors(_)) => seenError && Sound(outs[1..], next, seenError)
      case Complain(OddNumber(ignored)) => outs[1..] == [] && (ignored.StringArg? || ignored.OtherArg?)
      case Complain(NonStringKeys(_)) => false
  }

  /** Nothing is lost, made up or moved: the outputs, merged in some order, give the arguments back. */
  ghost predicate Accounts(args: seq<Arg>, fields: seq<Sweet>, invalid: seq<InvalidPair>, complaints: seq<Complaint>) {
    exists outs :: Sound(outs, 0, false) && AllRestored(outs) == args
      && Puts(outs) == fields && Bads(outs) == invalid && Complains(outs) == complaints
  }

  function OutputFor(args: seq<Arg>, i: nat, seenError: bool): (out: Output)
    requires i < |args|
  {
    match args[i]
    case FieldArg(f) => Put(Given(f))
    case ErrorArg(e) => if seenError then Complain(MultipleErrors(e)) else Put(TheError(e))
    case StringArg(s) => if i + 1 == |args| then Complain(OddNumber(args[i])) else Put(Any(s, args[i + 1]))
    case OtherArg(_) =>
      if i + 1 == |args| then Complain(OddNumber(args[i])) else Bad(InvalidPair(i, args[i], args[i + 1]))
  }

  lemma OneOutput(args: seq<Arg>, i: nat, seenError: bool)
    requires i < |args|
    ensures var (out, t) := (OutputFor(args, i, seenError), TokenAt(args, i, seenError));
      && FieldOf(args, t) == (if out.Put? then [out.field] else [])
      && BadOf(args, t) == (if out.Bad? then [out.pair] else [])
      && ComplaintOf(args, t) == (if out.Complain? then [out.complaint] else [])
      && Restored(out) == args[i..i + Width(t)]
  {
  }

  lemma OutputsHead(out: Output, rest: seq<Output>)
    ensures var outs := [out] + rest;
      && AllRestored(outs) == Restored(out) + AllRestored(rest)
      && Puts(outs) == (if out.Put? then [out.field] else []) + Puts(rest)
      && Bads(outs) == (if out.Bad? then [out.pair] else []) + Bads(rest)
      && Complains(outs) == (if out.Complain? then [out.complaint] else []) + Complains(rest)
  {
    hide Restored;
    assert ([out] + rest)[1..] == rest;
  }

  lemma SoundStep(args: seq<Arg>, i: nat, seenError: bool, rest: seq<Output>)
    requires i < |args|
    requires var t := TokenAt(args, i, seenError);
      Sound(rest, i + Width(t), seenError || t.FirstError?) && AllRestored(rest) == args[i + Width(t)..]
    ensures Sound([OutputFor(args, i, seenError)] + rest, i, seenError)
  {
    var outs := [OutputFor(args, i, seenError)] + rest;
    assert outs[1..] == rest;
    if TokenAt(args, i, seenError).Dangling? {
      NothingRestored(rest, i + 1, seenError);
    }
  }

  lemma NothingRestored(outs: seq<Output>, i: nat, seenError: bool)
    requires Sound(outs, i, seenError) && AllRestored(outs) == []
    ensures outs == []
  {
  }

  /** These outputs are those for the arguments from `i` on. */
  ghost predicate Tells(outs: seq<Output>, args: seq<Arg>, i: nat, seenError: bool)
    requires i <= |args|
  {
    var ts := Tokens(args, i, seenError);
    && Sound(outs, i, seenError) && AllRestored(outs) == args[i..]
    && Puts(outs) == FieldsOf(args, ts) && Bads(outs) == InvalidOf(args, ts)
    && Complains(outs) == ComplaintsOf(args, ts)
  }

  lemma TellsStep(outs: seq<Output>, args: seq<Arg>, i: nat, seenError: bool)
    requires i < |args|
    requires var t := TokenAt(args, i, seenError); Tells(outs, args, i + Width(t), seenError || t.FirstError?)
    ensures Tells([OutputFor(args, i, seenError)] + outs, args, i, seenError)
  {
    hide Tokens, FieldsOf, InvalidOf, ComplaintsOf, FieldOf, BadOf, ComplaintOf, TokenAt, OutputFor;
    hide Sound, AllRestored, Restored, Puts, Bads, Complains;
    TokensStep(args, i, seenError);
    OneOutput(args, i, seenError);
    SoundStep(args, i, seenError, outs);
    OutputsHead(OutputFor(args, i, seenError), outs);
    var n := i + Width(TokenAt(args, i, seenError));
    assert args[i..] == args[i..n] + args[n..];
  }

  lemma TellsNothing(args: seq<Arg>, seenError: bool)
    ensures Tells([], args, |args|, seenError)
  {
  }

  lemma {:induction false} OutputsTell(args: seq<Arg>, i: nat, seenError: bool) returns (outs: seq<Output>)
    requires i <= |args|
    ensures Tells(outs, args, i, seenError)
    decreases |args| - i
  {
    hide Tells, OutputFor;
    if i == |args| {
      outs := [];
      TellsNothing(args, seenError);
    } else {
      var t := TokenAt(args, i, seenError);
      outs := OutputsTell(args, i + Width(t), seenError || t.FirstError?);
      TellsStep(outs, args, i, seenError);
      outs := [OutputFor(args, i, seenError)] + outs;
    }
  }

  lemma SameHead(a: seq<Output>, b: seq<Output>, i: nat, seenError: bool)
    requires Sound(a, i, seenError) && Sound(b, i, seenError) && a != [] && b != []
    requires AllRestored(a) == AllRestored(b)
    ensures a[0] == b[0]
  {
    var args := AllRestored(a);
    assert |args| >= |Restored(a[0])| && |args| >= |Restored(b[0])|;
    assert args[..|Restored(a[0])|] == Restored(a[0]);
    assert args[..|Restored(b[0])|] == Restored(b[0]);
    LoneAtEnd(a, i, seenError);
    LoneAtEnd(b, i, seenError);
    assert args[0] == Restored(a[0])[0] == Restored(b[0])[0];
    if |Restored(a[0])| == 2 && |Restored(b[0])| == 2 {
      assert args[1] == Restored(a[0])[1] == Restored(b[0])[1];
    }
  }

  lemma LoneAtEnd(outs: seq<Output>, i: nat, seenError: bool)
    requires Sound(outs, i, seenError) && outs != []
    ensures outs[0].Complain? && outs[0].complaint.OddNumber? ==> |AllRestored(outs)| == 1
    ensures |Restored(outs[0])| >= 1
  {
  }

  /** There is one way only to account for the arguments. */
  lemma {:induction false} AccountIsUnique(a: seq<Output>, b: seq<Output>, i: nat, seenError: bool)
    requires Sound(a, i, seenError) && Sound(b, i, seenError) && AllRestored(a) == AllRestored(b)
    ensures a == b
    decreases |a|
  {
    if a == [] {
      NothingRestored(b, i, seenError);
    } else if b == [] {
      NothingRestored(a, i, seenError);
    } else {
      SameHead(a, b, i, seenError);
      var n := |Restored(a[0])|;
      assert AllRestored(a)[n..] == AllRestored(a[1..]);
      assert AllRestored(b)[n..] == AllRestored(b[1..]);
      TailSound(a, i, seenError);
      TailSound(b, i, seenError);
      AccountIsUnique(a[1..], b[1..], i + n, SeenAfter(a[0], seenError));
      assert a == [a[0]] + a[1..] && b == [b[0]] + b[1..];
    }
  }

  function SeenAfter(out: Output, seenError: bool): (seen: bool) {
    seenError || (out.Put? && out.field.TheError?)
  }

  lemma TailSound(outs: seq<Output>, i: nat, seenError: bool)
    requires Sound(outs, i, seenError) && outs != []
    ensures Sound(outs[1..], i + |Restored(outs[0])|, SeenAfter(outs[0], seenError))
  {
  }

  lemma ArgumentsAccounted(args: seq<Arg>)
    ensures var ts := Tokens(args, 0, false);
      Accounts(args, FieldsOf(args, ts), InvalidOf(args, ts), ComplaintsOf(args, ts))
  {
    hide Tokens, FieldsOf, InvalidOf, ComplaintsOf, Sound, AllRestored, Puts, Bads, Complains;
    var outs := OutputsTell(args, 0, false);
    assert args[0..] == args;
  }

  // ---- The loop ----

  /** One turn of the reference at `i`. */
  lemma TokensStep(args: seq<Arg>, i: nat, seenError: bool)
    requires i < |args|
    ensures var t := TokenAt(args, i, seenError);
      var ts, rest := Tokens(args, i, seenError), Tokens(args, i + Width(t), seenError || t.FirstError?);
      && FieldsOf(args, ts) == FieldOf(args, t) + FieldsOf(args, rest)
      && InvalidOf(args, ts) == BadOf(args, t) + InvalidOf(args, rest)
      && ComplaintsOf(args, ts) == ComplaintOf(args, t) + ComplaintsOf(args, rest)
  {
    var t := TokenAt(args, i, seenError);
    assert Tokens(args, i, seenError)[1..] == Tokens(args, i + Width(t), seenError || t.FirstError?);
  }

  /** What is done and what is left make the whole. */
  ghost predicate Halfway(args: seq<Arg>, i: nat, seenError: bool, fields: seq<Sweet>, invalid: seq<InvalidPair>,
                          complaints: seq<Complaint>)
    requires i <= |args|
  {
    var all, left := Tokens(args, 0, false), Tokens(args, i, seenError);
    && FieldsOf(args, all) == fields + FieldsOf(args, left)
    && InvalidOf(args, all) == invalid + InvalidOf(args, left)
    && ComplaintsOf(args, all) == complaints + ComplaintsOf(args, left)
  }

  lemma HalfwayStep(args: seq<Arg>, i: nat, seenError: bool, fields: seq<Sweet>, invalid: seq<InvalidPair>,
                    complaints: seq<Complaint>)
    requires i < |args| && Halfway(args, i, seenError, fields, invalid, complaints)
    ensures var t := TokenAt(args, i, seenError);
      Halfway(args, i + Width(t), seenError || t.FirstError?, fields + FieldOf(args, t),
              invalid + BadOf(args, t), complaints + ComplaintOf(args, t))
  {
    hide Tokens, FieldsOf, InvalidOf, ComplaintsOf, TokenAt, FieldOf, BadOf, ComplaintOf, Width;
    TokensStep(args, i, seenError);
    var t := TokenAt(args, i, seenError);
    var rest := Tokens(args, i + Width(t), seenError || t.FirstError?);
    assert fields + (FieldOf(args, t) + FieldsOf(args, rest)) == fields + FieldOf(args, t) + FieldsOf(args, rest);
    assert invalid + (BadOf(args, t) + InvalidOf(args, rest)) == invalid + BadOf(args, t) + InvalidOf(args, rest);
    assert complaints + (ComplaintOf(args, t) + ComplaintsOf(args, rest))
        == complaints + ComplaintOf(args, t) + ComplaintsOf(args, rest);
  }

  lemma HalfwayEnds(args: seq<Arg>, seenError: bool, fields: seq<Sweet>, invalid: seq<InvalidPair>,
                    complaints: seq<Complaint>)
    ensures Halfway(args, 0, false, [], [], [])
    ensures Halfway(args, |args|, seenError, fields, invalid, complaints) ==>
      var ts := Tokens(args, 0, false);
      fields == FieldsOf(args, ts) && invalid == InvalidOf(args, ts) && complaints == ComplaintsOf(args, ts)
  {
    assert Tokens(args, |args|, seenError) == [];
    assert fields + [] == fields && invalid + [] == invalid && complaints + [] == complaints;
  }

  /**
   The loop does what the roles say, in argument order, and stays within the space it reserved:
   as many fields as arguments and half as many invalid pairs.
   */
  method SweetenFields(args: seq<Arg>)
    returns (fields: seq<Sweet>, complaints: seq<Complaint>, invalid: seq<InvalidPair>)
    ensures var ts := Tokens(args, 0, false);
      && fields == FieldsOf(args, ts)
      && invalid == InvalidOf(args, ts)
      && complaints == ComplaintsOf(args, ts) + (if invalid == [] then [] else [NonStringKeys(invalid)])
    ensures var n := |complaints| - (if invalid == [] then 0 else 1);
      n >= 0 && Accounts(args, fields, invalid, complaints[..n])
    ensures |fields| <= |args| && |invalid| <= |args| / 2
  {
    hide Tokens, FieldsOf, InvalidOf, ComplaintsOf, Halfway, Accounts;
    ArgumentsAccounted(args);
    fields, complaints, invalid := [], [], [];
    HalfwayEnds(args, false, [], [], []);
    if |args| == 0 {
      return;
    }
    var i, seenError := 0, false;
    while i < |args|
      invariant i <= |args|
      invariant Halfway(args, i, seenError, fields, invalid, complaints)
      invariant |fields| + 2 * |invalid| <= i
      decreases |args| - i
    {
      HalfwayStep(args, i, seenError, fields, invalid, complaints);
      assert fields + [] == fields && invalid + [] == invalid && complaints + [] == complaints;
      if args[i].FieldArg? {
        fields := fields + [Given(args[i].f)];
        i := i + 1;
        continue;
      }
      if args[i].ErrorArg? {
        if !seenError {
          seenError := true;
          fields := fields + [TheError(args[i].e)];
        } else {
          complaints := complaints + [MultipleErrors(args[i].e)];
        }
        i := i + 1;
        continue;
      }
      if i == |args| - 1 {
        complaints := complaints + [OddNumber(args[i])];
        i := i + 1;
        break;
      }
      if !args[i].StringArg? {
        invalid := invalid + [InvalidPair(i, args[i], args[i + 1])];
      } else {
        fields := fields + [Any(args[i].s, args[i + 1])];
      }
      i := i + 2;
    }
    HalfwayEnds(args, seenError, fields, invalid, complaints);
    assert complaints[..|complaints|] == complaints;
    if |invalid| > 0 {
      complaints := complaints + [NonStringKeys(invalid)];
    }
  }
}
