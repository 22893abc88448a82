/**
 The text that a list of encoder calls stands for, with commas placed by position in
 the list rather than by looking at the last byte written, and what that text means
 to a JSON reader.
 */
module JsonRendering {
  import opened Utf8
  import opened StringEscape
  import opened JsonText
  import opened EncoderOps

  /** The parts of an encoder that decide how values look. A user encoder makes at most one append. */
  datatype Style = Style(
    spaced: bool,
    encodeTime: Option<Moment -> Option<Scalar>>,
    encodeDuration: Option<int -> Option<Scalar>>)

  // ---- Scalars ----

  /** Decimal digits of `n`, as `strconv.AppendInt` writes them. */
  function NatText(n: nat): (t: Bytes) {
    if n < 10 then [ZERO + n] else NatText(n / 10) + [ZERO + n % 10]
  }

  function IntText(n: int): (t: Bytes) {
    if n < 0 then [MINUS] + NatText(-n) else NatText(n)
  }

  function Quoted(t: Bytes): (r: Bytes) {
    [QUOTE] + t + [QUOTE]
  }

  const NAN_TEXT: Bytes := [0x4E, 0x61, 0x4E]
  const POS_INF_TEXT: Bytes := [0x2B, 0x49, 0x6E, 0x66]
  const NEG_INF_TEXT: Bytes := [0x2D, 0x49, 0x6E, 0x66]

  function ScalarText(s: Scalar): (t: Bytes) {
    match s
    case SString(b) => Quoted(Escape(b))
    case SBool(b) => if b then TRUE_TEXT else FALSE_TEXT
    case SInt(n) => IntText(n)
    case SFloat(Finite(t)) => t
    case SFloat(NaN) => Quoted(NAN_TEXT)
    case SFloat(PosInf) => Quoted(POS_INF_TEXT)
    case SFloat(NegInf) => Quoted(NEG_INF_TEXT)
    case SQuoted(t) => Quoted(t)
  }

  /** What a scalar means to a reader. */
  function ScalarJson(s: Scalar): (j: Json) {
    match s
    case SString(b) => JString(Sanitize(b))
    case SBool(b) => JBool(b)
    case SInt(n) => JNumber(IntText(n))
    case SFloat(Finite(t)) => JNumber(t)
    case SFloat(NaN) => JString(NAN_TEXT)
    case SFloat(PosInf) => JString(POS_INF_TEXT)
    case SFloat(NegInf) => JString(NEG_INF_TEXT)
    case SQuoted(t) => JString(t)
  }

  /** Library-formatted text is trusted to be a number, or to need no escaping. */
  predicate ScalarOk(s: Scalar) {
    match s
    case SFloat(Finite(t)) => NumberLength(t) == Some(|t|)
    case SQuoted(t) => Escape(t) == t && ValidUtf8(t)
    case _ => true
  }

  /** `text` is exactly one JSON value, with nothing after it. */
  predicate OneValue(text: Bytes) {
    ReadValue(text).Some? && ReadValue(text).value.1 == []
  }

  lemma {:induction false} NatTextDigits(n: nat)
    ensures NatText(n) != []
    ensures Digits(NatText(n)) == |NatText(n)|
    ensures NatText(n)[0] == ZERO <==> n == 0
    ensures IsDigit(NatText(n)[0])
  {
    if n >= 10 {
      NatTextDigits(n / 10);
      AllDigits(NatText(n / 10), [ZERO + n % 10]);
    } else {
      assert NatText(n)[1..] == [];
    }
  }

  lemma {:induction false} AllDigits(a: Bytes, b: Bytes)
    requires Digits(a) == |a|
    ensures Digits(a + b) == |a| + Digits(b)
  {
    if a == [] {
      assert a + b == b;
    } else {
      assert IsDigit((a + b)[0]);
      AllDigits(a[1..], b);
      assert (a + b)[1..] == a[1..] + b;
    }
  }

  lemma IntTextIsNumber(n: int)
    ensures NumberLength(IntText(n)) == Some(|IntText(n)|)
  {
    var t := IntText(n);
    var m := if n < 0 then 1 else 0;
    var d := NatText(if n < 0 then -n else n);
    NatTextDigits(if n < 0 then -n else n);
    assert t[m..] == d;
    assert IntLength(d) == |d|;
    assert t[m + |d|..] == [];
  }

  /** The number that decimal digits stand for. */
  function DecimalValue(t: Bytes): (n: int) {
    if t == [] then 0 else 10 * DecimalValue(t[..|t| - 1]) + t[|t| - 1] - 0x30
  }

  /** The one way of writing `n`: digits without leading zeros, after a minus sign if it is negative. */
  predicate Decimal(t: Bytes, n: int) {
    if n < 0 then t != [] && t[0] == 0x2D && Natural(t[1..], -n) else Natural(t, n)
  }

  predicate Natural(t: Bytes, n: nat) {
    && t != []
    && (forall b :: b in t ==> 0x30 <= b <= 0x39)
    && (|t| > 1 ==> t[0] != 0x30)
    && DecimalValue(t) == n
  }

  lemma {:induction false} NatTextValue(n: nat)
    ensures Natural(NatText(n), n)
  {
    if n >= 10 {
      NatTextValue(n / 10);
      NatTextDigits(n / 10);
      assert NatText(n)[..|NatText(n)| - 1] == NatText(n / 10);
    } else {
      assert NatText(n)[..0] == [];
    }
  }

  lemma IntTextValue(n: int)
    ensures Decimal(IntText(n), n)
  {
    NatTextValue(if n < 0 then -n else n);
    NatTextDigits(if n < 0 then -n else n);
    if n < 0 {
      assert IntText(n)[1..] == NatText(-n);
    }
  }

  lemma NumberStart(t: Bytes)
    requires NumberLength(t).Some?
    ensures t[0] == MINUS || IsDigit(t[0])
  {
    hide FracLength, ExpLength;
  }

  lemma NumberReads(t: Bytes)
    requires NumberLength(t) == Some(|t|)
    ensures ReadValue(t) == Some((JNumber(t), []))
  {
    hide ReadValue, NumberLength;
    NumberStart(t);
    ReadsScalar(t);
    assert t[..|t|] == t;
  }

  lemma QuotedReads(t: Bytes, contents: Bytes)
    requires ReadString(t + [QUOTE]) == Some((contents, []))
    ensures ReadValue(Quoted(t)) == Some((JString(contents), []))
  {
    hide ReadValue, ReadString;
    assert Quoted(t)[1..] == t + [QUOTE];
    ReadsScalar(Quoted(t));
  }

  lemma EscapedReads(s: Bytes)
    ensures ReadString(Escape(s) + [QUOTE]) == Some((Sanitize(s), []))
  {
    ReadEscaped(s, []);
    assert Escape(s) + [QUOTE] + [] == Escape(s) + [QUOTE];
  }

  lemma PlainTextIsVerbatim(t: Bytes)
    requires forall b :: b in t ==> Plain(b)
    ensures Escape(t) == t && ValidUtf8(t)
  {
    if t != [] {
      PlainTextIsVerbatim(t[1..]);
    }
  }

  /** Every trusted scalar is written as one JSON value with the meaning it should have. */
  lemma ScalarReads(s: Scalar)
    requires ScalarOk(s)
    ensures ReadValue(ScalarText(s)) == Some((ScalarJson(s), []))
  {
    hide ReadValue, NumberLength, Escape, ReadString;
    match s {
      case SString(b) => EscapedReads(b); QuotedReads(Escape(b), Sanitize(b));
      case SBool(b) => LiteralReads(b);
      case SInt(n) => IntTextIsNumber(n); NumberReads(IntText(n));
      case SFloat(Finite(t)) => NumberReads(t);
      case SFloat(NaN) => VerbatimReads(NAN_TEXT);
      case SFloat(PosInf) => VerbatimReads(POS_INF_TEXT);
      case SFloat(NegInf) => VerbatimReads(NEG_INF_TEXT);
      case SQuoted(t) => EscapedReads(t); SanitizeFixesValid(t); QuotedReads(t, t);
    }
  }

  lemma VerbatimReads(t: Bytes)
    requires forall b :: b in t ==> Plain(b)
    ensures ReadValue(Quoted(t)) == Some((JString(t), []))
  {
    PlainTextIsVerbatim(t);
    EscapedReads(t);
    SanitizeFixesValid(t);
    QuotedReads(t, t);
  }

  lemma LiteralReads(b: bool)
    ensures var t := if b then TRUE_TEXT else FALSE_TEXT; ReadValue(t) == Some((JBool(b), []))
  {
    hide ReadValue;
    var t := if b then TRUE_TEXT else FALSE_TEXT;
    ReadsScalar(t);
    assert t[..|t|] == t;
  }
}
