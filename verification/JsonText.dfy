/**
 A reader for JSON texts, written from sections 2 to 7 of RFC 8259: the partner the
 encoder's output is checked against. Members keep their order and duplicates.
 */
module JsonText {
  import opened Utf8
  import opened StringEscape

  const LBRACE: Byte := 0x7B
  const RBRACE: Byte := 0x7D
  const LBRACKET: Byte := 0x5B
  const RBRACKET: Byte := 0x5D
  const COLON: Byte := 0x3A
  const COMMA: Byte := 0x2C
  const SPACE: Byte := 0x20
  const MINUS: Byte := 0x2D
  const PLUS: Byte := 0x2B
  const DOT: Byte := 0x2E

  const TRUE_TEXT: Bytes := [0x74, 0x72, 0x75, 0x65]
  const FALSE_TEXT: Bytes := [0x66, 0x61, 0x6C, 0x73, 0x65]
  const NULL_TEXT: Bytes := [0x6E, 0x75, 0x6C, 0x6C]

  datatype Json =
    | JString(contents: Bytes)
    | JNumber(text: Bytes)
    | JBool(b: bool)
    | JNull
    | JObject(members: seq<JMember>)
    | JArray(elements: seq<Json>)

  datatype JMember = JMember(key: Bytes, value: Json)

  /** A value and the text left after it. */
  type Reading<T> = Option<(T, Bytes)>

  predicate Whitespace(b: Byte) {
    b == 0x20 || b == 0x09 || b == 0x0A || b == 0x0D
  }

  /** The bytes after which the encoder writes no comma. */
  predicate OpensElement(b: Byte) {
    b == LBRACE || b == LBRACKET || b == COLON || b == COMMA || b == SPACE
  }

  function SkipWhitespace(t: Bytes): (r: Bytes)
    ensures |r| <= |t|
    ensures r != [] ==> !Whitespace(r[0])
  {
    if t != [] && Whitespace(t[0]) then SkipWhitespace(t[1..]) else t
  }

  // ---- Numbers: section 6 ----

  predicate IsDigit(b: Byte) {
    0x30 <= b <= 0x39
  }

  function Digits(t: Bytes): (n: nat)
    ensures n <= |t|
    ensures n > 0 ==> IsDigit(t[n - 1])
  {
    if t != [] && IsDigit(t[0]) then 1 + Digits(t[1..]) else 0
  }

  /** Length of the integer part. */
  function IntLength(t: Bytes): (n: nat)
    ensures n <= |t|
    ensures n > 0 ==> IsDigit(t[n - 1])
  {
    if t != [] && t[0] == ZERO then 1 else Digits(t)
  }

  /** Length of an optional fraction; none when a point has no digit after it. */
  function FracLength(t: Bytes): (n: Option<nat>)
    ensures n.Some? ==> n.value <= |t| && (n.value > 0 ==> IsDigit(t[n.value - 1]))
  {
    if t == [] || t[0] != DOT then Some(0)
    else
      var d := Digits(t[1..]);
      if d == 0 then None else Some(1 + d)
  }

  /** Length of an optional exponent; none when it has no digits. */
  function ExpLength(t: Bytes): (n: Option<nat>)
    ensures n.Some? ==> n.value <= |t| && (n.value > 0 ==> IsDigit(t[n.value - 1]))
  {
    if t == [] || (t[0] != 0x65 && t[0] != 0x45) then Some(0)
    else
      var sign := if |t| > 1 && (t[1] == PLUS || t[1] == MINUS) then 1 else 0;
      var d := Digits(t[1 + sign..]);
      if d == 0 then None else Some(1 + sign + d)
  }

  function NumberLength(t: Bytes): (n: Option<nat>)
    ensures n.Some? ==> 1 <= n.value <= |t| && IsDigit(t[n.value - 1])
  {
    var m := if t != [] && t[0] == MINUS then 1 else 0;
    var i := IntLength(t[m..]);
    if i == 0 then None
    else
      var f := FracLength(t[m + i..]);
      if f.None? then None
      else
        var e := ExpLength(t[m + i + f.value..]);
        if e.None? then None else Some(m + i + f.value + e.value)
  }

  // ---- Values ----

  function ReadLiteral(t: Bytes, text: Bytes, value: Json): (r: Reading<Json>) {
    if |text| <= |t| && t[..|text|] == text then Some((value, t[|text|..])) else None
  }

  /** A value that is neither an object nor an array. */
  function ReadScalar(t: Bytes): (r: Reading<Json>)
    requires t != []
    ensures r.Some? ==> |r.value.1| < |t|
  {
    if t[0] == QUOTE then
      var s := ReadString(t[1..]);
      if s.None? then None else Some((JString(s.value.0), s.value.1))
    else if t[0] == TRUE_TEXT[0] then ReadLiteral(t, TRUE_TEXT, JBool(true))
    else if t[0] == FALSE_TEXT[0] then ReadLiteral(t, FALSE_TEXT, JBool(false))
    else if t[0] == NULL_TEXT[0] then ReadLiteral(t, NULL_TEXT, JNull)
    else
      var n := NumberLength(t);
      if n.None? then None else Some((JNumber(t[..n.value]), t[n.value..]))
  }

  function ReadValue(text: Bytes): (r: Reading<Json>)
    ensures r.Some? ==> |r.value.1| < |text|
    decreases |text|, 3
  {
    var t := SkipWhitespace(text);
    if t == [] then None
    else if t[0] == LBRACE then
      var ms := ReadObject(t[1..]);
      if ms.None? then None else Some((JObject(ms.value.0), ms.value.1))
    else if t[0] == LBRACKET then
      var es := ReadArray(t[1..]);
      if es.None? then None else Some((JArray(es.value.0), es.value.1))
    else ReadScalar(t)
  }

  /** The members of an object, `text` starting just after the opening brace. */
  function ReadObject(text: Bytes): (r: Reading<seq<JMember>>)
    ensures r.Some? ==> |r.value.1| < |text|
    decreases |text|, 3
  {
    var t := SkipWhitespace(text);
    if t != [] && t[0] == RBRACE then Some(([], t[1..])) else ReadMembers(text)
  }

  /** One member and all that follow it, up to and including the closing brace. */
  function ReadMembers(t: Bytes): (r: Reading<seq<JMember>>)
    ensures r.Some? ==> |r.value.1| < |t|
    decreases |t|, 2
  {
    var m := ReadMember(t);
    if m.None? then None
    else
      var more := ReadMoreMembers(m.value.1);
      if more.None? then None else Some(([m.value.0] + more.value.0, more.value.1))
  }

  function ReadMoreMembers(text: Bytes): (r: Reading<seq<JMember>>)
    ensures r.Some? ==> |r.value.1| < |text|
    decreases |text|, 1
  {
    var t := SkipWhitespace(text);
    if t == [] then None
    else if t[0] == RBRACE then Some(([], t[1..]))
    else if t[0] == COMMA then ReadMembers(t[1..])
    else None
  }

  function ReadMember(text: Bytes): (r: Reading<JMember>)
    ensures r.Some? ==> |r.value.1| < |text|
    decreases |text|, 1
  {
    var t := SkipWhitespace(text);
    if t == [] || t[0] != QUOTE then None
    else
      var key := ReadString(t[1..]);
      if key.None? then None
      else
        var v := ReadMemberValue(key.value.1);
        if v.None? then None else Some((JMember(key.value.0, v.value.0), v.value.1))
  }

  /** The colon of a member and the value after it. */
  function ReadMemberValue(text: Bytes): (r: Reading<Json>)
    ensures r.Some? ==> |r.value.1| < |text|
    decreases |text|, 1
  {
    var t := SkipWhitespace(text);
    if t == [] || t[0] != COLON then None else ReadValue(t[1..])
  }

  /** The elements of an array, `text` starting just after the opening bracket. */
  function ReadArray(text: Bytes): (r: Reading<seq<Json>>)
    ensures r.Some? ==> |r.value.1| < |text|
    decreases |text|, 5
  {
    var t := SkipWhitespace(text);
    if t != [] && t[0] == RBRACKET then Some(([], t[1..])) else ReadElements(text)
  }

  /** One element and all that follow it, up to and including the closing bracket. */
  function ReadElements(t: Bytes): (r: Reading<seq<Json>>)
    ensures r.Some? ==> |r.value.1| < |t|
    decreases |t|, 4
  {
    var v := ReadValue(t);
    if v.None? then None
    else
      var more := ReadMoreElements(v.value.1);
      if more.None? then None else Some(([v.value.0] + more.value.0, more.value.1))
  }

  function ReadMoreElements(text: Bytes): (r: Reading<seq<Json>>)
    ensures r.Some? ==> |r.value.1| < |text|
    decreases |text|, 1
  {
    var t := SkipWhitespace(text);
    if t == [] then None
    else if t[0] == RBRACKET then Some(([], t[1..]))
    else if t[0] == COMMA then ReadElements(t[1..])
    else None
  }

  /** Text that starts with neither white space nor a bracket is read as a scalar. */
  lemma ReadsScalar(t: Bytes)
    requires t != [] && !Whitespace(t[0]) && t[0] != LBRACE && t[0] != LBRACKET
    ensures ReadValue(t) == ReadScalar(t)
  {
    hide ReadScalar;
  }

  // ---- A value's last byte always calls for a comma ----

  predicate IsSuffix(rest: Bytes, t: Bytes) {
    |rest| <= |t| && rest == t[|t| - |rest|..]
  }

  /** A value was taken off the front of `t`, and its last byte calls for a comma. */
  predicate TookValue(t: Bytes, rest: Bytes) {
    && |rest| < |t|
    && IsSuffix(rest, t)
    && !OpensElement(t[|t| - |rest| - 1])
  }

  lemma TookFromSuffix(text: Bytes, t: Bytes, rest: Bytes)
    requires IsSuffix(t, text) && TookValue(t, rest)
    ensures TookValue(text, rest)
  {
  }

  lemma {:induction false} SkipTakesWhitespace(t: Bytes)
    ensures IsSuffix(SkipWhitespace(t), t)
  {
    if t != [] && Whitespace(t[0]) {
      SkipTakesWhitespace(t[1..]);
    }
  }

  /** The same for a text that starts with white space and one more byte. */
  lemma TookPastByte(text: Bytes, rest: Bytes)
    requires SkipWhitespace(text) != [] && TookValue(SkipWhitespace(text)[1..], rest)
    ensures TookValue(text, rest)
  {
    hide SkipWhitespace;
    var t := SkipWhitespace(text);
    SkipTakesWhitespace(text);
    assert IsSuffix(t[1..], text);
    TookFromSuffix(text, t[1..], rest);
  }

  lemma TookByte(text: Bytes)
    requires SkipWhitespace(text) != [] && !OpensElement(SkipWhitespace(text)[0])
    ensures TookValue(text, SkipWhitespace(text)[1..])
  {
    hide SkipWhitespace;
    SkipTakesWhitespace(text);
  }

  lemma {:induction false} StringTook(t: Bytes)
    requires ReadString(t).Some?
    ensures TookValue(t, ReadString(t).value.1)
  {
    hide ReadUnit;
    if t[0] != QUOTE {
      StringTook(t[ReadUnit(t).value.1..]);
      TookFromSuffix(t, t[ReadUnit(t).value.1..], ReadString(t).value.1);
    }
  }

  lemma ScalarTook(t: Bytes)
    requires t != [] && ReadScalar(t).Some?
    ensures TookValue(t, ReadScalar(t).value.1)
  {
    hide ReadString, NumberLength;
    if t[0] == QUOTE {
      StringTook(t[1..]);
      TookFromSuffix(t, t[1..], ReadScalar(t).value.1);
    }
  }

  lemma {:induction false} ValueTook(text: Bytes)
    requires ReadValue(text).Some?
    ensures TookValue(text, ReadValue(text).value.1)
    decreases |text|, 4
  {
    hide SkipWhitespace, ReadScalar, ReadObject, ReadArray, TookValue;
    var t := SkipWhitespace(text);
    if t[0] == LBRACE {
      ObjectTook(t[1..]);
      TookPastByte(text, ReadValue(text).value.1);
    } else if t[0] == LBRACKET {
      ArrayTook(t[1..]);
      TookPastByte(text, ReadValue(text).value.1);
    } else {
      ScalarTook(t);
      SkipTakesWhitespace(text);
      TookFromSuffix(text, t, ReadValue(text).value.1);
    }
  }

  lemma {:induction false} ObjectTook(text: Bytes)
    requires ReadObject(text).Some?
    ensures TookValue(text, ReadObject(text).value.1)
    decreases |text|, 3
  {
    hide SkipWhitespace, ReadMembers, TookValue;
    var t := SkipWhitespace(text);
    if t != [] && t[0] == RBRACE {
      TookByte(text);
    } else {
      MembersTook(text);
    }
  }

  lemma {:induction false} MembersTook(t: Bytes)
    requires ReadMembers(t).Some?
    ensures TookValue(t, ReadMembers(t).value.1)
    decreases |t|, 2
  {
    hide ReadMember, ReadMoreMembers;
    var z := ReadMember(t).value.1;
    MemberTook(t);
    MoreMembersTook(z);
    TookFromSuffix(t, z, ReadMembers(t).value.1);
  }

  lemma {:induction false} MoreMembersTook(text: Bytes)
    requires ReadMoreMembers(text).Some?
    ensures TookValue(text, ReadMoreMembers(text).value.1)
    decreases |text|, 1
  {
    hide SkipWhitespace, ReadMembers, TookValue;
    var t := SkipWhitespace(text);
    if t[0] == RBRACE {
      TookByte(text);
    } else {
      MembersTook(t[1..]);
      TookPastByte(text, ReadMoreMembers(text).value.1);
    }
  }

  lemma {:induction false} MemberTook(text: Bytes)
    requires ReadMember(text).Some?
    ensures TookValue(text, ReadMember(text).value.1)
    decreases |text|, 1
  {
    hide SkipWhitespace, ReadString, ReadMemberValue;
    var t := SkipWhitespace(text);
    var z := ReadString(t[1..]).value.1;
    StringTook(t[1..]);
    MemberValueTook(z);
    TookFromSuffix(t[1..], z, ReadMember(text).value.1);
    TookPastByte(text, ReadMember(text).value.1);
  }

  lemma {:induction false} MemberValueTook(text: Bytes)
    requires ReadMemberValue(text).Some?
    ensures TookValue(text, ReadMemberValue(text).value.1)
    decreases |text|, 1
  {
    hide SkipWhitespace, ReadValue, TookValue;
    ValueTook(SkipWhitespace(text)[1..]);
    TookPastByte(text, ReadMemberValue(text).value.1);
  }

  lemma {:induction false} ArrayTook(text: Bytes)
    requires ReadArray(text).Some?
    ensures TookValue(text, ReadArray(text).value.1)
    decreases |text|, 6
  {
    hide SkipWhitespace, ReadElements, TookValue;
    var t := SkipWhitespace(text);
    if t != [] && t[0] == RBRACKET {
      TookByte(text);
    } else {
      ElementsTook(text);
    }
  }

  lemma {:induction false} ElementsTook(t: Bytes)
    requires ReadElements(t).Some?
    ensures TookValue(t, ReadElements(t).value.1)
    decreases |t|, 5
  {
    hide ReadValue, ReadMoreElements;
    var z := ReadValue(t).value.1;
    ValueTook(t);
    MoreElementsTook(z);
    TookFromSuffix(t, z, ReadElements(t).value.1);
  }

  lemma {:induction false} MoreElementsTook(text: Bytes)
    requires ReadMoreElements(text).Some?
    ensures TookValue(text, ReadMoreElements(text).value.1)
    decreases |text|, 1
  {
    hide SkipWhitespace, ReadElements, TookValue;
    var t := SkipWhitespace(text);
    if t[0] == RBRACKET {
      TookByte(text);
    } else {
      ElementsTook(t[1..]);
      TookPastByte(text, ReadMoreElements(text).value.1);
    }
  }

  // ---- More text after a value does not change how it reads ----

  /** What may follow a number without becoming part of it. */
  predicate Stops(x: Bytes) {
    x == [] || x[0] == COMMA || x[0] == RBRACE || x[0] == RBRACKET
  }

  lemma {:induction false} SkipExtends(t: Bytes, x: Bytes)
    requires SkipWhitespace(t) != []
    ensures SkipWhitespace(t + x) == SkipWhitespace(t) + x
  {
    if Whitespace(t[0]) {
      SkipExtends(t[1..], x);
      assert (t + x)[1..] == t[1..] + x;
    } else {
      assert SkipWhitespace(t) == t;
    }
  }

  lemma {:induction false} DigitsExtend(t: Bytes, x: Bytes)
    requires Digits(t) < |t| || x == [] || !IsDigit(x[0])
    ensures Digits(t + x) == Digits(t)
  {
    if t == [] {
      assert t + x == x;
    } else if IsDigit(t[0]) {
      DigitsExtend(t[1..], x);
      assert (t + x)[1..] == t[1..] + x;
    }
  }

  lemma IntExtends(t: Bytes, x: Bytes)
    requires 0 < IntLength(t)
    requires IntLength(t) < |t| || Stops(x)
    ensures IntLength(t + x) == IntLength(t)
  {
    if t[0] != ZERO {
      DigitsExtend(t, x);
    }
  }

  lemma FracExtends(t: Bytes, x: Bytes)
    requires FracLength(t).Some?
    requires FracLength(t).value < |t| || Stops(x)
    ensures FracLength(t + x) == FracLength(t)
  {
    if t != [] && t[0] == DOT {
      DigitsExtend(t[1..], x);
      assert (t + x)[1..] == t[1..] + x;
    }
  }

  lemma ExpExtends(t: Bytes, x: Bytes)
    requires ExpLength(t).Some?
    requires ExpLength(t).value < |t| || Stops(x)
    ensures ExpLength(t + x) == ExpLength(t)
  {
    if t != [] && (t[0] == 0x65 || t[0] == 0x45) {
      var sign := if |t| > 1 && (t[1] == PLUS || t[1] == MINUS) then 1 else 0;
      DigitsExtend(t[1 + sign..], x);
      assert (t + x)[1 + sign..] == t[1 + sign..] + x;
    }
  }

  lemma NumberExtends(t: Bytes, x: Bytes)
    requires NumberLength(t).Some?
    requires NumberLength(t).value < |t| || Stops(x)
    ensures NumberLength(t + x) == NumberLength(t)
  {
    hide IntLength, FracLength, ExpLength, Stops, IsDigit;
    var m := if t[0] == MINUS then 1 else 0;
    var i := m + IntLength(t[m..]);
    var f := i + FracLength(t[i..]).value;
    assert (t + x)[m..] == t[m..] + x;
    assert (t + x)[i..] == t[i..] + x;
    assert (t + x)[f..] == t[f..] + x;
    IntExtends(t[m..], x);
    FracExtends(t[i..], x);
    ExpExtends(t[f..], x);
  }

  lemma ScalarExtends(t: Bytes, x: Bytes)
    requires t != [] && ReadScalar(t).Some?
    requires ReadScalar(t).value.1 != [] || Stops(x)
    ensures ReadScalar(t + x) == Some((ReadScalar(t).value.0, ReadScalar(t).value.1 + x))
  {
    hide NumberLength, ReadString;
    if t[0] == QUOTE {
      ReadStringExtends(t[1..], x);
      assert (t + x)[1..] == t[1..] + x;
    } else if t[0] in {TRUE_TEXT[0], FALSE_TEXT[0], NULL_TEXT[0]} {
      var n := |t| - |ReadScalar(t).value.1|;
      assert (t + x)[..n] == t[..n];
      assert (t + x)[n..] == t[n..] + x;
    } else {
      NumberExtends(t, x);
      var n := NumberLength(t).value;
      assert (t + x)[..n] == t[..n];
      assert (t + x)[n..] == t[n..] + x;
    }
  }

  lemma {:induction false} ValueExtends(text: Bytes, x: Bytes)
    requires ReadValue(text).Some?
    requires ReadValue(text).value.1 != [] || Stops(x)
    ensures ReadValue(text + x) == Some((ReadValue(text).value.0, ReadValue(text).value.1 + x))
    decreases |text|, 3
  {
    hide SkipWhitespace, ReadScalar, ReadObject, ReadArray;
    var t := SkipWhitespace(text);
    SkipExtends(text, x);
    assert (t + x)[1..] == t[1..] + x;
    if t[0] == LBRACE {
      ObjectExtends(t[1..], x);
    } else if t[0] == LBRACKET {
      ArrayExtends(t[1..], x);
    } else {
      ScalarExtends(t, x);
    }
  }

  lemma {:induction false} ObjectExtends(text: Bytes, x: Bytes)
    requires ReadObject(text).Some?
    ensures ReadObject(text + x) == Some((ReadObject(text).value.0, ReadObject(text).value.1 + x))
    decreases |text|, 3
  {
    hide SkipWhitespace, ReadMembers;
    var t := SkipWhitespace(text);
    assert t != [] by { SomethingToRead(text); }
    SkipExtends(text, x);
    if t[0] == RBRACE {
      assert (t + x)[1..] == t[1..] + x;
    } else {
      MembersExtend(text, x);
    }
  }

  lemma SomethingToRead(text: Bytes)
    ensures ReadMembers(text).Some? || ReadElements(text).Some? ==> SkipWhitespace(text) != []
  {
    hide SkipWhitespace, ReadString, ReadMemberValue, ReadMoreMembers, ReadMoreElements;
    if SkipWhitespace(text) == [] {
      assert ReadMember(text).None? && ReadValue(text).None?;
    }
  }

  lemma {:induction false} MembersExtend(t: Bytes, x: Bytes)
    requires ReadMembers(t).Some?
    ensures ReadMembers(t + x) == Some((ReadMembers(t).value.0, ReadMembers(t).value.1 + x))
    decreases |t|, 2
  {
    hide SkipWhitespace, ReadMember, ReadMoreMembers;
    MemberExtends(t, x);
    MoreMembersExtend(ReadMember(t).value.1, x);
  }

  lemma {:induction false} MoreMembersExtend(text: Bytes, x: Bytes)
    requires ReadMoreMembers(text).Some?
    ensures ReadMoreMembers(text + x) == Some((ReadMoreMembers(text).value.0, ReadMoreMembers(text).value.1 + x))
    decreases |text|, 1
  {
    hide SkipWhitespace, ReadMembers;
    var t := SkipWhitespace(text);
    SkipExtends(text, x);
    assert (t + x)[1..] == t[1..] + x;
    if t[0] == COMMA {
      MembersExtend(t[1..], x);
    }
  }

  lemma {:induction false} MemberExtends(text: Bytes, x: Bytes)
    requires ReadMember(text).Some?
    requires ReadMember(text).value.1 != []
    ensures ReadMember(text + x) == Some((ReadMember(text).value.0, ReadMember(text).value.1 + x))
    decreases |text|, 1
  {
    hide SkipWhitespace, ReadString, ReadMemberValue;
    var t := SkipWhitespace(text);
    SkipExtends(text, x);
    assert (t + x)[1..] == t[1..] + x;
    ReadStringExtends(t[1..], x);
    MemberValueExtends(ReadString(t[1..]).value.1, x);
  }

  lemma {:induction false} MemberValueExtends(text: Bytes, x: Bytes)
    requires ReadMemberValue(text).Some?
    requires ReadMemberValue(text).value.1 != []
    ensures ReadMemberValue(text + x) ==
            Some((ReadMemberValue(text).value.0, ReadMemberValue(text).value.1 + x))
    decreases |text|, 1
  {
    hide SkipWhitespace, ReadValue;
    var t := SkipWhitespace(text);
    SkipExtends(text, x);
    assert (t + x)[1..] == t[1..] + x;
    ValueExtends(t[1..], x);
  }

  lemma {:induction false} ArrayExtends(text: Bytes, x: Bytes)
    requires ReadArray(text).Some?
    ensures ReadArray(text + x) == Some((ReadArray(text).value.0, ReadArray(text).value.1 + x))
    decreases |text|, 5
  {
    hide SkipWhitespace, ReadElements;
    var t := SkipWhitespace(text);
    assert t != [] by { SomethingToRead(text); }
    SkipExtends(text, x);
    if t[0] == RBRACKET {
      assert (t + x)[1..] == t[1..] + x;
    } else {
      ElementsExtend(text, x);
    }
  }

  lemma {:induction false} ElementsExtend(t: Bytes, x: Bytes)
    requires ReadElements(t).Some?
    ensures ReadElements(t + x) == Some((ReadElements(t).value.0, ReadElements(t).value.1 + x))
    decreases |t|, 4
  {
    hide SkipWhitespace, ReadValue, ReadMoreElements;
    var v := ReadValue(t).value;
    assert v.1 != [];
    ValueExtends(t, x);
    MoreElementsExtend(v.1, x);
  }

  lemma {:induction false} MoreElementsExtend(text: Bytes, x: Bytes)
    requires ReadMoreElements(text).Some?
    ensures ReadMoreElements(text + x) ==
            Some((ReadMoreElements(text).value.0, ReadMoreElements(text).value.1 + x))
    decreases |text|, 1
  {
    hide SkipWhitespace, ReadElements;
    var t := SkipWhitespace(text);
    SkipExtends(text, x);
    assert (t + x)[1..] == t[1..] + x;
    if t[0] == COMMA {
      ElementsExtend(t[1..], x);
    }
  }
}
