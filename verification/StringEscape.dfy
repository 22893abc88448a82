/**
 The JSON string escaper (`safeAppendStringLike`) and, as its independent partner,
 a string reader written from section 7 of RFC 8259.
 */
module StringEscape {
  import opened Utf8

  const QUOTE: Byte := 0x22
  const BACKSLASH: Byte := 0x5C
  const LOWER_U: Byte := 0x75
  const ZERO: Byte := 0x30

  /** The entries of Go's `_hex` table. */
  function HexDigit(n: nat): (b: Byte)
    requires n < 16
  {
    if n < 10 then ZERO + n else 0x61 + (n - 10)
  }

  /** The six characters `\ufffd`. */
  const REPLACEMENT_ESCAPE: Bytes := [BACKSLASH, LOWER_U, 0x66, 0x66, 0x66, 0x64]

  /** Bytes below RuneSelf that are copied as they are. */
  predicate Plain(b: Byte) {
    0x20 <= b < RUNE_SELF && b != BACKSLASH && b != QUOTE
  }

  /** How one byte below RuneSelf that is not plain is written. */
  function EscapeSpecial(b: Byte): (r: Bytes) {
    if b == BACKSLASH || b == QUOTE then [BACKSLASH, b]
    else if b == 0x0A then [BACKSLASH, 0x6E]
    else if b == 0x0D then [BACKSLASH, 0x72]
    else if b == 0x09 then [BACKSLASH, 0x74]
    else [BACKSLASH, LOWER_U, ZERO, ZERO, HexDigit(b / 16), HexDigit(b % 16)]
  }

  /** Width of the unit at the front of `s`: a whole accepted rune, or one byte. */
  function UnitWidth(s: Bytes): (n: nat)
    requires s != []
    ensures 1 <= n <= |s|
  {
    if Rejected(s) then 1 else DecodeRune(s).1
  }

  /** How the unit at the front of `s` is written. */
  function EscapeUnit(s: Bytes): (r: Bytes)
    requires s != []
  {
    if s[0] >= RUNE_SELF then
      if Rejected(s) then REPLACEMENT_ESCAPE else s[..DecodeRune(s).1]
    else if Plain(s[0]) then [s[0]]
    else EscapeSpecial(s[0])
  }

  /** Unit-by-unit escaping, with no bulk copies. */
  function Escape(s: Bytes): (r: Bytes) {
    if s == [] then [] else EscapeUnit(s) + Escape(s[UnitWidth(s)..])
  }

  /**
   Loop invariant of the bulk-copying escaper: what is in the buffer, then the bytes
   skipped over since `last`, then the rest escaped, make up the whole result.
   */
  ghost predicate Pending(whole: Bytes, out: Bytes, s: Bytes, last: nat, i: nat) {
    last <= i <= |s| && whole == out + s[last..i] + Escape(s[i..])
  }

  lemma EscapeAt(s: Bytes, i: nat)
    requires i < |s|
    ensures Escape(s[i..]) == EscapeUnit(s[i..]) + Escape(s[i + UnitWidth(s[i..])..])
  {
    var n := UnitWidth(s[i..]);
    assert s[i..][n..] == s[i + n..];
  }

  lemma SkipUnit(whole: Bytes, out: Bytes, s: Bytes, last: nat, i: nat)
    requires Pending(whole, out, s, last, i) && i < |s|
    requires EscapeUnit(s[i..]) == s[i..][..UnitWidth(s[i..])]
    ensures Pending(whole, out, s, last, i + UnitWidth(s[i..]))
  {
    hide Escape, EscapeUnit, UnitWidth;
    EscapeAt(s, i);
    var n := UnitWidth(s[i..]);
    assert s[last..i + n] == s[last..i] + s[i..][..n];
  }

  lemma EmitUnit(whole: Bytes, out: Bytes, s: Bytes, last: nat, i: nat)
    requires Pending(whole, out, s, last, i) && i < |s|
    ensures var j := i + UnitWidth(s[i..]); Pending(whole, out + s[last..i] + EscapeUnit(s[i..]), s, j, j)
  {
    hide Escape, EscapeUnit, UnitWidth;
    EscapeAt(s, i);
  }

  /**
   The bulk-copying loop: units that need no change are skipped over and copied
   together, from `last`, when one that does turns up.
   */
  method SafeAppendStringLike(buf: Bytes, s: Bytes) returns (out: Bytes)
    ensures out == buf + Escape(s)
  {
    hide Escape, SecondOk, EscapeSpecial;
    out := buf;
    var last, i := 0, 0;
    assert s[0..] == s;
    while i < |s|
      invariant Pending(buf + Escape(s), out, s, last, i)
    {
      if s[i] >= RUNE_SELF {
        var (r, size) := DecodeRune(s[i..]);
        if r != RUNE_ERROR || size != 1 {
          SkipUnit(buf + Escape(s), out, s, last, i);
          i := i + size;
          continue;
        }
        EmitUnit(buf + Escape(s), out, s, last, i);
        out := out + s[last..i];
        out := out + REPLACEMENT_ESCAPE;
        i := i + 1;
        last := i;
      } else {
        if s[i] >= 0x20 && s[i] != BACKSLASH && s[i] != QUOTE {
          SkipUnit(buf + Escape(s), out, s, last, i);
          i := i + 1;
          continue;
        }
        EmitUnit(buf + Escape(s), out, s, last, i);
        out := out + s[last..i];
        out := AppendSpecial(out, s[i]);
        i := i + 1;
        last := i;
      }
    }
    assert Escape(s[i..]) == [] by { EscapeNothing(s[i..]); }
    out := out + s[last..];
  }

  lemma EscapeNothing(s: Bytes)
    requires s == []
    ensures Escape(s) == []
  {
  }

  /** The switch on a byte that needs escaping. */
  method AppendSpecial(buf: Bytes, b: Byte) returns (out: Bytes)
    ensures out == buf + EscapeSpecial(b)
  {
    if b == BACKSLASH || b == QUOTE {
      out := buf + [BACKSLASH] + [b];
    } else if b == 0x0A {
      out := buf + [BACKSLASH] + [0x6E];
    } else if b == 0x0D {
      out := buf + [BACKSLASH] + [0x72];
    } else if b == 0x09 {
      out := buf + [BACKSLASH] + [0x74];
    } else {
      out := buf + [BACKSLASH, LOWER_U, ZERO, ZERO];
      out := out + [HexDigit(b / 16)] + [HexDigit(b % 16)];
    }
  }

  // ---- Reading strings back: section 7 of RFC 8259 ----

  function HexValue(b: Byte): (v: Option<nat>)
    ensures v.Some? ==> v.value < 16
  {
    if 0x30 <= b <= 0x39 then Some(b - 0x30)
    else if 0x41 <= b <= 0x46 then Some(b - 0x41 + 10)
    else if 0x61 <= b <= 0x66 then Some(b - 0x61 + 10)
    else None
  }

  /** The code unit of four hexadecimal digits at the front of `t`. */
  function Hex4(t: Bytes): (v: Option<nat>)
    ensures v.Some? ==> |t| >= 4 && v.value < 0x10000
  {
    if |t| < 4 then None
    else
      match (HexValue(t[0]), HexValue(t[1]), HexValue(t[2]), HexValue(t[3]))
      case (Some(a), Some(b), Some(c), Some(d)) => Some(a * 4096 + b * 256 + c * 16 + d)
      case _ => None
  }

  /** The two-character escapes other than `\u`. */
  function SimpleEscape(b: Byte): (r: Option<Byte>) {
    match b
    case 0x22 => Some(0x22)
    case 0x5C => Some(0x5C)
    case 0x2F => Some(0x2F)
    case 0x62 => Some(0x08)
    case 0x66 => Some(0x0C)
    case 0x6E => Some(0x0A)
    case 0x72 => Some(0x0D)
    case 0x74 => Some(0x09)
    case _ => None
  }

  /**
   An escape sequence, `t` starting just after the backslash: the UTF-8 it stands
   for and how many bytes of `t` it takes. Code points above U+FFFF are written as a
   surrogate pair; a surrogate on its own is refused.
   */
  function ReadEscape(t: Bytes): (r: Option<(Bytes, nat)>)
    ensures r.Some? ==> 1 <= r.value.1 <= |t|
  {
    if t == [] then None
    else if t[0] != LOWER_U then
      var e := SimpleEscape(t[0]);
      if e.None? then None else Some(([e.value], 1))
    else
      var u := Hex4(t[1..]);
      if u.None? then None
      else if ScalarValue(u.value) then Some((EncodeRune(u.value), 5))
      else if u.value < 0xDC00 && |t| >= 11 && t[5] == BACKSLASH && t[6] == LOWER_U then
        var l := Hex4(t[7..]);
        if l.Some? && 0xDC00 <= l.value <= 0xDFFF then
          Some((EncodeRune(0x10000 + (u.value - 0xD800) * 1024 + (l.value - 0xDC00)), 11))
        else None
      else None
  }

  /**
   One character of a string literal, raw or escaped: the UTF-8 it stands for and how
   many bytes of `t` it takes. Raw control bytes and ill-formed UTF-8 are refused.
   */
  function ReadUnit(t: Bytes): (r: Option<(Bytes, nat)>)
    ensures r.Some? ==> 1 <= r.value.1 <= |t|
  {
    if t == [] then None
    else if t[0] == BACKSLASH then
      var e := ReadEscape(t[1..]);
      if e.None? then None else Some((e.value.0, 1 + e.value.1))
    else if t[0] < 0x20 || Rejected(t) then None
    else Some((t[..DecodeRune(t).1], DecodeRune(t).1))
  }

  /**
   The contents of a string literal and what follows it, `t` starting just after the
   opening quote.
   */
  function ReadString(t: Bytes): (r: Option<(Bytes, Bytes)>)
    ensures r.Some? ==> |r.value.1| < |t|
  {
    if t == [] then None
    else if t[0] == QUOTE then Some(([], t[1..]))
    else
      var u := ReadUnit(t);
      if u.None? then None
      else
        var rest := ReadString(t[u.value.1..]);
        if rest.None? then None else Some((u.value.0 + rest.value.0, rest.value.1))
  }

  lemma ReadUnicodeEscape(v: nat, t: Bytes)
    requires v < 0x80 || v == RUNE_ERROR
    requires |t| >= 5 && t[0] == LOWER_U && Hex4(t[1..]) == Some(v)
    ensures ReadEscape(t) == Some((if v == RUNE_ERROR then REPLACEMENT else [v], 5))
  {
    hide Hex4;
  }

  /** What the escaped form of one byte reads back as. */
  lemma ReadEscapedByte(b: Byte, x: Bytes)
    requires b < RUNE_SELF && !Plain(b)
    ensures ReadUnit(EscapeSpecial(b) + x) == Some(([b], |EscapeSpecial(b)|))
  {
    var u := EscapeSpecial(b);
    var t := (u + x)[1..];
    if |u| == 6 {
      assert t[1..][..4] == [ZERO, ZERO, HexDigit(b / 16), HexDigit(b % 16)];
      assert Hex4(t[1..]) == Some(b);
      ReadUnicodeEscape(b, t);
    }
  }

  /** What the escaped form of one unit reads back as. */
  lemma ReadEscapedUnit(s: Bytes, x: Bytes)
    requires s != []
    ensures var u := EscapeUnit(s);
            && ReadUnit(u + x) == Some((if Rejected(s) then REPLACEMENT else s[..UnitWidth(s)], |u|))
            && u != [] && u[0] != QUOTE
  {
    hide ReadEscape;
    var t := EscapeUnit(s) + x;
    if s[0] < RUNE_SELF {
      assert s[..1] == [s[0]];
      if !Plain(s[0]) {
        ReadEscapedByte(s[0], x);
      }
    } else if Rejected(s) {
      assert t[1..][1..][..4] == [0x66, 0x66, 0x66, 0x64];
      ReadUnicodeEscape(RUNE_ERROR, t[1..]);
    } else {
      var n := DecodeRune(s).1;
      AcceptedPrefix(s);
      DecodeExtends(s[..n], x);
    }
  }

  /**
   Reading the escaped text, closed by a quote, gives the input with every rejected
   byte replaced, and stops at that quote: the escaped text holds no bare quote and
   nothing a reader must refuse.
   */
  lemma {:induction false} ReadEscaped(s: Bytes, x: Bytes)
    ensures ReadString(Escape(s) + [QUOTE] + x) == Some((Sanitize(s), x))
  {
    if s == [] {
      assert Escape(s) + [QUOTE] + x == [QUOTE] + x;
    } else {
      var n := UnitWidth(s);
      var tail := Escape(s[n..]) + [QUOTE] + x;
      assert Escape(s) + [QUOTE] + x == EscapeUnit(s) + tail;
      assert ReadString(tail) == Some((Sanitize(s[n..]), x)) by { ReadEscaped(s[n..], x); }
      ReadEscapedUnit(s, tail);
      assert (EscapeUnit(s) + tail)[|EscapeUnit(s)|..] == tail;
    }
  }

  /** Valid UTF-8 makes the round trip unchanged, and nothing else does. */
  lemma EscapeRoundTrip(s: Bytes, x: Bytes)
    ensures ReadString(Escape(s) + [QUOTE] + x) == Some((s, x)) <==> ValidUtf8(s)
  {
    ReadEscaped(s, x);
    SanitizeFixesValid(s);
  }

  /** No control byte is ever written. */
  lemma {:induction false} EscapeHasNoControl(s: Bytes)
    ensures forall b :: b in Escape(s) ==> b >= 0x20
  {
    if s != [] {
      EscapeHasNoControl(s[UnitWidth(s)..]);
    }
  }

  /** What has been read does not change when more text follows. */
  lemma {:induction false} ReadStringExtends(t: Bytes, x: Bytes)
    requires ReadString(t).Some?
    ensures ReadString(t + x) == Some((ReadString(t).value.0, ReadString(t).value.1 + x))
  {
    hide ReadUnit;
    if t[0] == QUOTE {
      assert (t + x)[1..] == t[1..] + x;
    } else {
      var n := ReadUnit(t).value.1;
      ReadUnitExtends(t, x);
      ReadStringExtends(t[n..], x);
      assert (t + x)[n..] == t[n..] + x;
    }
  }

  lemma ReadUnitExtends(t: Bytes, x: Bytes)
    requires ReadUnit(t).Some?
    ensures ReadUnit(t + x) == ReadUnit(t)
  {
    if t[0] == BACKSLASH {
      assert (t + x)[1..] == t[1..] + x;
      ReadEscapeExtends(t[1..], x);
    } else {
      DecodeExtends(t, x);
      assert (t + x)[..DecodeRune(t).1] == t[..DecodeRune(t).1];
    }
  }

  lemma Hex4Extends(t: Bytes, x: Bytes)
    requires |t| >= 4
    ensures Hex4(t + x) == Hex4(t)
  {
  }

  lemma ReadEscapeExtends(t: Bytes, x: Bytes)
    requires ReadEscape(t).Some?
    ensures ReadEscape(t + x) == ReadEscape(t)
  {
    hide Hex4, EncodeRune;
    if t[0] == LOWER_U {
      assert (t + x)[1..] == t[1..] + x;
      Hex4Extends(t[1..], x);
      if |t| >= 11 {
        assert (t + x)[7..] == t[7..] + x;
        Hex4Extends(t[7..], x);
      }
    }
  }
}
