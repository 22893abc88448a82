/**
 Bytes, and the UTF-8 rules of section 4 of RFC 3629 as Go's `utf8.DecodeRune`
 applies them: an ill-formed byte decodes as U+FFFD with width one.
 */
module Utf8 {

  datatype Option<+T> = None | Some(value: T)

  type Byte = b: int | 0 <= b < 256
  type Bytes = seq<Byte>

  const RUNE_SELF: Byte := 0x80
  const RUNE_ERROR: nat := 0xFFFD

  /** U+FFFD in UTF-8. */
  const REPLACEMENT: Bytes := [0xEF, 0xBF, 0xBD]

  predicate Continuation(b: Byte) {
    0x80 <= b <= 0xBF
  }

  /** The bytes allowed after lead byte `b0` (the four special rows of the RFC's table). */
  predicate SecondOk(b0: Byte, b1: Byte) {
    && Continuation(b1)
    && (b0 == 0xE0 ==> 0xA0 <= b1)
    && (b0 == 0xED ==> b1 <= 0x9F)
    && (b0 == 0xF0 ==> 0x90 <= b1)
    && (b0 == 0xF4 ==> b1 <= 0x8F)
  }

  /** The payload bits of a byte once its marker bits `base` are taken off. */
  function Bits(b: Byte, base: Byte): (n: nat)
    requires base <= b
  {
    b - base
  }

  /** Code point and width of the first rune of `s`, as `utf8.DecodeRune` returns them. */
  function DecodeRune(s: Bytes): (r: (nat, nat))
    ensures r.1 <= |s|
    ensures s != [] ==> 1 <= r.1
  {
    if |s| == 0 then (RUNE_ERROR, 0)
    else if s[0] < RUNE_SELF then (s[0], 1)
    else if 0xC2 <= s[0] <= 0xDF && |s| >= 2 && SecondOk(s[0], s[1]) then
      (Bits(s[0], 0xC0) * 64 + Bits(s[1], 0x80), 2)
    else if 0xE0 <= s[0] <= 0xEF && |s| >= 3 && SecondOk(s[0], s[1]) && Continuation(s[2]) then
      (Bits(s[0], 0xE0) * 4096 + Bits(s[1], 0x80) * 64 + Bits(s[2], 0x80), 3)
    else if 0xF0 <= s[0] <= 0xF4 && |s| >= 4 && SecondOk(s[0], s[1]) && Continuation(s[2]) && Continuation(s[3]) then
      (Bits(s[0], 0xF0) * 262144 + Bits(s[1], 0x80) * 4096 + Bits(s[2], 0x80) * 64 + Bits(s[3], 0x80), 4)
    else (RUNE_ERROR, 1)
  }

  /** The test the escaper makes: `r == utf8.RuneError && size == 1`. */
  predicate Rejected(s: Bytes) {
    DecodeRune(s) == (RUNE_ERROR, 1)
  }

  /** Unicode scalar values: what UTF-8 can carry. */
  predicate ScalarValue(r: nat) {
    r <= 0x10FFFF && !(0xD800 <= r <= 0xDFFF)
  }

  function EncodeRune(r: nat): (s: Bytes)
    requires r <= 0x10FFFF
  {
    if r < 0x80 then [r]
    else if r < 0x800 then [0xC0 + r / 64, 0x80 + r % 64]
    else if r < 0x10000 then [0xE0 + r / 64 / 64, 0x80 + r / 64 % 64, 0x80 + r % 64]
    else [0xF0 + r / 64 / 64 / 64, 0x80 + r / 64 / 64 % 64, 0x80 + r / 64 % 64, 0x80 + r % 64]
  }

  /** A string every byte of which belongs to a rune that `DecodeRune` accepts. */
  predicate ValidUtf8(s: Bytes) {
    s == [] || (!Rejected(s) && ValidUtf8(s[DecodeRune(s).1..]))
  }

  /** Every rejected byte replaced by U+FFFD, everything else kept. */
  function Sanitize(s: Bytes): (r: Bytes) {
    if s == [] then []
    else if Rejected(s) then REPLACEMENT + Sanitize(s[1..])
    else s[..DecodeRune(s).1] + Sanitize(s[DecodeRune(s).1..])
  }

  lemma EncodeOne(a: nat)
    requires a < 0x80
    ensures EncodeRune(a) == [a]
  {
  }

  lemma EncodeTwo(a: nat, b: nat)
    requires 2 <= a < 32 && b < 64
    ensures EncodeRune(a * 64 + b) == [0xC0 + a, 0x80 + b]
  {
    assert (a * 64 + b) / 64 == a;
  }

  lemma EncodeThree(a: nat, b: nat, c: nat)
    requires a < 16 && b < 64 && c < 64 && (a == 0 ==> b >= 32)
    ensures EncodeRune(a * 4096 + b * 64 + c) == [0xE0 + a, 0x80 + b, 0x80 + c]
  {
    var r := a * 4096 + b * 64 + c;
    assert r / 64 == a * 64 + b;
  }

  lemma EncodeFour(a: nat, b: nat, c: nat, d: nat)
    requires b < 64 && c < 64 && d < 64 && (a == 0 ==> b >= 16)
    requires a * 262144 + b * 4096 + c * 64 + d <= 0x10FFFF
    ensures a < 5
    ensures EncodeRune(a * 262144 + b * 4096 + c * 64 + d) == [0xF0 + a, 0x80 + b, 0x80 + c, 0x80 + d]
  {
    var r := a * 262144 + b * 4096 + c * 64 + d;
    assert r / 64 == a * 4096 + b * 64 + c;
    assert r / 64 / 64 == a * 64 + b;
  }

  /** Decoding accepts exactly the encodings of scalar values. */
  lemma DecodeIsInverseOfEncode(s: Bytes)
    requires s != [] && !Rejected(s)
    ensures ScalarValue(DecodeRune(s).0)
    ensures EncodeRune(DecodeRune(s).0) == s[..DecodeRune(s).1]
  {
    hide EncodeRune;
    var n := DecodeRune(s).1;
    if n == 1 {
      EncodeOne(s[0]);
    } else if n == 2 {
      EncodeTwo(Bits(s[0], 0xC0), Bits(s[1], 0x80));
    } else if n == 3 {
      EncodeThree(Bits(s[0], 0xE0), Bits(s[1], 0x80), Bits(s[2], 0x80));
    } else if n == 4 {
      EncodeFour(Bits(s[0], 0xF0), Bits(s[1], 0x80), Bits(s[2], 0x80), Bits(s[3], 0x80));
    }
  }

  lemma ThreeDecodes(r: nat)
    requires ScalarValue(r) && 0x800 <= r < 0x10000
    ensures DecodeRune(EncodeRune(r)) == (r, 3)
  {
    var e := EncodeRune(r);
    var q := r / 64;
    assert r == q * 64 + r % 64 && q == q / 64 * 64 + q % 64;
    assert SecondOk(e[0], e[1]);
  }

  lemma FourDecodes(r: nat)
    requires 0x10000 <= r <= 0x10FFFF
    ensures DecodeRune(EncodeRune(r)) == (r, 4)
  {
    var e := EncodeRune(r);
    var q := r / 64;
    var p := q / 64;
    assert r == q * 64 + r % 64 && q == p * 64 + q % 64 && p == p / 64 * 64 + p % 64;
    assert SecondOk(e[0], e[1]);
  }

  /** Every scalar value is accepted in its encoded form, whatever follows. */
  lemma EncodeDecodes(r: nat, x: Bytes)
    requires ScalarValue(r)
    ensures DecodeRune(EncodeRune(r) + x) == (r, |EncodeRune(r)|)
  {
    if 0x800 <= r < 0x10000 {
      ThreeDecodes(r);
    } else if 0x10000 <= r {
      FourDecodes(r);
    }
    DecodeExtends(EncodeRune(r), x);
  }

  /** Accepting a rune does not depend on what follows it. */
  lemma DecodeExtends(s: Bytes, x: Bytes)
    requires s != [] && !Rejected(s)
    ensures DecodeRune(s + x) == DecodeRune(s)
  {
  }

  lemma {:induction false} SanitizeIsValid(s: Bytes)
    ensures ValidUtf8(Sanitize(s))
  {
    if s != [] {
      var head := if Rejected(s) then REPLACEMENT else s[..DecodeRune(s).1];
      var tail := if Rejected(s) then s[1..] else s[DecodeRune(s).1..];
      SanitizeIsValid(tail);
      DecodeExtends(head, Sanitize(tail));
      assert Sanitize(s)[|head|..] == Sanitize(tail);
    }
  }

  /** Exactly the valid strings survive unchanged. */
  lemma {:induction false} SanitizeFixesValid(s: Bytes)
    ensures Sanitize(s) == s <==> ValidUtf8(s)
  {
    SanitizeIsValid(s);
    if ValidUtf8(s) {
      SanitizeKeepsValid(s);
    }
  }

  lemma {:induction false} SanitizeKeepsValid(s: Bytes)
    requires ValidUtf8(s)
    ensures Sanitize(s) == s
  {
    if s != [] {
      SanitizeKeepsValid(s[DecodeRune(s).1..]);
    }
  }

  /** What ranging over a string yields: U+FFFD for each rejected byte. */
  function Runes(s: Bytes): (r: seq<nat>) {
    if s == [] then [] else [DecodeRune(s).0] + Runes(s[DecodeRune(s).1..])
  }

  lemma ReplacementRune()
    ensures DecodeRune(REPLACEMENT) == (RUNE_ERROR, 3)
  {
  }

  lemma AcceptedPrefix(s: Bytes)
    requires s != [] && !Rejected(s)
    ensures DecodeRune(s[..DecodeRune(s).1]) == DecodeRune(s)
  {
  }

  lemma RunesHead(head: Bytes, tail: Bytes)
    requires head != [] && !Rejected(head) && DecodeRune(head).1 == |head|
    ensures Runes(head + tail) == [DecodeRune(head).0] + Runes(tail)
  {
    DecodeExtends(head, tail);
    hide DecodeRune;
    assert (head + tail)[|head|..] == tail;
  }

  /** Sanitizing changes no rune: each rejected byte becomes the one rune it is read as anyway. */
  lemma {:induction false} SanitizeKeepsRunes(s: Bytes)
    ensures Runes(Sanitize(s)) == Runes(s)
  {
    if s != [] {
      hide DecodeRune;
      if Rejected(s) {
        ReplacementRune();
        SanitizeKeepsRunes(s[1..]);
        RunesHead(REPLACEMENT, Sanitize(s[1..]));
      } else {
        AcceptedPrefix(s);
        SanitizeKeepsRunes(s[DecodeRune(s).1..]);
        RunesHead(s[..DecodeRune(s).1], Sanitize(s[DecodeRune(s).1..]));
      }
    }
  }

  /** There is one valid text for given runes, so that validity and runes say all about what sanitizing gives. */
  lemma {:induction false} RunesTellValidText(a: Bytes, b: Bytes)
    requires ValidUtf8(a) && ValidUtf8(b) && Runes(a) == Runes(b)
    ensures a == b
  {
    if a != [] && b != [] {
      hide DecodeRune, EncodeRune;
      DecodeIsInverseOfEncode(a);
      DecodeIsInverseOfEncode(b);
      assert Runes(a)[0] == DecodeRune(a).0 && Runes(b)[0] == DecodeRune(b).0;
      assert Runes(a)[1..] == Runes(a[DecodeRune(a).1..]) && Runes(b)[1..] == Runes(b[DecodeRune(b).1..]);
      RunesTellValidText(a[DecodeRune(a).1..], b[DecodeRune(b).1..]);
      assert a == a[..DecodeRune(a).1] + a[DecodeRune(a).1..];
      assert b == b[..DecodeRune(b).1] + b[DecodeRune(b).1..];
    }
  }
}
