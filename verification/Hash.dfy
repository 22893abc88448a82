/**
 The hash that gives each message its sampling counter.
 */
module Hash {
  import opened Utf8

  const COUNTERS_PER_LEVEL := 4096

  const OFFSET32: bv32 := 2166136261
  const PRIME32: bv32 := 16777619

  /** A byte as a machine word. */
  function Octet(b: nat): (r: bv8)
    requires b < 256
  {
    b as bv8
  }

  function Mix(h: bv32, b: Byte): (r: bv32) {
    h ^ (Octet(b) as bv32)
  }

  function Scale(h: bv32): (r: bv32) {
    h * PRIME32
  }

  /** The FNV-1a hash with 32-bit wrap-around. */
  function Fnv(h: bv32, s: Bytes): (r: bv32)
    decreases |s|
  {
    if s == [] then h else Fnv(Scale(Mix(h, s[0])), s[1..])
  }

  method Fnv32a(s: Bytes) returns (hash: bv32)
    ensures hash == Fnv(OFFSET32, s)
  {
    hide Mix, Scale;
    hash := OFFSET32;
    assert s[0..] == s;
    for i := 0 to |s|
      invariant Fnv(OFFSET32, s) == Fnv(hash, s[i..])
    {
      assert s[i..][1..] == s[i + 1..];
      hash := Mix(hash, s[i]);
      hash := Scale(hash);
    }
  }

  /** The hash modulo the number of counters. */
  function SlotOf(hash: bv32): (j: nat)
    ensures j < COUNTERS_PER_LEVEL
  {
    Number(hash % 4096)
  }

  function Number(x: bv32): (n: nat) {
    x as nat
  }

  function Slot(message: Bytes): (j: nat)
    ensures j < COUNTERS_PER_LEVEL
  {
    SlotOf(Fnv(OFFSET32, message))
  }

  // ---- Published values ----

  /** One byte of FNV-1a. */
  lemma FnvStep(h: bv32, b: Byte, s: Bytes)
    ensures Fnv(h, [b] + s) == Fnv(Scale(Mix(h, b)), s)
  {
    hide Mix, Scale;
    assert ([b] + s)[1..] == s;
  }

  lemma Letters()
    ensures Octet(0x61) == 0x61 && Octet(0x62) == 0x62 && Octet(0x66) == 0x66
    ensures Octet(0x6F) == 0x6F && Octet(0x72) == 0x72
  {
  }

  /** The values published for the empty message, "a" and "foobar". */
  lemma PublishedValues()
    ensures Fnv(OFFSET32, []) == 0x811C9DC5
    ensures Fnv(OFFSET32, [0x61]) == 0xE40C292C
    ensures Fnv(OFFSET32, [0x66, 0x6F, 0x6F, 0x62, 0x61, 0x72]) == 0xBF9CF968
    ensures Slot([0x61]) == 0x92C && Slot([]) == 0xDC5
  {
    hide Fnv;
    NothingHashed();
    Letters();
    FnvStep(OFFSET32, 0x61, []);
    var h1 := Scale(Mix(OFFSET32, 0x66));
    FnvStep(OFFSET32, 0x66, [0x6F, 0x6F, 0x62, 0x61, 0x72]);
    var h2 := Scale(Mix(h1, 0x6F));
    FnvStep(h1, 0x6F, [0x6F, 0x62, 0x61, 0x72]);
    var h3 := Scale(Mix(h2, 0x6F));
    FnvStep(h2, 0x6F, [0x62, 0x61, 0x72]);
    var h4 := Scale(Mix(h3, 0x62));
    FnvStep(h3, 0x62, [0x61, 0x72]);
    var h5 := Scale(Mix(h4, 0x61));
    FnvStep(h4, 0x61, [0x72]);
    FnvStep(h5, 0x72, []);
    assert [0x61] + [] == [0x61] && [0x72] + [] == [0x72];
    assert [0x61] + [0x72] == [0x61, 0x72] && [0x62] + [0x61, 0x72] == [0x62, 0x61, 0x72];
    assert [0x6F] + [0x62, 0x61, 0x72] == [0x6F, 0x62, 0x61, 0x72];
    assert [0x6F] + [0x6F, 0x62, 0x61, 0x72] == [0x6F, 0x6F, 0x62, 0x61, 0x72];
    assert [0x66] + [0x6F, 0x6F, 0x62, 0x61, 0x72] == [0x66, 0x6F, 0x6F, 0x62, 0x61, 0x72];
  }

  lemma NothingHashed()
    ensures forall h :: Fnv(h, []) == h
  {
  }

  // ---- Messages that never share a counter ----

  function OctetValue(r: bv8): (n: nat) {
    r as nat
  }

  lemma OctetComesBack(b: nat)
    requires b < 256
    ensures OctetValue(b as bv8) == b
  {
  }

  lemma OctetsDiffer(b: Byte, c: Byte)
    requires b != c
    ensures Octet(b) != Octet(c)
  {
    hide OctetValue;
    OctetComesBack(b);
    OctetComesBack(c);
  }

  function Word(n: nat): (x: bv32)
    requires n < 0x1_0000_0000
  {
    n as bv32
  }

  lemma WordComesBack(x: bv32)
    ensures Number(x) < 0x1_0000_0000 && Word(Number(x)) == x
  {
  }

  lemma NumbersDiffer(x: bv32, y: bv32)
    requires x != y
    ensures Number(x) != Number(y)
  {
    hide Number, Word;
    WordComesBack(x);
    WordComesBack(y);
  }

  /** Two hashes differ in the bits that choose the counter. */
  predicate Apart(h: bv32, g: bv32) {
    h % 4096 != g % 4096
  }

  /** Different bytes set hashes apart, and the same byte and the odd prime keep them apart. */
  lemma MixSetsApart(h: bv32, x: bv8, y: bv8)
    requires x != y
    ensures Apart(h ^ (x as bv32), h ^ (y as bv32))
  {
  }

  lemma MixKeepsApart(h: bv32, g: bv32, x: bv8)
    requires Apart(h, g)
    ensures Apart(h ^ (x as bv32), g ^ (x as bv32))
  {
  }

  lemma ScaleKeepsApart(h: bv32, g: bv32)
    requires Apart(h, g)
    ensures Apart(Scale(h), Scale(g))
  {
  }

  lemma {:induction false} FnvKeepsApart(h: bv32, g: bv32, s: Bytes)
    requires Apart(h, g)
    ensures Apart(Fnv(h, s), Fnv(g, s))
    decreases s
  {
    hide Apart, Scale, Octet;
    if s != [] {
      MixKeepsApart(h, g, Octet(s[0]));
      ScaleKeepsApart(Mix(h, s[0]), Mix(g, s[0]));
      FnvKeepsApart(Scale(Mix(h, s[0])), Scale(Mix(g, s[0])), s[1..]);
    }
  }

  lemma {:induction false} FnvConcat(h: bv32, a: Bytes, b: Bytes)
    ensures Fnv(h, a + b) == Fnv(Fnv(h, a), b)
    decreases a
  {
    hide Mix, Scale;
    if a == [] {
      assert a + b == b;
    } else {
      assert (a + b)[1..] == a[1..] + b;
      FnvConcat(Scale(Mix(h, a[0])), a[1..], b);
    }
  }

  /** Messages of equal length that differ in one byte never share a counter. */
  lemma OneByteApart(p: Bytes, b: Byte, c: Byte, q: Bytes)
    requires b != c
    ensures Slot(p + [b] + q) != Slot(p + [c] + q)
  {
    hide Fnv, Mix, Scale, Octet, Apart;
    var h := Fnv(OFFSET32, p);
    SplitAt(p, b, q);
    SplitAt(p, c, q);
    OctetsDiffer(b, c);
    MixIs(h, b);
    MixIs(h, c);
    MixSetsApart(h, Octet(b), Octet(c));
    ScaleKeepsApart(Mix(h, b), Mix(h, c));
    FnvKeepsApart(Scale(Mix(h, b)), Scale(Mix(h, c)), q);
    ApartSlots(Fnv(OFFSET32, p + [b] + q), Fnv(OFFSET32, p + [c] + q));
  }

  lemma MixIs(h: bv32, b: Byte)
    ensures Mix(h, b) == h ^ (Octet(b) as bv32)
  {
    hide Octet;
  }

  lemma SplitAt(p: Bytes, b: Byte, q: Bytes)
    ensures Fnv(OFFSET32, p + [b] + q) == Fnv(Scale(Mix(Fnv(OFFSET32, p), b)), q)
  {
    hide Fnv, Mix, Scale;
    FnvConcat(OFFSET32, p, [b] + q);
    FnvStep(Fnv(OFFSET32, p), b, q);
    assert p + [b] + q == p + ([b] + q);
  }

  lemma ApartSlots(h: bv32, g: bv32)
    requires Apart(h, g)
    ensures SlotOf(h) != SlotOf(g)
  {
    hide Number;
    NumbersDiffer(h % 4096, g % 4096);
  }
}
