/**
 The Field union: typed values packed into one int64 by the constructors and unpacked by AddTo.
 */
module FieldUnion {
  const TWO_7 := 0x80
  const TWO_15 := 0x8000
  const TWO_31 := 0x8000_0000
  const TWO_63 := 0x8000_0000_0000_0000

  const NANOS := 1_000_000_000

  /** Conversion to a signed integer of 64 bits: the low bits, read in two's complement. */
  function ToInt64(x: int): (r: int)
    ensures -TWO_63 <= r < TWO_63
  {
    (x + 0x8000_0000_0000_0000) % 0x1_0000_0000_0000_0000 - 0x8000_0000_0000_0000
  }

  function ToInt32(x: int): (r: int)
    ensures -TWO_31 <= r < TWO_31
  {
    (x + 0x8000_0000) % 0x1_0000_0000 - 0x8000_0000
  }

  function ToInt16(x: int): (r: int)
    ensures -TWO_15 <= r < TWO_15
  {
    (x + 0x8000) % 0x1_0000 - 0x8000
  }

  function ToInt8(x: int): (r: int)
    ensures -TWO_7 <= r < TWO_7
  {
    (x + 0x80) % 0x100 - 0x80
  }

  /** Conversion to an unsigned integer of 64 bits: the low bits. */
  function ToUint64(x: int): (r: int)
    ensures 0 <= r < 2 * TWO_63
  {
    x % 0x1_0000_0000_0000_0000
  }

  function ToUint32(x: int): (r: int)
    ensures 0 <= r < 2 * TWO_31
  {
    x % 0x1_0000_0000
  }

  function ToUint16(x: int): (r: int)
    ensures 0 <= r < 2 * TWO_15
  {
    x % 0x1_0000
  }

  function ToUint8(x: int): (r: int)
    ensures 0 <= r < 2 * TWO_7
  {
    x % 0x100
  }

  // ---- Times ----

  /** An instant: whole seconds since 1970, and nanoseconds into the second. */
  datatype Instant = Instant(sec: int, nsec: int)

  /** Seconds fit in int64. */
  predicate IsInstant(t: Instant) {
    -TWO_63 <= t.sec < TWO_63 && 0 <= t.nsec < NANOS
  }

  predicate Before(a: Instant, b: Instant) {
    a.sec < b.sec || (a.sec == b.sec && a.nsec < b.nsec)
  }

  /** Division that rounds toward zero. */
  function Truncated(x: int, d: int): (q: int)
    requires d > 0
  {
    if x >= 0 then x / d else -((-x) / d)
  }

  /** `time.Unix(0, n)`: carries whole seconds out of n, and borrows one if what is left is negative. */
  function FromNanos(n: int): (t: Instant)
    ensures 0 <= t.nsec < NANOS && t.sec * NANOS + t.nsec == n
  {
    if 0 <= n < NANOS then Instant(0, n)
    else
      var q := Truncated(n, NANOS);
      var rest := n - q * NANOS;
      if rest < 0 then Instant(q - 1, rest + NANOS) else Instant(q, rest)
  }

  /** Nanoseconds since 1970, without bound. */
  function Nanos(t: Instant): (n: int) {
    t.sec * NANOS + t.nsec
  }

  /** `UnixNano`: the same in wrapping int64 arithmetic. */
  function UnixNano(t: Instant): (n: int) {
    ToInt64(ToInt64(t.sec * NANOS) + t.nsec)
  }

  const MIN_TIME := FromNanos(-TWO_63)
  const MAX_TIME := FromNanos(TWO_63 - 1)

  lemma BeforeIsLess(a: Instant, b: Instant)
    requires 0 <= a.nsec < NANOS && 0 <= b.nsec < NANOS
    ensures Before(a, b) <==> Nanos(a) < Nanos(b)
    ensures a == b <==> Nanos(a) == Nanos(b)
  {
    if a.sec < b.sec {
      assert a.sec * NANOS + NANOS <= b.sec * NANOS;
    } else if b.sec < a.sec {
      assert b.sec * NANOS + NANOS <= a.sec * NANOS;
    }
  }

  /** The range test holds exactly when the true count of nanoseconds fits in int64. */
  lemma RangeTestIsExact(t: Instant)
    requires 0 <= t.nsec < NANOS
    ensures !Before(t, MIN_TIME) && !Before(MAX_TIME, t) <==> -TWO_63 <= Nanos(t) < TWO_63
  {
    BeforeIsLess(t, MIN_TIME);
    BeforeIsLess(MAX_TIME, t);
  }

  lemma WrapTwice(x: int, y: int)
    ensures ToInt64(ToInt64(x) + y) == ToInt64(x + y)
  {
  }

  /** The wrapping arithmetic of UnixNano is exact exactly when the range test passes. */
  lemma UnixNanoExactInRange(t: Instant)
    requires 0 <= t.nsec < NANOS
    ensures UnixNano(t) == Nanos(t) <==> !Before(t, MIN_TIME) && !Before(MAX_TIME, t)
  {
    WrapTwice(t.sec * NANOS, t.nsec);
    RangeTestIsExact(t);
  }

  // ---- The union ----

  /** A value given to a constructor. Floats are given by their bits, times with their location. */
  datatype Typed =
    | Bool(b: bool)
    | Int64(i: int) | Int32(i: int) | Int16(i: int) | Int8(i: int)
    | Uint64(i: int) | Uint32(i: int) | Uint16(i: int) | Uint8(i: int) | Uintptr(i: int)
    | Duration(i: int)
    | Float64(bits: int) | Float32(bits: int)
    | Time(t: Instant, location: nat)

  predicate WellTyped(v: Typed) {
    match v
    case Bool(_) => true
    case Int64(i) => -TWO_63 <= i < TWO_63
    case Int32(i) => -TWO_31 <= i < TWO_31
    case Int16(i) => -TWO_15 <= i < TWO_15
    case Int8(i) => -TWO_7 <= i < TWO_7
    case Uint64(i) => 0 <= i < 2 * TWO_63
    case Uint32(i) => 0 <= i < 2 * TWO_31
    case Uint16(i) => 0 <= i < 2 * TWO_15
    case Uint8(i) => 0 <= i < 2 * TWO_7
    case Uintptr(i) => 0 <= i < 2 * TWO_63
    case Duration(i) => -TWO_63 <= i < TWO_63
    case Float64(bits) => 0 <= bits < 2 * TWO_63
    case Float32(bits) => 0 <= bits < 2 * TWO_31
    case Time(t, _) => IsInstant(t)
  }

  datatype Kind =
    | BoolType | Int64Type | Int32Type | Int16Type | Int8Type
    | Uint64Type | Uint32Type | Uint16Type | Uint8Type | UintptrType
    | DurationType | Float64Type | Float32Type | TimeType | TimeFullType

  /** What the Interface member carries. */
  datatype Boxed = Nil | Location(location: nat) | FullTime(t: Instant, location: nat)

  /** The union: a type tag, an int64 and an interface value. */
  datatype Packed = Packed(kind: Kind, integer: int, boxed: Boxed)

  function Pack(v: Typed): (p: Packed)
    requires WellTyped(v)
    ensures -TWO_63 <= p.integer < TWO_63
  {
    match v
    case Bool(b) => Packed(BoolType, if b then 1 else 0, Nil)
    case Int64(i) => Packed(Int64Type, i, Nil)
    case Int32(i) => Packed(Int32Type, i, Nil)
    case Int16(i) => Packed(Int16Type, i, Nil)
    case Int8(i) => Packed(Int8Type, i, Nil)
    case Uint64(i) => Packed(Uint64Type, ToInt64(i), Nil)
    case Uint32(i) => Packed(Uint32Type, ToInt64(i), Nil)
    case Uint16(i) => Packed(Uint16Type, ToInt64(i), Nil)
    case Uint8(i) => Packed(Uint8Type, ToInt64(i), Nil)
    case Uintptr(i) => Packed(UintptrType, ToInt64(i), Nil)
    case Duration(i) => Packed(DurationType, i, Nil)
    case Float64(bits) => Packed(Float64Type, ToInt64(bits), Nil)
    case Float32(bits) => Packed(Float32Type, ToInt64(bits), Nil)
    case Time(t, location) =>
      if Before(t, MIN_TIME) || Before(MAX_TIME, t) then Packed(TimeFullType, 0, FullTime(t, location))
      else Packed(TimeType, UnixNano(t), Location(location))
  }

  /** The value AddTo hands to the encoder. A missing location reads as location 0, UTC. */
  function Unpack(p: Packed): (v: Typed) {
    var n := p.integer;
    match p.kind
    case BoolType => Bool(n == 1)
    case Int64Type => Int64(n)
    case Int32Type => Int32(ToInt32(n))
    case Int16Type => Int16(ToInt16(n))
    case Int8Type => Int8(ToInt8(n))
    case Uint64Type => Uint64(ToUint64(n))
    case Uint32Type => Uint32(ToUint32(n))
    case Uint16Type => Uint16(ToUint16(n))
    case Uint8Type => Uint8(ToUint8(n))
    case UintptrType => Uintptr(ToUint64(n))
    case DurationType => Duration(n)
    case Float64Type => Float64(ToUint64(n))
    case Float32Type => Float32(ToUint32(n))
    case TimeType => Time(FromNanos(n), if p.boxed.Location? then p.boxed.location else 0)
    case TimeFullType => if p.boxed.FullTime? then Time(p.boxed.t, p.boxed.location) else Time(FromNanos(0), 0)
  }

  /** Unsigned values survive the passage through int64, at every width. */
  lemma WrapsBack(i: int)
    requires 0 <= i < 2 * TWO_63
    ensures ToUint64(ToInt64(i)) == i
    ensures i < TWO_63 ==> ToInt64(i) == i
  {
  }

  lemma TimeComesBack(t: Instant, location: nat)
    requires IsInstant(t)
    ensures Unpack(Pack(Time(t, location))) == Time(t, location)
  {
    hide ToInt64, UnixNano;
    UnixNanoExactInRange(t);
    BeforeIsLess(FromNanos(Nanos(t)), t);
  }

  /** Every value comes back as it went in; times come back as the same instant in the same location. */
  lemma UnpackPack(v: Typed)
    requires WellTyped(v)
    ensures Unpack(Pack(v)) == v
  {
    hide ToInt64, ToUint64, UnixNano, FromNanos, Before;
    if v.Time? {
      TimeComesBack(v.t, v.location);
    } else if v.Float64? || v.Float32? {
      WrapsBack(v.bits);
    } else if v.Uint64? || v.Uint32? || v.Uint16? || v.Uint8? || v.Uintptr? {
      WrapsBack(v.i);
    }
  }

  /** The compact form of a time is used exactly when it can hold it. */
  lemma CompactTimes(t: Instant, location: nat)
    requires IsInstant(t)
    ensures Pack(Time(t, location)).kind == TimeType <==> -TWO_63 <= Nanos(t) < TWO_63
    ensures Pack(Time(t, location)).kind == TimeType <==> FromNanos(UnixNano(t)) == t
  {
    RangeTestIsExact(t);
    UnixNanoExactInRange(t);
    BeforeIsLess(FromNanos(UnixNano(t)), t);
  }
}
