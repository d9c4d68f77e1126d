/** A position on the 2D map: two Java `int` coordinates, compared by value. */
module Locations {

  /** Java's `int`: 32-bit two's complement. */
  const INT_MIN: int := -0x8000_0000
  const INT_MAX: int := 0x7fff_ffff
  const TWO_32: int := 0x1_0000_0000

  newtype int32 = x: int | -0x8000_0000 <= x < 0x8000_0000

  /** Reduces a mathematical integer to the Java `int` with the same low 32 bits. */
  function Wrap32(v: int): (r: int32)
    ensures (r as int - v) % TWO_32 == 0
  {
    ((v - INT_MIN) % TWO_32 + INT_MIN) as int32
  }

  datatype Location = Location(xCoord: int32, yCoord: int32)

  /** What a Java `Object` argument of `equals` may be: null, a Location, or any other object. */
  datatype Object = NullRef | LocationRef(loc: Location) | OtherRef(id: nat)

  /** `new Location(x, y)`. */
  function NewLocation(x: int32, y: int32): (l: Location)
    ensures l.xCoord == x && l.yCoord == y
  {
    Location(x, y)
  }

  /** `new Location()`: the origin. */
  function DefaultLocation(): (l: Location)
    ensures l.xCoord == 0 && l.yCoord == 0
  {
    NewLocation(0, 0)
  }

  /** `Location.equals(Object)`: true exactly for a Location with the same coordinates. */
  function Equals(l: Location, obj: Object): (r: bool)
    ensures r <==> obj == LocationRef(l)
    ensures !obj.LocationRef? ==> !r
  {
    if obj.LocationRef? then
      var other := obj.loc;
      l.xCoord == other.xCoord && l.yCoord == other.yCoord
    else
      false
  }

  /** `Location.hashCode()`: `37 * (37 * 13 + x) + y` evaluated step by step in Java `int` arithmetic. */
  function HashCode(l: Location): (h: int32)
    ensures (h as int - (37 * (37 * 13 + l.xCoord as int) + l.yCoord as int)) % TWO_32 == 0
  {
    var result: int32 := 13;
    var result1 := Wrap32(37 * result as int + l.xCoord as int);
    WrapMulAdd(37 * 13 + l.xCoord as int, 37, l.yCoord as int);
    Wrap32(37 * result1 as int + l.yCoord as int)
  }

  /** On values already in `int` range, wrapping is the identity. */
  lemma WrapIdentity(v: int)
    requires INT_MIN <= v <= INT_MAX
    ensures Wrap32(v) as int == v
  {
  }

  /** Without overflow the hash code is the plain arithmetic value. */
  lemma HashCodeSmall(l: Location)
    requires -1_000_000 <= l.xCoord as int <= 1_000_000
    requires -1_000_000 <= l.yCoord as int <= 1_000_000
    ensures HashCode(l) as int == 37 * (37 * 13 + l.xCoord as int) + l.yCoord as int
  {
    var v := 37 * (37 * 13 + l.xCoord as int) + l.yCoord as int;
    var h := HashCode(l) as int;
    var k := (h - v) / TWO_32;
    assert h == v + k * TWO_32;
  }

  /** An example of wrap-around: the hash code of (INT_MAX, INT_MAX). */
  lemma HashCodeWraps()
    ensures HashCode(NewLocation(INT_MAX as int32, INT_MAX as int32)) == 17759
  {
    var v := 37 * (37 * 13 + INT_MAX) + INT_MAX;
    var h := HashCode(NewLocation(INT_MAX as int32, INT_MAX as int32)) as int;
    var k := (h - v) / TWO_32;
    assert h == v + k * TWO_32;
    assert k == -19;
  }

  /** `equals` is reflexive. */
  lemma EqualsReflexive(a: Location)
    ensures Equals(a, LocationRef(a))
  {
  }

  /** `equals` is symmetric on Locations. */
  lemma EqualsSymmetric(a: Location, b: Location)
    ensures Equals(a, LocationRef(b)) <==> Equals(b, LocationRef(a))
  {
  }

  /** `equals` is transitive on Locations. */
  lemma EqualsTransitive(a: Location, b: Location, c: Location)
    requires Equals(a, LocationRef(b)) && Equals(b, LocationRef(c))
    ensures Equals(a, LocationRef(c))
  {
  }

  /** `equals` never holds of null. */
  lemma EqualsNull(a: Location)
    ensures !Equals(a, NullRef)
  {
  }

  /** `equals` coincides with value equality, so a Dafny map keyed by Location behaves like the HashMap. */
  lemma EqualsIsCoordinatewise(a: Location, b: Location)
    ensures Equals(a, LocationRef(b)) <==> a.xCoord == b.xCoord && a.yCoord == b.yCoord
    ensures Equals(a, LocationRef(b)) <==> a == b
  {
  }

  /** Equal locations have equal hash codes. */
  lemma HashConsistentWithEquals(a: Location, b: Location)
    requires Equals(a, LocationRef(b))
    ensures HashCode(a) == HashCode(b)
  {
  }

  /** Distinct locations can share a hash code, so keys are told apart by `equals`, not by the hash. */
  lemma HashCollision()
    ensures HashCode(NewLocation(0, 37)) == HashCode(NewLocation(1, 0))
    ensures !Equals(NewLocation(0, 37), LocationRef(NewLocation(1, 0)))
  {
    HashCodeSmall(NewLocation(0, 37));
    HashCodeSmall(NewLocation(1, 0));
  }

  /** Wrapping an intermediate result does not change the final wrapped value of `c * v + d`. */
  lemma WrapMulAdd(v: int, c: int, d: int)
    ensures Wrap32(c * Wrap32(v) as int + d) == Wrap32(c * v + d)
  {
    var w := Wrap32(v) as int;
    var k := (w - v) / TWO_32;
    assert w == v + k * TWO_32;
    assert c * w + d == (c * v + d) + (c * k) * TWO_32;
    WrapShift(c * v + d, c * k);
  }

  /** `Wrap32` only depends on its argument modulo 2^32. */
  lemma WrapShift(v: int, k: int)
    ensures Wrap32(v + k * TWO_32) == Wrap32(v)
  {
    ModShift(v - INT_MIN, k);
    assert (v + k * TWO_32) - INT_MIN == (v - INT_MIN) + k * TWO_32;
  }

  lemma ModShift(a: int, k: int)
    ensures (a + k * TWO_32) % TWO_32 == a % TWO_32
  {
    var q := a / TWO_32;
    var r := a % TWO_32;
    assert a + k * TWO_32 == (q + k) * TWO_32 + r;
  }
}
