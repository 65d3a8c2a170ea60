/** Octets and the big-endian numbers made of them. */
module Octets {

  type Byte = x: int | 0 <= x < 256

  type Bytes = seq<Byte>

  const TWO_32 := 0x1_0000_0000

  datatype Option<+T> = None | Some(value: T)

  function Big16(high: int, low: int): (r: int)
  {
    high * 256 + low
  }

  function Load16(s: Bytes, at: nat): (r: int)
    requires at + 2 <= |s|
    ensures 0 <= r < 65536
  {
    Big16(s[at], s[at + 1])
  }

  function Stored16(s: Bytes, at: nat, v: nat): (r: Bytes)
    requires at + 2 <= |s| && v < 65536
    ensures |r| == |s| && Load16(r, at) == v
    ensures forall i :: 0 <= i < |s| && i != at && i != at + 1 ==> r[i] == s[i]
  {
    s[at := v / 256][at + 1 := v % 256]
  }

  /** The big-endian number the octets spell. */
  function Number(s: Bytes): (r: nat)
  {
    if |s| == 0 then 0 else Number(s[..|s| - 1]) * 256 + s[|s| - 1] as int
  }

  lemma NumberOfFour(s: Bytes)
    requires |s| == 4
    ensures Number(s) == (Big16(s[0], s[1])) * 65536 + Big16(s[2], s[3]) < TWO_32
  {
    assert s[..3][..2] == s[..2] && s[..2][..1] == s[..1] && s[..1][..0] == [];
    assert Number(s[..1]) == s[0] as int;
    assert Number(s[..2]) == Big16(s[0], s[1]);
  }

  function Load32(s: Bytes, at: nat): (r: nat)
    requires at + 4 <= |s|
    ensures r < TWO_32
  {
    NumberOfFour(s[at..at + 4]);
    Number(s[at..at + 4])
  }

  lemma SameLoad32(a: Bytes, b: Bytes, at: nat)
    requires at + 4 <= |a| && at + 4 <= |b| && forall k :: at <= k < at + 4 ==> a[k] == b[k]
    ensures Load32(a, at) == Load32(b, at)
  {
    assert a[at..at + 4] == b[at..at + 4];
  }

  function Stored32(s: Bytes, at: nat, v: nat): (r: Bytes)
    requires at + 4 <= |s| && v < TWO_32
    ensures |r| == |s| && Load32(r, at) == v
    ensures forall i :: 0 <= i < |s| && !(at <= i < at + 4) ==> r[i] == s[i]
  {
    var r := Stored16(Stored16(s, at, v / 65536), at + 2, v % 65536);
    NumberOfFour(r[at..at + 4]);
    assert Load16(r, at) == v / 65536 && Load16(r, at + 2) == v % 65536;
    r
  }

  /** The value modulo 2^32. */
  function Wrapped32(x: nat): (r: nat)
    ensures r < TWO_32
  {
    if x < TWO_32 then x else Wrapped32(x - TWO_32)
  }

  lemma {:induction false} WrappedIsModulo(x: nat)
    ensures Wrapped32(x) == x % TWO_32
  {
    if x >= TWO_32 { WrappedIsModulo(x - TWO_32); }
  }

  lemma {:induction false} WrappedSum(x: nat, n: nat)
    ensures Wrapped32(Wrapped32(x) + n) == Wrapped32(x + n)
  {
    if x >= TWO_32 { WrappedSum(x - TWO_32, n); }
  }

  lemma {:induction false} SubsetSize<T>(a: set<T>, b: set<T>)
    requires a <= b
    ensures |a| <= |b|
    ensures |a| == |b| ==> a == b
  {
    if a != {} {
      var x :| x in a;
      SubsetSize(a - {x}, b - {x});
    }
  }

  /** The parts one after another. */
  function Joined(parts: seq<Bytes>): (r: Bytes)
  {
    if |parts| == 0 then [] else Joined(parts[..|parts| - 1]) + parts[|parts| - 1]
  }

  function Power2(k: nat): (r: nat)
  {
    if k == 0 then 1 else 2 * Power2(k - 1)
  }
}
