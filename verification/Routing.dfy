/**
 Addresses, prefixes and the routing table: a prefix keeps exactly the first bits of an address, and a
 lookup finds the longest prefix that contains one.
 */
module Routing {
  import opened Octets

  const MAXIMUM_PREFIXES := 4096
  const NO_PEER := 0

  datatype Family = Ipv4 | Ipv6

  function AddressLength(f: Family): (n: nat)
  {
    if f == Ipv4 then 4 else 16
  }

  function MaximumLength(f: Family): (n: nat)
  {
    8 * AddressLength(f)
  }

  datatype Address = Address(family: Family, octets: Bytes)

  ghost predicate ValidAddress(a: Address)
  {
    |a.octets| == AddressLength(a.family)
  }

  // ----- bits of an octet -----

  /** The value shifted right by `k` bits. */
  function Shifted(x: nat, k: nat): (r: nat)
    ensures r <= x
  {
    if k == 0 then x else Shifted(x / 2, k - 1)
  }

  function OctetBit(x: nat, k: nat): (r: nat)
    ensures r < 2
  {
    Shifted(x, k) % 2
  }

  /** The value with bit `k` cleared. */
  function Cleared(x: nat, k: nat): (r: nat)
    ensures r <= x
  {
    if k == 0 then x - x % 2 else 2 * Cleared(x / 2, k - 1) + x % 2
  }

  lemma {:induction false} ClearedBits(x: nat, k: nat, j: nat)
    ensures OctetBit(Cleared(x, k), j) == if j == k then 0 else OctetBit(x, j)
    decreases k + j
  {
    if k > 0 && j > 0 { ClearedBits(x / 2, k - 1, j - 1); }
  }

  lemma {:induction false} ShiftedStep(x: nat, k: nat)
    ensures Shifted(x, k + 1) == Shifted(x, k) / 2
  {
    if k > 0 { ShiftedStep(x / 2, k - 1); }
  }

  lemma {:induction false} ShiftedOut(x: nat, k: nat)
    requires x < Power2(k)
    ensures Shifted(x, k) == 0
  {
    if k > 0 { ShiftedOut(x / 2, k - 1); }
  }

  /** Two octets agree above the lowest `k` bits exactly when each of those bits agrees. */
  lemma {:induction false} HighPartsAgree(x: Byte, y: Byte, k: nat)
    requires k <= 8
    ensures Shifted(x, k) == Shifted(y, k) <==> forall j :: k <= j < 8 ==> OctetBit(x, j) == OctetBit(y, j)
    decreases 8 - k
  {
    if k == 8 {
      assert Power2(4) == 16 && Power2(8) == 256;
      ShiftedOut(x, 8);
      ShiftedOut(y, 8);
    } else {
      HighPartsAgree(x, y, k + 1);
      ShiftedStep(x, k);
      ShiftedStep(y, k);
      assert OctetBit(x, k) == Shifted(x, k) % 2 && OctetBit(y, k) == Shifted(y, k) % 2;
    }
  }

  // ----- bits of an address -----

  /** Bit number `i`, counted from the most significant one. */
  function Bit(octets: Bytes, i: nat): (r: nat)
    requires i < 8 * |octets|
    ensures r < 2
  {
    OctetBit(octets[i / 8], 7 - i % 8)
  }

  ghost predicate AgreeFirst(a: Bytes, b: Bytes, n: nat)
    requires n <= 8 * |a| && n <= 8 * |b|
  {
    forall i :: 0 <= i < n ==> Bit(a, i) == Bit(b, i)
  }

  lemma OctetsAgree(a: Bytes, b: Bytes, n: nat)
    requires |a| == |b| && n <= |a|
    ensures a[..n] == b[..n] <==> AgreeFirst(a, b, 8 * n)
  {
    if a[..n] == b[..n] {
      forall i | 0 <= i < 8 * n ensures Bit(a, i) == Bit(b, i) {
        assert a[i / 8] == a[..n][i / 8] && b[i / 8] == b[..n][i / 8];
      }
    }
    if AgreeFirst(a, b, 8 * n) {
      forall k | 0 <= k < n ensures a[k] == b[k] {
        HighPartsAgree(a[k], b[k], 0);
        forall j | 0 <= j < 8 ensures OctetBit(a[k], j) == OctetBit(b[k], j) {
          assert Bit(a, 8 * k + (7 - j)) == Bit(b, 8 * k + (7 - j));
        }
      }
    }
  }

  // ----- prefixes -----

  datatype Prefix = Prefix(address: Address, length: nat)

  /** Only the first bits of the address are set. */
  ghost predicate Canonical(p: Prefix)
  {
    && ValidAddress(p.address) && p.length <= MaximumLength(p.address.family)
    && forall i :: p.length <= i < 8 * |p.address.octets| ==> Bit(p.address.octets, i) == 0
  }

  /** The address is covered by the prefix: same family, and the first bits agree. */
  ghost predicate Covers(p: Prefix, a: Address)
    requires Canonical(p) && ValidAddress(a)
  {
    p.address.family == a.family && AgreeFirst(p.address.octets, a.octets, p.length)
  }

  /** The prefix of an address: its first bits are kept and the others cleared. */
  method Create(a: Address, length: nat) returns (p: Option<Prefix>)
    requires ValidAddress(a)
    ensures p.None? <==> length > MaximumLength(a.family)
    ensures p.Some? ==> p.value.length == length && p.value.address.family == a.family
                        && Canonical(p.value) && Covers(p.value, a)
  {
    hide OctetBit, Cleared;
    if length > MaximumLength(a.family) { return None; }
    var octets := new Byte[|a.octets|](i requires 0 <= i < |a.octets| => a.octets[i]);
    assert octets[..] == a.octets;
    for index := length to 8 * |a.octets|
      invariant forall i :: 0 <= i < length || index <= i < 8 * |a.octets| ==> Bit(octets[..], i) == Bit(a.octets, i)
      invariant forall i :: length <= i < index ==> Bit(octets[..], i) == 0
    {
      ghost var before := octets[..];
      octets[index / 8] := Cleared(octets[index / 8], 7 - index % 8);
      forall i | 0 <= i < 8 * |a.octets| ensures Bit(octets[..], i) == if i == index then 0 else Bit(before, i) {
        ClearedBits(before[index / 8], 7 - index % 8, 7 - i % 8);
      }
    }
    p := Some(Prefix(Address(a.family, octets[..]), length));
  }

  /** A canonical prefix is determined by its length and any address it covers. */
  lemma PrefixIsDetermined(p: Prefix, q: Prefix, a: Address)
    requires Canonical(p) && Canonical(q) && ValidAddress(a) && p.length == q.length && Covers(p, a) && Covers(q, a)
    ensures p == q
  {
    hide Bit;
    var x, y := p.address.octets, q.address.octets;
    forall i | 0 <= i < 8 * |x| ensures Bit(x, i) == Bit(y, i) {
      if i < p.length { assert Bit(x, i) == Bit(a.octets, i) == Bit(y, i); }
    }
    OctetsAgree(x, y, |x|);
    assert x[..|x|] == x && y[..|y|] == y;
  }

  /** Two addresses have the same prefix exactly when their first bits agree; in particular the prefix of a
      prefix's own address is that prefix. */
  lemma SamePrefix(p: Prefix, a: Address, q: Prefix, b: Address)
    requires Canonical(p) && Canonical(q) && ValidAddress(a) && ValidAddress(b) && p.length == q.length
    requires Covers(p, a) && Covers(q, b)
    ensures p == q <==> a.family == b.family && AgreeFirst(a.octets, b.octets, p.length)
    ensures Covers(p, p.address)
  {
    hide Bit;
    if a.family == b.family && AgreeFirst(a.octets, b.octets, p.length) {
      forall i | 0 <= i < p.length ensures Bit(q.address.octets, i) == Bit(a.octets, i) {
        assert Bit(q.address.octets, i) == Bit(b.octets, i) == Bit(a.octets, i);
      }
      PrefixIsDetermined(p, q, a);
    }
    if p == q {
      forall i | 0 <= i < p.length ensures Bit(a.octets, i) == Bit(b.octets, i) {
        assert Bit(p.address.octets, i) == Bit(a.octets, i) && Bit(q.address.octets, i) == Bit(b.octets, i);
      }
    }
  }

  /** Comparing whole octets and then the high part of the next one decides coverage. */
  method Contains(p: Prefix, a: Address) returns (r: bool)
    requires Canonical(p) && ValidAddress(a)
    ensures r <==> Covers(p, a)
  {
    hide Bit, Shifted;
    if a.family != p.address.family { return false; }
    var whole, remaining := p.length / 8, p.length % 8;
    var candidate, network := a.octets, p.address.octets;
    OctetsAgree(network, candidate, whole);
    for index := 0 to whole
      invariant network[..index] == candidate[..index]
    {
      if candidate[index] != network[index] {
        assert network[..whole][index] != candidate[..whole][index];
        return false;
      }
    }
    if remaining == 0 { return true; }
    PartialOctet(network, candidate, p.length);
    return Shifted(candidate[whole], 8 - remaining) == Shifted(network[whole], 8 - remaining);
  }

  lemma PartialOctet(x: Bytes, y: Bytes, n: nat)
    requires |x| == |y| && n < 8 * |x| && n % 8 > 0 && AgreeFirst(x, y, 8 * (n / 8))
    ensures AgreeFirst(x, y, n) <==> Shifted(x[n / 8], 8 - n % 8) == Shifted(y[n / 8], 8 - n % 8)
  {
    hide Shifted, OctetBit;
    var w, s := n / 8, 8 - n % 8;
    HighPartsAgree(x[w], y[w], s);
    if AgreeFirst(x, y, n) {
      forall j | s <= j < 8 ensures OctetBit(x[w], j) == OctetBit(y[w], j) {
        assert Bit(x, 8 * w + (7 - j)) == Bit(y, 8 * w + (7 - j));
      }
    }
    if Shifted(x[w], s) == Shifted(y[w], s) {
      forall i | 0 <= i < n ensures Bit(x, i) == Bit(y, i) {
        if i >= 8 * w { assert i / 8 == w && s <= 7 - i % 8 < 8; }
      }
    }
  }

  // ----- the table -----

  datatype Entry = Entry(prefix: Prefix, peer: nat)

  datatype RoutingError = DuplicatePrefix | InvalidPeer | TooManyPrefixes

  datatype Outcome = Added | Refused(error: RoutingError)

  /** Longest prefixes first, no prefix twice, no entry without a peer. */
  ghost predicate ValidTable(entries: seq<Entry>)
  {
    && (forall i :: 0 <= i < |entries| ==> Canonical(entries[i].prefix) && entries[i].peer != NO_PEER)
    && (forall i, j :: 0 <= i < j < |entries| ==> entries[i].prefix.length >= entries[j].prefix.length)
    && (forall i, j :: 0 <= i < j < |entries| ==> entries[i].prefix != entries[j].prefix)
    && |entries| <= MAXIMUM_PREFIXES
  }

  /** `e` is the entry of the longest prefix that covers the address: every other one that does is shorter. */
  ghost predicate IsLongestMatch(entries: seq<Entry>, a: Address, e: Entry)
    requires ValidTable(entries) && ValidAddress(a)
  {
    && e in entries && Covers(e.prefix, a)
    && forall f :: f in entries && Covers(f.prefix, a) && f != e ==> f.prefix.length < e.prefix.length
  }

  /** The peer a lookup must find. */
  ghost predicate RoutesTo(entries: seq<Entry>, a: Address, peer: nat)
    requires ValidTable(entries) && ValidAddress(a)
  {
    if exists e :: e in entries && Covers(e.prefix, a)
    then exists e :: IsLongestMatch(entries, a, e) && e.peer == peer
    else peer == NO_PEER
  }

  /** A lookup depends on which entries were accepted, not on the order in which they were. */
  lemma OrderDoesNotMatter(s: seq<Entry>, t: seq<Entry>, a: Address, p: nat, q: nat)
    requires ValidTable(s) && ValidTable(t) && ValidAddress(a)
    requires forall e :: e in s <==> e in t
    requires RoutesTo(s, a, p) && RoutesTo(t, a, q)
    ensures p == q
  {
    hide Canonical, Covers;
    if e :| e in s && Covers(e.prefix, a) {
      assert e in t;
      var f :| IsLongestMatch(s, a, f) && f.peer == p;
      var g :| IsLongestMatch(t, a, g) && g.peer == q;
      assert f in t && g in s;
    } else {
      assert forall e :: e in t ==> !Covers(e.prefix, a);
    }
  }

  class RoutingTable {
    var entries: seq<Entry>

    ghost predicate Valid()
      reads this
    {
      ValidTable(entries)
    }

    constructor ()
      ensures Valid() && entries == []
    {
      entries := [];
    }

    /** The first position whose prefix is not longer. */
    method LowerBound(length: nat) returns (position: nat)
      requires Valid()
      ensures position <= |entries|
      ensures forall i :: 0 <= i < position ==> entries[i].prefix.length > length
      ensures forall i :: position <= i < |entries| ==> entries[i].prefix.length <= length
    {
      hide Canonical;
      position := 0;
      var end := |entries|;
      while position < end
        invariant position <= end <= |entries|
        invariant forall i :: 0 <= i < position ==> entries[i].prefix.length > length
        invariant forall i :: end <= i < |entries| ==> entries[i].prefix.length <= length
        decreases end - position
      {
        var middle := (position + end) / 2;
        if entries[middle].prefix.length > length { position := middle + 1; } else { end := middle; }
      }
    }

    method Add(peer: nat, prefix: Prefix) returns (r: Outcome)
      requires Valid() && Canonical(prefix)
      modifies this
      ensures Valid()
      ensures r.Refused? ==> entries == old(entries)
      ensures peer == NO_PEER ==> r == Refused(InvalidPeer)
      ensures peer != NO_PEER && |old(entries)| >= MAXIMUM_PREFIXES ==> r == Refused(TooManyPrefixes)
      ensures r == Refused(DuplicatePrefix) <==>
                && peer != NO_PEER && |old(entries)| < MAXIMUM_PREFIXES
                && exists e :: e in old(entries) && e.prefix == prefix && e.peer != peer
      ensures r.Added? ==> forall e :: e in entries <==> e in old(entries) || e == Entry(prefix, peer)
      ensures r.Added? <==> && peer != NO_PEER && |old(entries)| < MAXIMUM_PREFIXES
                            && forall e :: e in old(entries) && e.prefix == prefix ==> e.peer == peer
    {
      hide Canonical;
      if peer == NO_PEER { return Refused(InvalidPeer); }
      if |entries| >= MAXIMUM_PREFIXES { return Refused(TooManyPrefixes); }
      for i := 0 to |entries|
        invariant entries == old(entries) && forall j :: 0 <= j < i ==> entries[j].prefix != prefix
      {
        if entries[i].prefix == prefix {
          assert entries[i] in entries;
          if entries[i].peer == peer {
            assert entries[i] == Entry(prefix, peer);
            return Added;
          }
          return Refused(DuplicatePrefix);
        }
      }
      var position := LowerBound(prefix.length);
      InsertedIsValid(entries, position, Entry(prefix, peer));
      InsertedMembers(entries, position, Entry(prefix, peer));
      entries := entries[..position] + [Entry(prefix, peer)] + entries[position..];
      return Added;
    }

    /** The first match is the longest one. */
    method Lookup(a: Address) returns (peer: nat)
      requires Valid() && ValidAddress(a)
      ensures RoutesTo(entries, a, peer)
    {
      hide Canonical, Covers;
      for i := 0 to |entries|
        invariant forall j :: 0 <= j < i ==> !Covers(entries[j].prefix, a)
      {
        var found := Contains(entries[i].prefix, a);
        if found {
          FirstIsLongest(entries, a, i);
          return entries[i].peer;
        }
      }
      return NO_PEER;
    }

    /** Whether some prefix of the peer covers the address. */
    method IsAuthorized(peer: nat, a: Address) returns (r: bool)
      requires Valid() && ValidAddress(a)
      ensures r <==> peer != NO_PEER && exists e :: e in entries && e.peer == peer && Covers(e.prefix, a)
    {
      hide Canonical, Covers;
      if peer == NO_PEER { return false; }
      for i := 0 to |entries|
        invariant forall j :: 0 <= j < i ==> !(entries[j].peer == peer && Covers(entries[j].prefix, a))
      {
        if entries[i].peer == peer {
          var found := Contains(entries[i].prefix, a);
          if found {
            assert entries[i] in entries;
            return true;
          }
        }
      }
      return false;
    }
  }

  lemma InsertedIsValid(entries: seq<Entry>, at: nat, e: Entry)
    requires ValidTable(entries) && |entries| < MAXIMUM_PREFIXES && at <= |entries|
    requires Canonical(e.prefix) && e.peer != NO_PEER
    requires forall i :: 0 <= i < |entries| ==> entries[i].prefix != e.prefix
    requires forall i :: 0 <= i < at ==> entries[i].prefix.length > e.prefix.length
    requires forall i :: at <= i < |entries| ==> entries[i].prefix.length <= e.prefix.length
    ensures ValidTable(entries[..at] + [e] + entries[at..])
  {
    hide Canonical;
    var r := entries[..at] + [e] + entries[at..];
    forall i | 0 <= i < |r|
      ensures r[i] == if i < at then entries[i] else if i == at then e else entries[i - 1] {
    }
  }

  lemma InsertedMembers(entries: seq<Entry>, at: nat, e: Entry)
    requires at <= |entries|
    ensures forall f :: f in entries[..at] + [e] + entries[at..] <==> f in entries || f == e
  {
    assert entries == entries[..at] + entries[at..];
  }

  lemma FirstIsLongest(entries: seq<Entry>, a: Address, i: nat)
    requires ValidTable(entries) && ValidAddress(a) && i < |entries| && Covers(entries[i].prefix, a)
    requires forall j :: 0 <= j < i ==> !Covers(entries[j].prefix, a)
    ensures IsLongestMatch(entries, a, entries[i])
  {
    hide Canonical, Covers;
    var e := entries[i];
    forall f | f in entries && Covers(f.prefix, a) && f != e ensures f.prefix.length < e.prefix.length {
      var j :| 0 <= j < |entries| && entries[j] == f;
      if f.prefix.length == e.prefix.length { PrefixIsDetermined(e.prefix, f.prefix, a); }
    }
  }
}
