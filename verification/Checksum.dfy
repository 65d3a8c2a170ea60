/**
 The Internet checksum (section 1 of RFC 1071) as the offload path computes it: sums of 16-bit words,
 folded with end-around carry, over IPv4 and IPv6 packets carrying TCP or UDP.
 */
module Checksum {
  import opened Octets

  const ALL_ONES := 65535
  const TCP := 6
  const UDP := 17

  // ----- the word sum -----

  /** The sum of the big-endian 16-bit words, an odd last octet padded with a zero octet. */
  function WordSum(s: Bytes): (sum: nat)
  {
    if |s| == 0 then 0
    else if |s| == 1 then Big16(s[0], 0)
    else Load16(s, 0) + WordSum(s[2..])
  }

  lemma {:induction false} StoredSum(s: Bytes, at: nat, v: nat)
    requires at % 2 == 0 && at + 2 <= |s| && v < 65536
    ensures WordSum(Stored16(s, at, v)) == WordSum(s) - Load16(s, at) + v
  {
    var r := Stored16(s, at, v);
    if at == 0 {
      assert r[2..] == s[2..];
    } else {
      StoredSum(s[2..], at - 2, v);
      assert r[2..] == Stored16(s[2..], at - 2, v);
    }
  }

  /** Sums of parts add up where the first part has whole words. */
  lemma {:induction false} WordSumConcat(a: Bytes, b: Bytes)
    requires |a| % 2 == 0
    ensures WordSum(a + b) == WordSum(a) + WordSum(b)
  {
    if |a| == 0 {
      assert a + b == b;
    } else {
      assert (a + b)[2..] == a[2..] + b;
      WordSumConcat(a[2..], b);
    }
  }

  /** An odd last octet counts as if a zero octet followed. */
  lemma {:induction false} OddIsPadded(s: Bytes)
    requires |s| % 2 == 1
    ensures WordSum(s) == WordSum(s + [0])
  {
    if |s| == 1 {
      assert (s + [0])[2..] == [];
    } else {
      assert (s + [0])[2..] == s[2..] + [0];
      OddIsPadded(s[2..]);
    }
  }

  /** The example of section 3 of RFC 1071. */
  lemma SumOfTheExample()
    ensures WordSum([0x00, 0x01, 0xF2, 0x03, 0xF4, 0xF5, 0xF6, 0xF7]) == 0x2DDF0
    ensures Fold(0x2DDF0) == 0xDDF2
  {
    var s: Bytes := [0x00, 0x01, 0xF2, 0x03, 0xF4, 0xF5, 0xF6, 0xF7];
    assert s[2..] == [0xF2, 0x03, 0xF4, 0xF5, 0xF6, 0xF7] && s[2..][2..] == [0xF4, 0xF5, 0xF6, 0xF7];
    assert s[2..][2..][2..] == [0xF6, 0xF7] && s[2..][2..][2..][2..] == [];
    assert WordSum(s[2..][2..][2..]) == 0xF6F7;
    assert WordSum(s[2..][2..]) == 0xF4F5 + 0xF6F7;
    assert WordSum(s[2..]) == 0xF203 + 0xF4F5 + 0xF6F7;
  }

  /** The unrolled sum over eight octets at a time is the word sum. */
  method ChecksumAdd(bytes: Bytes, initial: nat) returns (sum: nat)
    ensures sum == initial + WordSum(bytes)
  {
    sum := initial;
    var index := 0;
    while index + 8 <= |bytes|
      invariant index <= |bytes| && sum == initial + WordSum(bytes) - WordSum(bytes[index..])
    {
      FourWords(bytes, index);
      sum := sum + Load16(bytes, index);
      sum := sum + Load16(bytes, index + 2);
      sum := sum + Load16(bytes, index + 4);
      sum := sum + Load16(bytes, index + 6);
      index := index + 8;
    }
    while index + 1 < |bytes|
      invariant index <= |bytes| && sum == initial + WordSum(bytes) - WordSum(bytes[index..])
    {
      assert bytes[index..][2..] == bytes[index + 2..];
      sum := sum + Load16(bytes, index);
      index := index + 2;
    }
    if index < |bytes| {
      sum := sum + bytes[index] as int * 256;
    }
  }

  lemma FourWords(s: Bytes, at: nat)
    requires at + 8 <= |s|
    ensures WordSum(s[at..]) == Load16(s, at) + Load16(s, at + 2) + Load16(s, at + 4) + Load16(s, at + 6)
                             + WordSum(s[at + 8..])
  {
    OneWord(s, at);
    OneWord(s, at + 2);
    OneWord(s, at + 4);
    OneWord(s, at + 6);
  }

  lemma OneWord(s: Bytes, at: nat)
    requires at + 2 <= |s|
    ensures WordSum(s[at..]) == Load16(s, at) + WordSum(s[at + 2..])
  {
    assert s[at..][2..] == s[at + 2..];
  }

  // ----- folding -----

  /** The one's-complement value of a sum: zero only for zero, otherwise the residue of 65535 in 1..65535. */
  function Fold(sum: nat): (r: nat)
    ensures r <= ALL_ONES && (r == 0 <==> sum == 0)
  {
    if sum == 0 then 0 else 1 + (sum - 1) % ALL_ONES
  }

  lemma FoldStep(sum: nat)
    ensures Fold(sum % 65536 + sum / 65536) == Fold(sum)
  {
    var carry, rest := sum / 65536, sum % 65536;
    assert sum == ALL_ONES * carry + (rest + carry);
    if sum > 0 { ModShift(rest + carry - 1, carry); }
  }

  lemma {:induction false} ModShift(c: nat, q: nat)
    ensures (ALL_ONES * q + c) % ALL_ONES == c % ALL_ONES
  {
  }

  /** End-around carry terminates in the one's-complement value of the sum. */
  method FoldChecksum(sum: nat) returns (r: nat)
    ensures r == Fold(sum)
  {
    r := sum;
    while r / 65536 != 0
      invariant Fold(r) == Fold(sum)
      decreases r
    {
      FoldStep(r);
      r := r % 65536 + r / 65536;
    }
  }

  /** A sum completed with the complement of its folded value folds to all ones. */
  lemma ComplementCompletes(sum: nat)
    ensures Fold(sum + (ALL_ONES - Fold(sum))) == ALL_ONES
    ensures sum > 0 ==> Fold(sum + ALL_ONES) == Fold(sum)
  {
    if sum > 0 {
      var q := (sum - 1) / ALL_ONES;
      assert sum + (ALL_ONES - Fold(sum)) - 1 == ALL_ONES * q + (ALL_ONES - 1);
      ModShift(ALL_ONES - 1, q);
      ModShift(sum - 1, 1);
    }
  }

  /** Folding part of a sum first changes nothing. */
  lemma FoldAbsorbs(a: nat, b: nat)
    ensures Fold(a + Fold(b)) == Fold(a + b)
  {
    if b > 0 {
      var q := (b - 1) / ALL_ONES;
      assert a + b - 1 == ALL_ONES * q + (a + Fold(b) - 1);
      ModShift(a + Fold(b) - 1, q);
    }
  }

  /** Filling a zero checksum field with the complement, or with all ones when the complement is zero,
      makes the whole sum fold to all ones. */
  lemma FilledFieldCompletes(part: Bytes, at: nat, other: nat, value: nat)
    requires at % 2 == 0 && at + 2 <= |part| && Load16(part, at) == 0
    requires var c := ALL_ONES - Fold(other + WordSum(part)); value == c || (c == 0 && value == ALL_ONES)
    ensures Fold(other + WordSum(Stored16(part, at, value))) == ALL_ONES
  {
    hide WordSum, Fold, Load16, Stored16;
    StoredSum(part, at, value);
    ComplementCompletes(other + WordSum(part));
  }

  lemma StoredTwice(s: Bytes, at: nat, v: nat, w: nat)
    requires at + 2 <= |s| && v < 65536 && w < 65536
    ensures Stored16(Stored16(s, at, v), at, w) == Stored16(s, at, w)
  {
  }

  /** A field that holds a folded sum counts for that sum. */
  lemma FoldedField(part: Bytes, at: nat, other: nat)
    requires at % 2 == 0 && at + 2 <= |part| && Load16(part, at) == Fold(other)
    ensures Fold(WordSum(part)) == Fold(other + WordSum(Stored16(part, at, 0)))
  {
    hide WordSum, Fold, Stored16, Load16;
    StoredSum(part, at, 0);
    FoldAbsorbs(WordSum(Stored16(part, at, 0)), other);
  }

  lemma StoredSuffix(s: Bytes, from: nat, at: nat, v: nat)
    requires from + at + 2 <= |s| && v < 65536
    ensures Stored16(s, from + at, v)[from..] == Stored16(s[from..], at, v)
  {
  }

  lemma StoredPrefix(s: Bytes, n: nat, at: nat, v: nat)
    requires at + 2 <= n <= |s| && v < 65536
    ensures Stored16(s, at, v)[..n] == Stored16(s[..n], at, v)
  {
  }

  // ----- packets -----

  predicate IsIpv4(p: Bytes)
  {
    |p| > 0 && 0x40 <= p[0] < 0x50
  }

  function IpHeaderLength(p: Bytes): (n: nat)
  {
    if IsIpv4(p) then (p[0] as int - 0x40) * 4 else 40
  }

  /** The packet holds the addresses of its IP header. */
  predicate HasAddresses(p: Bytes)
  {
    |p| >= if IsIpv4(p) then 20 else 40
  }

  /** The packet holds a whole IP header. */
  predicate HasIpHeader(p: Bytes): (r: bool)
    ensures r ==> HasAddresses(p) && IpHeaderLength(p) <= |p|
  {
    |p| >= 20 && 20 <= IpHeaderLength(p) <= |p|
  }

  function IpProtocol(p: Bytes): (r: Byte)
    requires |p| >= 20
  {
    if IsIpv4(p) then p[9] else p[6]
  }

  function PseudoSum(p: Bytes, protocol: Byte, length: nat): (sum: nat)
    requires HasAddresses(p)
  {
    if IsIpv4(p) then protocol as int + WordSum(p[12..20]) + length
    else protocol as int + WordSum(p[8..40]) + length / 65536 + length % 65536
  }

  /** The pseudo header of section 3.1 of RFC 793: addresses, a zero octet, the protocol and a 16-bit length; and that
      of section 8.1 of RFC 8200: addresses, a 32-bit length, three zero octets and the protocol. */
  function PseudoHeader(p: Bytes, protocol: Byte, length: nat): (h: Bytes)
    requires HasAddresses(p) && length < if IsIpv4(p) then 65536 else TWO_32
  {
    if IsIpv4(p) then p[12..20] + [0, protocol, length / 256, length % 256]
    else p[8..40] + [length / 0x100_0000, length / 0x1_0000 % 256, length / 256 % 256, length % 256, 0, 0, 0, protocol]
  }

  /** What is summed is the pseudo header, octet by octet. */
  lemma PseudoSumIsOfHeader(p: Bytes, protocol: Byte, length: nat)
    requires HasAddresses(p) && length < if IsIpv4(p) then 65536 else TWO_32
    ensures PseudoSum(p, protocol, length) == WordSum(PseudoHeader(p, protocol, length))
  {
    if IsIpv4(p) {
      var rest: Bytes := [0, protocol, length / 256, length % 256];
      WordSumConcat(p[12..20], rest);
      assert rest[2..] == [length / 256, length % 256] && rest[2..][2..] == [];
      assert WordSum(rest[2..]) == length;
    } else {
      var rest: Bytes :=
        [length / 0x100_0000, length / 0x1_0000 % 256, length / 256 % 256, length % 256, 0, 0, 0, protocol];
      WordSumConcat(p[8..40], rest);
      FourWordsOfLength(rest, length, protocol);
    }
  }

  lemma FourWordsOfLength(s: Bytes, length: nat, protocol: Byte)
    requires length < TWO_32
    requires s == [length / 0x100_0000, length / 0x1_0000 % 256, length / 256 % 256, length % 256, 0, 0, 0, protocol]
    ensures WordSum(s) == length / 65536 + length % 65536 + protocol as int
  {
    assert s[2..] == [length / 256 % 256, length % 256, 0, 0, 0, protocol];
    assert s[2..][2..] == [0, 0, 0, protocol] && s[2..][2..][2..] == [0, protocol] && s[2..][2..][2..][2..] == [];
    assert WordSum(s[2..][2..][2..]) == protocol as int;
    assert WordSum(s[2..][2..]) == protocol as int;
    var high := length / 65536;
    assert length / 0x100_0000 == high / 256;
    assert length / 256 % 256 * 256 + length % 256 == length % 65536;
  }

  /** So a packet passes the check exactly when pseudo header and transport part, written one after the other, sum to
      all ones. */
  lemma TransportSumIsOfOctets(p: Bytes)
    requires HasAddresses(p) && IpHeaderLength(p) <= |p|
    requires |p| - IpHeaderLength(p) < if IsIpv4(p) then 65536 else TWO_32
    ensures var ip := IpHeaderLength(p);
            TransportSumsToOnes(p) <==> Fold(WordSum(PseudoHeader(p, IpProtocol(p), |p| - ip) + p[ip..])) == ALL_ONES
  {
    hide WordSum, Fold, PseudoSum;
    var h := PseudoHeader(p, IpProtocol(p), |p| - IpHeaderLength(p));
    PseudoSumIsOfHeader(p, IpProtocol(p), |p| - IpHeaderLength(p));
    WordSumConcat(h, p[IpHeaderLength(p)..]);
  }

  method PseudoHeaderSum(p: Bytes, protocol: Byte, length: nat) returns (sum: nat)
    requires HasAddresses(p)
    ensures sum == PseudoSum(p, protocol, length)
  {
    if IsIpv4(p) {
      sum := ChecksumAdd(p[12..20], protocol);
      sum := sum + length;
    } else {
      sum := ChecksumAdd(p[8..40], protocol);
      sum := sum + length / 65536;
      sum := sum + length % 65536;
    }
  }

  /** The pseudo header and the transport part sum to all ones. */
  ghost predicate TransportSumsToOnes(p: Bytes)
    requires HasAddresses(p) && IpHeaderLength(p) <= |p|
  {
    var ip := IpHeaderLength(p);
    Fold(PseudoSum(p, IpProtocol(p), |p| - ip) + WordSum(p[ip..])) == ALL_ONES
  }

  /** The IPv4 header sums to all ones. */
  ghost predicate HeaderSumsToOnes(p: Bytes)
    requires HasIpHeader(p)
  {
    IsIpv4(p) ==> Fold(WordSum(p[..IpHeaderLength(p)])) == ALL_ONES
  }

  /** A packet shorter than its header is refused; of any other the addresses are read, whatever header length it
      states. */
  method TransportChecksumValid(p: Bytes) returns (r: bool)
    requires IpHeaderLength(p) <= |p| ==> HasAddresses(p)
    ensures r <==> IpHeaderLength(p) <= |p| && TransportSumsToOnes(p)
  {
    var ip := IpHeaderLength(p);
    if |p| < ip { return false; }
    var sum := PseudoHeaderSum(p, IpProtocol(p), |p| - ip);
    sum := ChecksumAdd(p[ip..], sum);
    var folded := FoldChecksum(sum);
    return folded == ALL_ONES;
  }
}
