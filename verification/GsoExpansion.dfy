/**
 Cutting one large offloaded TCP or UDP packet into the segments it stands for, with lengths,
 sequence numbers, flags and checksums of their own.
 */
module GsoExpansion {
  import opened Octets
  import opened Checksum

  const GSO_NONE := 0
  const GSO_TCP4 := 1
  const GSO_TCP6 := 4
  const GSO_UDP := 5

  datatype Virtio = Virtio(needsChecksum: bool, gsoType: nat, headerLength: nat, gsoSize: nat,
                           checksumStart: nat, checksumOffset: nat)

  // ----- length and checksum fields -----

  function WithIpLength(s: Bytes, total: nat): (r: Bytes)
    requires HasIpHeader(s) && (IsIpv4(s) || total >= 40)
    ensures |r| == |s|
  {
    if IsIpv4(s) then
      var z := Stored16(Stored16(s, 2, total % 65536), 10, 0);
      Stored16(z, 10, ALL_ONES - Fold(WordSum(z[..IpHeaderLength(s)])))
    else Stored16(s, 4, (total - 40) % 65536)
  }

  /** Positions that a new length rewrites. */
  predicate LengthField(ipv4: bool, i: int)
  {
    if ipv4 then i == 2 || i == 3 || i == 10 || i == 11 else i == 4 || i == 5
  }

  lemma IpLengthFrame(s: Bytes, total: nat)
    requires HasIpHeader(s) && (IsIpv4(s) || total >= 40)
    ensures var r := WithIpLength(s, total);
            && (forall i :: 0 <= i < |s| && !LengthField(IsIpv4(s), i) ==> r[i] == s[i])
            && IsIpv4(r) == IsIpv4(s) && HasIpHeader(r) && IpHeaderLength(r) == IpHeaderLength(s)
            && IpProtocol(r) == IpProtocol(s)
            && (IsIpv4(s) ==> Load16(r, 2) == total % 65536)
            && (!IsIpv4(s) ==> Load16(r, 4) == (total - 40) % 65536)
  {
    hide WordSum, Fold;
  }

  /** After a new length the IPv4 header sums to all ones. */
  lemma IpLengthSums(s: Bytes, total: nat)
    requires HasIpHeader(s) && (IsIpv4(s) || total >= 40)
    ensures HasIpHeader(WithIpLength(s, total)) && HeaderSumsToOnes(WithIpLength(s, total))
  {
    hide WordSum, Fold, Stored16;
    IpLengthFrame(s, total);
    if IsIpv4(s) {
      var n := IpHeaderLength(s);
      var z := Stored16(Stored16(s, 2, total % 65536), 10, 0);
      var value := ALL_ONES - Fold(WordSum(z[..n]));
      StoredPrefix(z, n, 10, value);
      FilledFieldCompletes(z[..n], 10, 0, value);
    }
  }

  function ChecksumField(protocol: Byte): (r: nat)
  {
    if protocol == TCP then 16 else 6
  }

  /** What goes into the checksum field over a transport part whose field is zero; zero is sent as all ones in UDP. */
  function ChecksumValue(pseudo: nat, part: Bytes, protocol: Byte): (v: nat)
    ensures v <= ALL_ONES
  {
    var value := ALL_ONES - Fold(pseudo + WordSum(part));
    if protocol == UDP && value == 0 then ALL_ONES else value
  }

  function Checksummed(s: Bytes, protocol: Byte): (r: Bytes)
    requires HasIpHeader(s) && IpHeaderLength(s) + ChecksumField(protocol) + 2 <= |s|
    ensures |r| == |s|
  {
    var ip := IpHeaderLength(s);
    var field := ip + ChecksumField(protocol);
    var z := Stored16(s, field, 0);
    Stored16(z, field, ChecksumValue(PseudoSum(s, protocol, |s| - ip), z[ip..], protocol))
  }

  /** The transport part of the finished packet. */
  lemma ChecksummedPart(s: Bytes, protocol: Byte, ip: nat, at: nat) returns (part: Bytes, value: nat)
    requires HasIpHeader(s) && ip == IpHeaderLength(s) && at == ChecksumField(protocol) && ip + at + 2 <= |s|
    ensures |part| == |s| - ip && part == Stored16(s, ip + at, 0)[ip..] && part == Stored16(s[ip..], at, 0)
    ensures value == ChecksumValue(PseudoSum(s, protocol, |s| - ip), part, protocol)
    ensures Checksummed(s, protocol) == Stored16(Stored16(s, ip + at, 0), ip + at, value)
    ensures Checksummed(s, protocol)[ip..] == Stored16(part, at, value)
  {
    hide WordSum, Fold, PseudoSum, Stored16, ChecksumValue, HasIpHeader, IpHeaderLength, Load16;
    var z := Stored16(s, ip + at, 0);
    part := z[ip..];
    value := ChecksumValue(PseudoSum(s, protocol, |s| - ip), part, protocol);
    StoredSuffix(s, ip, at, 0);
    StoredSuffix(z, ip, at, value);
  }

  /** A packet's sum from the sums of its parts. */
  lemma SumsOfParts(p: Bytes, ip: nat, protocol: Byte, part: Bytes)
    requires HasIpHeader(p) && ip == IpHeaderLength(p) && protocol == IpProtocol(p) && p[ip..] == part
    ensures TransportSumsToOnes(p) <==> Fold(PseudoSum(p, protocol, |p| - ip) + WordSum(part)) == ALL_ONES
  {
    hide WordSum, Fold, PseudoSum;
  }

  lemma ValueCompletes(part: Bytes, at: nat, pseudo: nat, protocol: Byte)
    requires at % 2 == 0 && at + 2 <= |part| && Load16(part, at) == 0
    ensures Fold(pseudo + WordSum(Stored16(part, at, ChecksumValue(pseudo, part, protocol)))) == ALL_ONES
    ensures protocol == UDP ==> ChecksumValue(pseudo, part, protocol) != 0
  {
    hide WordSum, Fold, Stored16, Load16;
    FilledFieldCompletes(part, at, pseudo, ChecksumValue(pseudo, part, protocol));
  }

  /** Only the checksum field changes. */
  lemma ChecksummedFrame(s: Bytes, protocol: Byte)
    requires HasIpHeader(s) && IpHeaderLength(s) + ChecksumField(protocol) + 2 <= |s|
    ensures var r, field := Checksummed(s, protocol), IpHeaderLength(s) + ChecksumField(protocol);
            && (forall i :: 0 <= i < |s| && i != field && i != field + 1 ==> r[i] == s[i])
            && IsIpv4(r) == IsIpv4(s) && HasIpHeader(r) && IpHeaderLength(r) == IpHeaderLength(s)
            && IpProtocol(r) == IpProtocol(s)
            && (HeaderSumsToOnes(s) ==> HeaderSumsToOnes(r))
            && PseudoSum(r, protocol, |s| - IpHeaderLength(s)) == PseudoSum(s, protocol, |s| - IpHeaderLength(s))
  {
    hide WordSum, Fold;
    var r, ip := Checksummed(s, protocol), IpHeaderLength(s);
    assert r[..ip] == s[..ip];
    if IsIpv4(s) {
      assert r[12..20] == s[12..20];
    } else {
      assert r[8..40] == s[8..40];
    }
  }

  /** The finished packet passes the receiver's check, and a UDP checksum is never zero
      (the zero rule of RFC 768). */
  lemma ChecksummedIsValid(s: Bytes, protocol: Byte)
    requires HasIpHeader(s) && IpHeaderLength(s) + ChecksumField(protocol) + 2 <= |s| && protocol == IpProtocol(s)
    ensures HasIpHeader(Checksummed(s, protocol)) && TransportSumsToOnes(Checksummed(s, protocol))
    ensures protocol == UDP ==> Load16(Checksummed(s, protocol), IpHeaderLength(s) + 6) != 0
  {
    hide WordSum, Fold, PseudoSum, Stored16, IpHeaderLength, IsIpv4, IpProtocol, HasIpHeader, Checksummed,
      ChecksumValue, TransportSumsToOnes, Load16;
    ChecksummedFrame(s, protocol);
    var ip, at := IpHeaderLength(s), ChecksumField(protocol);
    var part, value := ChecksummedPart(s, protocol, ip, at);
    ValueCompletes(part, at, PseudoSum(s, protocol, |s| - ip), protocol);
    SumsOfParts(Checksummed(s, protocol), ip, protocol, Stored16(part, at, value));
  }

  // ----- the segments -----

  /** How a large packet is cut: `ip` and `transport` octets of headers, then `size` octets at a time. */
  datatype Cut = Cut(ip: nat, transport: nat, tcp: bool, size: nat)

  /** The packet can be cut this way. */
  predicate Cuttable(p: Bytes, c: Cut)
  {
    && HasIpHeader(p) && c.ip == IpHeaderLength(p) && c.size > 0
    && (if c.tcp then IpProtocol(p) == TCP && c.transport >= 20 else IpProtocol(p) == UDP && c.transport == 8)
    && c.ip + c.transport <= |p|
  }

  function Headers(c: Cut): (n: nat)
  {
    c.ip + c.transport
  }

  function ChunkLength(p: Bytes, c: Cut, offset: nat): (n: nat)
    requires Cuttable(p, c) && Headers(c) + offset <= |p|
    ensures n <= c.size && Headers(c) + offset + n <= |p|
  {
    var rest := |p| - Headers(c) - offset;
    if c.size < rest then c.size else rest
  }

  function WithoutFinPush(flags: int): (r: int)
  {
    flags - flags % 2 - 8 * (flags / 8 % 2)
  }

  function WithoutCwr(flags: int): (r: int)
  {
    flags - 128 * (flags / 128 % 2)
  }

  function SegmentFlags(flags: Byte, first: bool, last: bool): (r: Byte)
  {
    var kept := if last then flags as int else WithoutFinPush(flags);
    if first then kept else WithoutCwr(kept)
  }

  /** The TCP flags by number: FIN 0, SYN 1, RST 2, PSH 3, ACK 4, URG 5, ECE 6, CWR 7. */
  predicate Flag(flags: int, k: nat)
    requires flags >= 0
  {
    if k == 0 then flags % 2 == 1 else Flag(flags / 2, k - 1)
  }

  /** Clearing one flag that is set. */
  lemma {:induction false} Cleared(flags: int, k: nat, j: nat)
    requires flags >= 0 && Flag(flags, k)
    ensures flags >= Power2(k) && (Flag(flags - Power2(k), j) <==> Flag(flags, j) && j != k)
    decreases k
  {
    if k == 0 {
      if j > 0 { assert (flags - 1) / 2 == flags / 2; }
    } else {
      Cleared(flags / 2, k - 1, if j == 0 then 0 else j - 1);
      assert (flags - Power2(k)) / 2 == flags / 2 - Power2(k - 1) && (flags - Power2(k)) % 2 == flags % 2;
    }
  }

  lemma FlagValues(flags: int)
    requires 0 <= flags < 256
    ensures (Flag(flags, 0) <==> flags % 2 == 1) && (Flag(flags, 3) <==> flags / 8 % 2 == 1)
    ensures Flag(flags, 7) <==> flags / 128 % 2 == 1
    ensures Power2(0) == 1 && Power2(3) == 8 && Power2(7) == 128
  {
    var x := flags / 2 / 2 / 2;
    assert x == flags / 8 && (Flag(flags / 2 / 2, 1) <==> Flag(x, 0));
    assert Flag(flags / 2, 2) <==> Flag(flags / 2 / 2, 1);
    var y := x / 2 / 2 / 2 / 2;
    assert y == flags / 128;
    assert Flag(x / 2 / 2 / 2, 1) <==> Flag(y, 0);
    assert Flag(x / 2 / 2, 2) <==> Flag(x / 2 / 2 / 2, 1);
    assert Flag(x / 2, 3) <==> Flag(x / 2 / 2, 2);
    assert Flag(x, 4) <==> Flag(x / 2, 3);
    assert Flag(flags / 2 / 2, 5) <==> Flag(x, 4);
    assert Flag(flags / 2, 6) <==> Flag(flags / 2 / 2, 5);
    assert Power2(5) == 32;
  }

  /** FIN and PSH are kept on the last segment only, CWR on the first only, every other flag on all of them. */
  lemma FlagsOfSegments(flags: Byte, first: bool, last: bool, k: nat)
    requires k < 8
    ensures Flag(SegmentFlags(flags, first, last), k) <==>
              Flag(flags, k) && (k == 0 || k == 3 ==> last) && (k == 7 ==> first)
  {
    hide Flag;
    WithoutFinPushFlags(flags, k);
    WithoutCwrFlags(if last then flags as int else WithoutFinPush(flags), k);
  }

  lemma WithoutFinPushFlags(f: int, k: nat)
    requires 0 <= f < 256
    ensures 0 <= WithoutFinPush(f) <= f && (Flag(WithoutFinPush(f), k) <==> Flag(f, k) && k != 0 && k != 3)
  {
    hide Flag;
    FlagValues(f);
    var g := f - f % 2;
    if Flag(f, 0) {
      Cleared(f, 0, k);
      Cleared(f, 0, 3);
    }
    FlagValues(g);
    if Flag(g, 3) { Cleared(g, 3, k); }
  }

  lemma WithoutCwrFlags(f: int, k: nat)
    requires 0 <= f < 256
    ensures 0 <= WithoutCwr(f) <= f && (Flag(WithoutCwr(f), k) <==> Flag(f, k) && k != 7)
  {
    hide Flag;
    FlagValues(f);
    if Flag(f, 7) { Cleared(f, 7, k); }
  }

  /** Headers and chunk as copied, before any field is rewritten. */
  function Copied(p: Bytes, c: Cut, offset: nat): (s: Bytes)
    requires Cuttable(p, c) && Headers(c) + offset <= |p|
    ensures |s| == Headers(c) + ChunkLength(p, c, offset)
    ensures HasIpHeader(s) && IsIpv4(s) == IsIpv4(p) && IpHeaderLength(s) == c.ip && IpProtocol(s) == IpProtocol(p)
    ensures forall i :: 0 <= i < Headers(c) ==> s[i] == p[i]
  {
    p[..Headers(c)] + p[Headers(c) + offset..Headers(c) + offset + ChunkLength(p, c, offset)]
  }

  /** The IP header of segment number `index` is complete. */
  function Addressed(p: Bytes, c: Cut, offset: nat, index: nat): (s: Bytes)
    requires Cuttable(p, c) && Headers(c) + offset <= |p|
    ensures |s| == Headers(c) + ChunkLength(p, c, offset)
  {
    var s := Copied(p, c, offset);
    WithIpLength(if IsIpv4(p) then Stored16(s, 4, (Load16(p, 4) + index) % 65536) else s, |s|)
  }

  /** The transport fields other than the checksum are complete. */
  function Sequenced(s: Bytes, p: Bytes, c: Cut, offset: nat, index: nat): (r: Bytes)
    requires Cuttable(p, c) && Headers(c) + offset <= |p|
    requires |s| == Headers(c) + ChunkLength(p, c, offset)
    ensures |r| == |s|
  {
    if c.tcp then
      var last := Headers(c) + offset + ChunkLength(p, c, offset) >= |p|;
      Stored32(s, c.ip + 4, Wrapped32(Load32(p, c.ip + 4) + offset))
        [c.ip + 13 := SegmentFlags(p[c.ip + 13], index == 0, last)]
    else Stored16(s, c.ip + 4, (8 + ChunkLength(p, c, offset)) % 65536)
  }

  function Segment(p: Bytes, c: Cut, offset: nat, index: nat): (r: Bytes)
    requires Cuttable(p, c) && Headers(c) + offset <= |p|
  {
    AddressedFrame(p, c, offset, index);
    SequencedFrame(Addressed(p, c, offset, index), p, c, offset, index);
    Checksummed(Sequenced(Addressed(p, c, offset, index), p, c, offset, index), IpProtocol(p))
  }

  lemma AddressedFrame(p: Bytes, c: Cut, offset: nat, index: nat)
    requires Cuttable(p, c) && Headers(c) + offset <= |p|
    ensures var s, r := Copied(p, c, offset), Addressed(p, c, offset, index);
            && (forall i :: 0 <= i < |r| && !LengthField(IsIpv4(p), i) && i != 4 && i != 5 ==> r[i] == s[i])
            && IsIpv4(r) == IsIpv4(p) && HasIpHeader(r) && IpHeaderLength(r) == c.ip
            && IpProtocol(r) == IpProtocol(p) && HeaderSumsToOnes(r)
            && (IsIpv4(p) ==> Load16(r, 2) == |r| % 65536 && Load16(r, 4) == (Load16(p, 4) + index) % 65536)
            && (!IsIpv4(p) ==> Load16(r, 4) == (|r| - 40) % 65536)
  {
    hide WordSum, Fold, WithIpLength, HeaderSumsToOnes, Copied;
    var s := Copied(p, c, offset);
    var numbered := if IsIpv4(p) then Stored16(s, 4, (Load16(p, 4) + index) % 65536) else s;
    IpLengthFrame(numbered, |s|);
    IpLengthSums(numbered, |s|);
  }

  /** Positions of the transport header that `Sequenced` rewrites. */
  predicate SequenceField(c: Cut, i: int)
  {
    if c.tcp then c.ip + 4 <= i < c.ip + 8 || i == c.ip + 13 else c.ip + 4 <= i < c.ip + 6
  }

  lemma SequencedFrame(s: Bytes, p: Bytes, c: Cut, offset: nat, index: nat)
    requires Cuttable(p, c) && Headers(c) + offset <= |p|
    requires |s| == Headers(c) + ChunkLength(p, c, offset)
    requires HasIpHeader(s) && IpHeaderLength(s) == c.ip && HeaderSumsToOnes(s)
    ensures var r := Sequenced(s, p, c, offset, index);
            && (forall i :: 0 <= i < |s| && !SequenceField(c, i) ==> r[i] == s[i])
            && IsIpv4(r) == IsIpv4(s) && HasIpHeader(r) && IpHeaderLength(r) == c.ip
            && IpProtocol(r) == IpProtocol(s) && HeaderSumsToOnes(r)
            && (c.tcp ==> Load32(r, c.ip + 4) == Wrapped32(Load32(p, c.ip + 4) + offset))
            && (!c.tcp ==> Load16(r, c.ip + 4) == (8 + ChunkLength(p, c, offset)) % 65536)
  {
    hide WordSum, Fold, ChunkLength;
    var r := Sequenced(s, p, c, offset, index);
    assert r[..c.ip] == s[..c.ip];
  }

  /** Every header position whose value a segment does not take over unchanged. */
  predicate Rewritten(c: Cut, ipv4: bool, i: int)
  {
    || LengthField(ipv4, i) || i == 4 || i == 5 || SequenceField(c, i)
    || i == c.ip + (if c.tcp then 16 else 6) || i == c.ip + (if c.tcp then 17 else 7)
  }

  /** A segment carries its chunk under the headers of the large packet, passes both checksum checks, and
      differs from the large packet's headers only where it must. */
  lemma SegmentIsSound(p: Bytes, c: Cut, offset: nat, index: nat)
    requires Cuttable(p, c) && Headers(c) + offset <= |p|
    ensures var r, n := Segment(p, c, offset, index), ChunkLength(p, c, offset);
            && |r| == Headers(c) + n && r[Headers(c)..] == p[Headers(c) + offset..Headers(c) + offset + n]
            && HasIpHeader(r) && HeaderSumsToOnes(r) && TransportSumsToOnes(r)
            && forall i :: 0 <= i < Headers(c) && !Rewritten(c, IsIpv4(p), i) ==> r[i] == p[i]
  {
    hide Addressed, Sequenced, Checksummed, HeaderSumsToOnes, TransportSumsToOnes, ChunkLength;
    var s := Addressed(p, c, offset, index);
    var t := Sequenced(s, p, c, offset, index);
    AddressedFrame(p, c, offset, index);
    SequencedFrame(s, p, c, offset, index);
    ChecksummedFrame(t, IpProtocol(p));
    ChecksummedIsValid(t, IpProtocol(p));
    var r := Segment(p, c, offset, index);
    forall i | Headers(c) <= i < |r| ensures r[i] == Copied(p, c, offset)[i] {
    }
    assert Copied(p, c, offset)[Headers(c)..] == r[Headers(c)..];
  }

  /** The fields a segment gets of its own. */
  lemma SegmentFieldsAre(p: Bytes, c: Cut, offset: nat, index: nat)
    requires Cuttable(p, c) && Headers(c) + offset <= |p|
    ensures var r, n := Segment(p, c, offset, index), ChunkLength(p, c, offset);
            && |r| == Headers(c) + n
            && (IsIpv4(p) ==> Load16(r, 2) == |r| % 65536 && Load16(r, 4) == (Load16(p, 4) + index) % 65536)
            && (!IsIpv4(p) ==> Load16(r, 4) == (|r| - 40) % 65536)
            && (c.tcp ==> Load32(r, c.ip + 4) == Wrapped32(Load32(p, c.ip + 4) + offset)
                          && r[c.ip + 13] == SegmentFlags(p[c.ip + 13], index == 0, Headers(c) + offset + n >= |p|))
            && (!c.tcp ==> Load16(r, c.ip + 4) == (8 + n) % 65536 && Load16(r, c.ip + 6) != 0)
  {
    hide Addressed, Checksummed, HeaderSumsToOnes, TransportSumsToOnes, ChunkLength, SegmentFlags, Load32, Wrapped32;
    var s := Addressed(p, c, offset, index);
    var t := Sequenced(s, p, c, offset, index);
    AddressedFrame(p, c, offset, index);
    SequencedFrame(s, p, c, offset, index);
    ChecksummedFrame(t, IpProtocol(p));
    ChecksummedIsValid(t, IpProtocol(p));
    if c.tcp { SameLoad32(t, Segment(p, c, offset, index), c.ip + 4); }
  }

  /** The segments from `offset` on, the first of them number `index`. */
  function Segments(p: Bytes, c: Cut, offset: nat, index: nat): (r: seq<Bytes>)
    requires Cuttable(p, c)
    decreases |p| - offset
  {
    if Headers(c) + offset >= |p| then []
    else [Segment(p, c, offset, index)] + Segments(p, c, offset + c.size, index + 1)
  }

  /** The octets after the headers, segment after segment. */
  function Bodies(segments: seq<Bytes>, headers: nat): (r: Bytes)
  {
    if |segments| == 0 then []
    else (if headers <= |segments[0]| then segments[0][headers..] else []) + Bodies(segments[1..], headers)
  }

  ghost predicate SoundSegment(s: Bytes, c: Cut)
  {
    Headers(c) < |s| <= Headers(c) + c.size && HasIpHeader(s) && HeaderSumsToOnes(s) && TransportSumsToOnes(s)
  }

  /** Every segment passes both checksum checks, and together they carry the payload once, in order. */
  lemma {:induction false} SegmentsCarryPayload(p: Bytes, c: Cut, offset: nat, index: nat)
    requires Cuttable(p, c) && Headers(c) + offset <= |p|
    ensures forall s :: s in Segments(p, c, offset, index) ==> SoundSegment(s, c)
    ensures Bodies(Segments(p, c, offset, index), Headers(c)) == p[Headers(c) + offset..]
    decreases |p| - offset
  {
    hide Segment, HasIpHeader, IpProtocol, IpHeaderLength;
    if Headers(c) + offset < |p| {
      SegmentIsSound(p, c, offset, index);
      var rest := Segments(p, c, offset + c.size, index + 1);
      if Headers(c) + offset + c.size <= |p| { SegmentsCarryPayload(p, c, offset + c.size, index + 1); }
      OneMore(p, c, offset, Segment(p, c, offset, index), rest);
    }
  }

  lemma OneMore(p: Bytes, c: Cut, offset: nat, s: Bytes, rest: seq<Bytes>)
    requires Cuttable(p, c) && Headers(c) + offset < |p| && SoundSegment(s, c)
    requires s[Headers(c)..] == p[Headers(c) + offset..Headers(c) + offset + ChunkLength(p, c, offset)]
    requires forall r :: r in rest ==> SoundSegment(r, c)
    requires if Headers(c) + offset + c.size <= |p|
             then Bodies(rest, Headers(c)) == p[Headers(c) + offset + c.size..] else rest == []
    ensures forall r :: r in [s] + rest ==> SoundSegment(r, c)
    ensures Bodies([s] + rest, Headers(c)) == p[Headers(c) + offset..]
  {
    hide Cuttable, HeaderSumsToOnes, TransportSumsToOnes, HasIpHeader;
    assert ([s] + rest)[1..] == rest;
  }

  // ----- packets that only need their checksum -----

  function WithPartialChecksum(p: Bytes, start: nat, field: nat, udp: bool): (r: Bytes)
    requires start <= |p| && field + 2 <= |p|
  {
    var value := ALL_ONES - Fold(WordSum(p[start..]));
    Stored16(p, field, if udp && value == 0 then ALL_ONES else value)
  }

  /** When the field holds the folded pseudo header, completing it makes the packet valid. */
  lemma PartialChecksumCompletes(p: Bytes)
    requires HasIpHeader(p)
    requires IpHeaderLength(p) + ChecksumField(IpProtocol(p)) + 2 <= |p|
    requires Load16(p, IpHeaderLength(p) + ChecksumField(IpProtocol(p)))
             == Fold(PseudoSum(p, IpProtocol(p), |p| - IpHeaderLength(p)))
    ensures var ip, protocol := IpHeaderLength(p), IpProtocol(p);
            WithPartialChecksum(p, ip, ip + ChecksumField(protocol), protocol == UDP) == Checksummed(p, protocol)
    ensures HasIpHeader(Checksummed(p, IpProtocol(p))) && TransportSumsToOnes(Checksummed(p, IpProtocol(p)))
  {
    hide WordSum, Fold, PseudoSum, Stored16, IpHeaderLength, IpProtocol, IsIpv4, Checksummed, TransportSumsToOnes,
      Load16;
    var ip, protocol := IpHeaderLength(p), IpProtocol(p);
    var at := ChecksumField(protocol);
    ChecksummedIsValid(p, protocol);
    var part, value := ChecksummedPart(p, protocol, ip, at);
    LoadedSuffix(p, ip, at);
    FoldedField(p[ip..], at, PseudoSum(p, protocol, |p| - ip));
    StoredTwice(p, ip + at, 0, value);
  }

  lemma LoadedSuffix(s: Bytes, from: nat, at: nat)
    requires from + at + 2 <= |s|
    ensures Load16(s[from..], at) == Load16(s, from + at)
  {
  }

  // ----- the code in place -----

  method Store16(a: array<Byte>, at: nat, v: nat)
    requires at + 2 <= a.Length && v < 65536
    modifies a
    ensures a[..] == Stored16(old(a[..]), at, v)
  {
    a[at] := v / 256;
    a[at + 1] := v % 256;
  }

  method Store32(a: array<Byte>, at: nat, v: nat)
    requires at + 4 <= a.Length && v < TWO_32
    modifies a
    ensures a[..] == Stored32(old(a[..]), at, v)
  {
    Store16(a, at, v / 65536);
    Store16(a, at + 2, v % 65536);
  }

  lemma LengthStoreFrame(s: Bytes, total: nat)
    requires HasIpHeader(s)
    ensures IpHeaderLength(Stored16(Stored16(s, 2, total % 65536), 10, 0)) == IpHeaderLength(s)
  {
    hide Stored16;
  }

  method SetIpLength(a: array<Byte>, total: nat)
    requires HasIpHeader(a[..]) && (IsIpv4(a[..]) || total >= 40)
    modifies a
    ensures a[..] == WithIpLength(old(a[..]), total)
  {
    hide WordSum, Fold, Stored16, IpHeaderLength;
    ghost var before := a[..];
    LengthStoreFrame(before, total);
    if IsIpv4(a[..]) {
      Store16(a, 2, total % 65536);
      Store16(a, 10, 0);
      var header := IpHeaderLength(a[..]);
      var sum := ChecksumAdd(a[..header], 0);
      assert a[..header] == a[..][..header];
      var folded := FoldChecksum(sum);
      Store16(a, 10, ALL_ONES - folded);
    } else {
      Store16(a, 4, (total - 40) % 65536);
    }
  }

  method FinishTransportChecksum(a: array<Byte>, ip: nat, protocol: Byte)
    requires HasIpHeader(a[..]) && ip == IpHeaderLength(a[..]) && ip + ChecksumField(protocol) + 2 <= a.Length
    modifies a
    ensures a[..] == Checksummed(old(a[..]), protocol)
  {
    hide WordSum, Fold, PseudoSum, Stored16, IpHeaderLength, HasIpHeader, IsIpv4, Checksummed, ChecksumValue;
    ghost var before := a[..];
    ghost var part, expected := ChecksummedPart(before, protocol, ip, ChecksumField(protocol));
    var field := ip + ChecksumField(protocol);
    Store16(a, field, 0);
    ZeroFieldFrame(before, protocol);
    var value := TransportChecksum(a[..], ip, protocol);
    Store16(a, field, value);
  }

  /** The checksum of a packet whose checksum field is zero. */
  method TransportChecksum(z: Bytes, ip: nat, protocol: Byte) returns (value: nat)
    requires HasIpHeader(z) && ip == IpHeaderLength(z)
    ensures value == ChecksumValue(PseudoSum(z, protocol, |z| - ip), z[ip..], protocol)
  {
    hide WordSum, Fold, PseudoSum, IsIpv4;
    var sum := PseudoHeaderSum(z, protocol, |z| - ip);
    sum := ChecksumAdd(z[ip..], sum);
    var folded := FoldChecksum(sum);
    value := ALL_ONES - folded;
    if protocol == UDP && value == 0 { value := ALL_ONES; }
  }

  lemma ZeroFieldFrame(s: Bytes, protocol: Byte)
    requires HasIpHeader(s) && IpHeaderLength(s) + ChecksumField(protocol) + 2 <= |s|
    ensures var z := Stored16(s, IpHeaderLength(s) + ChecksumField(protocol), 0);
            && HasIpHeader(z) && IpHeaderLength(z) == IpHeaderLength(s)
            && PseudoSum(z, protocol, |s| - IpHeaderLength(s)) == PseudoSum(s, protocol, |s| - IpHeaderLength(s))
  {
    hide WordSum, Stored16;
    var z := Stored16(s, IpHeaderLength(s) + ChecksumField(protocol), 0);
    if IsIpv4(s) {
      assert z[12..20] == s[12..20];
    } else {
      assert z[8..40] == s[8..40];
    }
  }

  /** How the request cuts the packet, or nothing when the request does not fit it. */
  function CutOf(v: Virtio, p: Bytes): (c: Option<Cut>)
    requires HasIpHeader(p)
  {
    var ip := IpHeaderLength(p);
    var tcp := v.gsoType == GSO_TCP4 || v.gsoType == GSO_TCP6;
    if (!tcp && v.gsoType != GSO_UDP) || v.gsoSize == 0 then None
    else if IpProtocol(p) != (if tcp then TCP else UDP) then None
    else if |p| < ip + (if tcp then 20 else 8) then None
    else
      var transport := if tcp then p[ip + 12] as int / 16 * 4 else 8;
      if transport < 8 || ip + transport > |p| then None else Some(Cut(ip, transport, tcp, v.gsoSize))
  }

  /** Which requests fit: TCP by type 1 or 4 for protocol 6, with the header length of the packet's own data offset; UDP
      by type 5 for protocol 17, with eight octets. */
  lemma RequestFits(v: Virtio, p: Bytes)
    requires HasIpHeader(p)
    ensures var ip := IpHeaderLength(p);
            var c := CutOf(v, p);
            && (IpProtocol(p) == 17 && v.gsoType == 5 && v.gsoSize > 0 && |p| >= ip + 8 ==>
                  c == Some(Cut(ip, 8, false, v.gsoSize)))
            && (IpProtocol(p) == 6 && v.gsoType in {1, 4} && v.gsoSize > 0 && |p| >= ip + 20
                && 8 <= p[ip + 12] as int / 16 * 4 <= |p| - ip ==>
                  c == Some(Cut(ip, p[ip + 12] as int / 16 * 4, true, v.gsoSize)))
            && (c.Some? ==> v.gsoSize > 0 && ((IpProtocol(p) == 17 && v.gsoType == 5)
                                              || (IpProtocol(p) == 6 && v.gsoType in {1, 4})))
  {
  }

  /** A TCP header to be cut is at least 20 octets long, as every TCP header is. */
  predicate ProperTcpOffset(v: Virtio, p: Bytes)
  {
    HasIpHeader(p) && CutOf(v, p).Some? && CutOf(v, p).value.tcp ==> CutOf(v, p).value.transport >= 20
  }

  method Address(out: array<Byte>, p: Bytes, c: Cut, offset: nat, index: nat)
    requires Cuttable(p, c) && Headers(c) + offset <= |p| && out[..] == Copied(p, c, offset)
    modifies out
    ensures out[..] == Addressed(p, c, offset, index)
  {
    hide WithIpLength, Copied;
    if IsIpv4(p) { Store16(out, 4, (Load16(p, 4) + index) % 65536); }
    SetIpLength(out, out.Length);
  }

  method Number(out: array<Byte>, p: Bytes, c: Cut, offset: nat, index: nat)
    requires Cuttable(p, c) && Headers(c) + offset <= |p| && out.Length == Headers(c) + ChunkLength(p, c, offset)
    modifies out
    ensures out[..] == Sequenced(old(out[..]), p, c, offset, index)
  {
    hide SegmentFlags, Stored16, Stored32, IpHeaderLength, HasIpHeader;
    if c.tcp {
      Store32(out, c.ip + 4, Wrapped32(Load32(p, c.ip + 4) + offset));
      var last := Headers(c) + offset + ChunkLength(p, c, offset) >= |p|;
      out[c.ip + 13] := SegmentFlags(p[c.ip + 13], index == 0, last);
    } else {
      Store16(out, c.ip + 4, (8 + ChunkLength(p, c, offset)) % 65536);
    }
  }

  method CutSegment(p: Bytes, c: Cut, offset: nat, index: nat) returns (s: Bytes)
    requires Cuttable(p, c) && Headers(c) + offset < |p|
    ensures s == Segment(p, c, offset, index)
  {
    hide Checksummed, IpHeaderLength, HeaderSumsToOnes, Addressed, Sequenced;
    var headers, chunk := Headers(c), ChunkLength(p, c, offset);
    var out := new Byte[headers + chunk](i requires 0 <= i < headers + chunk =>
      if i < headers then p[i] else p[offset + i]);
    assert out[..] == Copied(p, c, offset);
    Address(out, p, c, offset, index);
    AddressedFrame(p, c, offset, index);
    SequencedFrame(out[..], p, c, offset, index);
    Number(out, p, c, offset, index);
    FinishTransportChecksum(out, c.ip, IpProtocol(p));
    s := out[..];
  }

  method ExpandOffloaded(v: Virtio, packet: array<Byte>) returns (ok: bool, segments: seq<Bytes>)
    requires ProperTcpOffset(v, packet[..])
    modifies packet
    ensures !ok ==> segments == [] && packet[..] == old(packet[..])
    ensures ok ==> HasIpHeader(old(packet[..]))
    ensures ok && v.gsoType != GSO_NONE ==>
              && packet[..] == old(packet[..]) && CutOf(v, packet[..]).Some?
              && Cuttable(packet[..], CutOf(v, packet[..]).value)
              && segments == Segments(packet[..], CutOf(v, packet[..]).value, 0, 0)
    ensures !ok && v.gsoType != GSO_NONE && HasIpHeader(packet[..]) ==> CutOf(v, packet[..]).None?
    ensures ok && v.gsoType == GSO_NONE ==> segments == [packet[..]]
    ensures v.gsoType == GSO_NONE && HasIpHeader(old(packet[..])) ==>
              if !v.needsChecksum then ok && packet[..] == old(packet[..])
              else if v.checksumStart + v.checksumOffset + 2 > packet.Length || v.checksumStart >= packet.Length
              then !ok
              else ok && packet[..] == WithPartialChecksum(old(packet[..]), v.checksumStart,
                                                           v.checksumStart + v.checksumOffset,
                                                           IpProtocol(old(packet[..])) == UDP)
  {
    hide WordSum, Fold, Segment;
    var p := packet[..];
    ok, segments := false, [];
    if packet.Length < 20 { return; }
    var ip := IpHeaderLength(p);
    if ip < 20 || packet.Length < ip { return; }
    var protocol := IpProtocol(p);
    if v.gsoType == GSO_NONE {
      ok := CompleteChecksum(v, packet, protocol);
      if ok { segments := [packet[..]]; }
      return;
    }
    var cut := CutOf(v, p);
    if cut.None? { return; }
    segments := CutAll(p, cut.value);
    ok := true;
  }

  method CutAll(p: Bytes, c: Cut) returns (segments: seq<Bytes>)
    requires Cuttable(p, c)
    ensures segments == Segments(p, c, 0, 0)
  {
    hide Segment, HasIpHeader, IpHeaderLength, IpProtocol;
    var offset: nat, index: nat := 0, 0;
    segments := [];
    while Headers(c) + offset < |p|
      invariant segments + Segments(p, c, offset, index) == Segments(p, c, 0, 0)
      decreases |p| - offset
    {
      var s := CutSegment(p, c, offset, index);
      assert segments + ([s] + Segments(p, c, offset + c.size, index + 1))
          == (segments + [s]) + Segments(p, c, offset + c.size, index + 1);
      segments := segments + [s];
      offset, index := offset + c.size, index + 1;
    }
  }

  method CompleteChecksum(v: Virtio, packet: array<Byte>, protocol: Byte) returns (ok: bool)
    modifies packet
    ensures if !v.needsChecksum then ok && packet[..] == old(packet[..])
            else if v.checksumStart + v.checksumOffset + 2 > packet.Length || v.checksumStart >= packet.Length
            then !ok && packet[..] == old(packet[..])
            else ok && packet[..] == WithPartialChecksum(old(packet[..]), v.checksumStart,
                                                         v.checksumStart + v.checksumOffset, protocol == UDP)
  {
    hide WordSum, Fold, Stored16;
    if !v.needsChecksum { return true; }
    var start, field := v.checksumStart, v.checksumStart + v.checksumOffset;
    if field + 2 > packet.Length || start >= packet.Length { return false; }
    var sum := ChecksumAdd(packet[start..], 0);
    assert packet[start..] == packet[..][start..];
    var folded := FoldChecksum(sum);
    var value := ALL_ONES - folded;
    if protocol == UDP && value == 0 { value := ALL_ONES; }
    Store16(packet, field, value);
    return true;
  }
}
