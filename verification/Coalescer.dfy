/**
 Merging consecutive TCP segments of one flow into a large packet for the tunnel device, so that
 cutting the large packet gives the segments back.
 */
module Coalescer {
  import opened Octets
  import opened Checksum
  import opened GsoExpansion

  const MAXIMUM_FRAME := 65535
  const MAXIMUM_PARTS := 64
  const ACK := 16
  const PSH := 8

  // ----- which packets merge -----

  predicate HasPush(flags: Byte)
  {
    flags / 8 % 2 == 1
  }

  predicate HasAck(flags: Byte)
  {
    flags / 16 % 2 == 1
  }

  /** No flag other than ACK and PSH is set. */
  predicate OnlyAckOrPush(flags: Byte)
  {
    flags == 0 || flags == PSH || flags == ACK || flags == ACK + PSH
  }

  /** TCP over IPv4 without options or fragmentation, or TCP directly over IPv6. */
  predicate Candidate(p: Bytes)
  {
    && |p| >= 40
    && if IsIpv4(p) then
         p[0] == 0x45 && p[9] == TCP && p[7] == 0 && (p[6] == 0 || p[6] == 64 || p[6] == 128 || p[6] == 192)
       else 0x60 <= p[0] < 0x70 && |p| >= 60 && p[6] == TCP
  }

  function TcpLength(p: Bytes): (n: nat)
    requires Candidate(p)
  {
    p[IpHeaderLength(p) + 12] as int / 16 * 4
  }

  /** A candidate with a whole TCP header and some payload. */
  predicate Mergeable(p: Bytes)
  {
    Candidate(p) && TcpLength(p) >= 20 && IpHeaderLength(p) + TcpLength(p) < |p|
  }

  datatype Flow = Other | Tcp(ipv4: bool, addresses: Bytes, ports: int)

  function Addresses(p: Bytes, ipv4: bool): (a: Bytes)
    requires |p| >= if ipv4 then 20 else 40
  {
    if ipv4 then p[12..20] else p[8..40]
  }

  /** The flow of a data-bearing TCP segment; every other packet belongs to none. */
  function FlowOf(p: Bytes): (f: Flow)
  {
    if Mergeable(p) then Tcp(IsIpv4(p), Addresses(p, IsIpv4(p)), Load32(p, IpHeaderLength(p))) else Other
  }

  // ----- items -----

  datatype Item = Item(head: Bytes, payloads: seq<Bytes>, tcp: bool, ipv4: bool, ip: nat, transport: nat,
                       segment: nat, total: nat, nextSequence: nat, open: bool)

  function PlainItem(p: Bytes): (i: Item)
  {
    Item([], [p], false, false, 0, 0, 0, |p|, 0, false)
  }

  function NewItem(p: Bytes): (i: Item)
    requires Mergeable(p)
  {
    var ip := IpHeaderLength(p);
    var headers := ip + TcpLength(p);
    Item(p[..headers], [p[headers..]], true, IsIpv4(p), ip, TcpLength(p), |p| - headers, |p|,
         Wrapped32(Load32(p, ip + 4) + |p| - headers), p[ip + 13] == ACK)
  }

  /** The item's head can be read as a packet's headers. */
  predicate HeadReadable(i: Item)
  {
    i.tcp ==> && i.ip == (if i.ipv4 then 20 else 40) && i.transport >= 20 && |i.head| == i.ip + i.transport
  }

  function ItemFlow(i: Item): (f: Flow)
    requires HeadReadable(i)
  {
    if i.tcp then Tcp(i.ipv4, Addresses(i.head, i.ipv4), Load32(i.head, i.ip)) else Other
  }

  /** The IP headers agree in every field that is compared. */
  predicate SameIp(a: Bytes, b: Bytes, ipv4: bool)
    requires |a| >= (if ipv4 then 20 else 40) && |b| >= if ipv4 then 20 else 40
  {
    if ipv4 then
      && Addresses(a, true) == Addresses(b, true) && a[1] == b[1] && a[8] == b[8]
      && a[7] == 0 && (a[6] == 0 || a[6] == 64) && a[6] == b[6] && a[7] == b[7]
    else
      && Addresses(a, false) == Addresses(b, false) && a[0] == b[0] && a[1] == b[1] && a[7] == b[7]
  }

  /** The TCP headers agree in every field that is compared. */
  predicate SameTcp(a: Bytes, b: Bytes, ip: nat, transport: nat)
    requires transport >= 20 && |a| >= ip + transport && |b| >= ip + transport
  {
    && Load32(a, ip) == Load32(b, ip) && Load32(a, ip + 8) == Load32(b, ip + 8)
    && Load16(a, ip + 14) == Load16(b, ip + 14)
    && a[ip + 20..ip + transport] == b[ip + 20..ip + transport]
  }

  predicate CanAppend(i: Item, p: Bytes)
    requires Mergeable(p) && HeadReadable(i)
  {
    var ip := IpHeaderLength(p);
    && i.tcp && i.open && i.ipv4 == IsIpv4(p) && i.ip == ip && i.transport == TcpLength(p)
    && |p| - ip - i.transport <= i.segment
    && i.total + |p| - ip - i.transport <= MAXIMUM_FRAME && |i.payloads| < MAXIMUM_PARTS
    && SameIp(p, i.head, i.ipv4) && SameTcp(p, i.head, ip, i.transport)
    && Load32(p, ip + 4) == i.nextSequence && OnlyAckOrPush(p[ip + 13])
  }

  function WithPush(flags: Byte): (r: Byte)
  {
    if HasPush(flags) then flags else
      assert flags as int + 8 < 256; flags as int + 8
  }

  function Appended(i: Item, p: Bytes): (r: Item)
    requires Mergeable(p) && HeadReadable(i) && CanAppend(i, p)
  {
    var headers := i.ip + i.transport;
    var n := |p| - headers;
    var push := HasPush(p[i.ip + 13]);
    i.(payloads := i.payloads + [p[headers..]], total := i.total + n,
       nextSequence := Wrapped32(i.nextSequence + n),
       open := i.open && n >= i.segment && !push,
       head := if push then i.head[i.ip + 13 := WithPush(i.head[i.ip + 13])] else i.head)
  }

  // ----- what an item stands for -----

  /** Header positions in which merged segments may differ. */
  predicate Loose(ipv4: bool, ip: nat, k: int)
  {
    || 2 <= k < 6 || (ipv4 && 10 <= k < 12)
    || ip + 4 <= k < ip + 8 || k == ip + 12 || k == ip + 13 || ip + 16 <= k < ip + 20
  }

  /** Two header sequences agree wherever merging requires it. */
  ghost predicate Agree(a: Bytes, b: Bytes, ipv4: bool, ip: nat, headers: nat)
  {
    && headers <= |a| && headers <= |b|
    && forall k :: 0 <= k < headers && !Loose(ipv4, ip, k) ==> a[k] == b[k]
  }

  ghost predicate Shape(i: Item, os: seq<Bytes>)
  {
    && |os| == |i.payloads| > 0 && HeadReadable(i) && i.tcp
    && forall k :: 0 <= k < |os| ==>
         && Mergeable(os[k]) && IsIpv4(os[k]) == i.ipv4 && IpHeaderLength(os[k]) == i.ip
         && TcpLength(os[k]) == i.transport && i.payloads[k] == os[k][i.ip + i.transport..]
  }

  ghost predicate Sizes(i: Item)
    requires |i.payloads| > 0
  {
    var n := |i.payloads|;
    && i.segment == |i.payloads[0]| > 0 && |i.payloads[n - 1]| <= i.segment
    && (forall k :: 0 <= k < n - 1 ==> |i.payloads[k]| == i.segment)
    && i.total == i.ip + i.transport + |Joined(i.payloads)|
    && (n > 1 ==> i.total <= MAXIMUM_FRAME && n <= MAXIMUM_PARTS)
    && (i.open ==> |i.payloads[n - 1]| == i.segment)
  }

  ghost predicate HeadsAgree(i: Item, os: seq<Bytes>)
    requires Shape(i, os)
  {
    && (forall k :: 0 <= k < i.ip + i.transport && k != i.ip + 13 ==> i.head[k] == os[0][k])
    && forall k :: 0 <= k < |os| ==> Agree(os[k], i.head, i.ipv4, i.ip, i.ip + i.transport)
  }

  ghost predicate Numbered(i: Item, os: seq<Bytes>)
    requires Shape(i, os)
  {
    var first := Load32(os[0], i.ip + 4);
    && i.nextSequence == Wrapped32(first + |Joined(i.payloads)|)
    && forall k :: 0 <= k < |os| ==> Load32(os[k], i.ip + 4) == Wrapped32(first + |Joined(i.payloads[..k])|)
  }

  ghost predicate Flagged(i: Item, os: seq<Bytes>)
    requires Shape(i, os)
  {
    var n, f := |os|, i.ip + 13;
    && (n == 1 ==> i.head[f] == os[0][f])
    && (n > 1 ==> os[0][f] == ACK && i.head[f] as int == ACK + if HasPush(os[n - 1][f]) then PSH else 0)
    && (forall k :: 0 < k < n ==> OnlyAckOrPush(os[k][f]))
    && (forall k :: 0 <= k < n - 1 ==> !HasPush(os[k][f]))
    && (i.open ==> i.head[f] == ACK && !HasPush(os[n - 1][f]))
  }

  /** The item stands for these packets, in this order. */
  ghost predicate StandsFor(i: Item, os: seq<Bytes>)
  {
    if i.tcp then Shape(i, os) && Sizes(i) && HeadsAgree(i, os) && Numbered(i, os) && Flagged(i, os)
    else |os| == 1 && i == PlainItem(os[0]) && !Mergeable(os[0])
  }

  // ----- merging keeps it so -----

  lemma NewStandsFor(p: Bytes)
    requires Mergeable(p)
    ensures StandsFor(NewItem(p), [p])
  {
    hide Load32, Addresses, OnlyAckOrPush, HasPush, Candidate, TcpLength, IsIpv4, IpHeaderLength;
    MergeableStart(p);
    var i := NewItem(p);
    assert i.payloads[..0] == [];
    assert Joined(i.payloads) == i.payloads[0];
    if i.open { AckIsPlain(p[i.ip + 13]); }
  }

  lemma BytesOf16(a: Bytes, b: Bytes, at: nat)
    requires at + 2 <= |a| && at + 2 <= |b| && Load16(a, at) == Load16(b, at)
    ensures a[at] == b[at] && a[at + 1] == b[at + 1]
  {
  }

  lemma BytesOf32(a: Bytes, b: Bytes, at: nat)
    requires at + 4 <= |a| && at + 4 <= |b| && Load32(a, at) == Load32(b, at)
    ensures forall k :: at <= k < at + 4 ==> a[k] == b[k]
  {
    var x, y := a[at..at + 4], b[at..at + 4];
    NumberOfFour(x);
    NumberOfFour(y);
    assert Big16(x[0], x[1]) == Big16(y[0], y[1]) && Big16(x[2], x[3]) == Big16(y[2], y[3]);
    BytesOf16(x, y, 0);
    BytesOf16(x, y, 2);
  }

  lemma BytesOfSlice(a: Bytes, b: Bytes, lo: nat, hi: nat)
    requires lo <= hi <= |a| && hi <= |b| && a[lo..hi] == b[lo..hi]
    ensures forall k :: lo <= k < hi ==> a[k] == b[k]
  {
    forall k | lo <= k < hi ensures a[k] == b[k] {
      assert a[lo..hi][k - lo] == b[lo..hi][k - lo];
    }
  }

  lemma TcpAgrees(p: Bytes, head: Bytes, ipv4: bool, ip: nat, transport: nat)
    requires transport >= 20 && ip + transport <= |p| && ip + transport <= |head| && SameTcp(p, head, ip, transport)
    ensures forall k :: ip <= k < ip + transport && !Loose(ipv4, ip, k) ==> p[k] == head[k]
  {
    hide Load32, Load16;
    BytesOf32(p, head, ip);
    BytesOf32(p, head, ip + 8);
    BytesOf16(p, head, ip + 14);
    BytesOfSlice(p, head, ip + 20, ip + transport);
  }

  lemma Ipv4Agrees(p: Bytes, head: Bytes)
    requires |p| >= 40 && |head| >= 40 && SameIp(p, head, true) && p[0] == head[0] && p[9] == head[9]
    ensures forall k :: 0 <= k < 20 && !Loose(true, 20, k) ==> p[k] == head[k]
  {
    BytesOfSlice(p, head, 12, 20);
  }

  lemma Ipv6Agrees(p: Bytes, head: Bytes)
    requires |p| >= 40 && |head| >= 40 && SameIp(p, head, false) && p[6] == head[6]
    ensures forall k :: 0 <= k < 40 && !Loose(false, 40, k) ==> p[k] == head[k]
  {
    BytesOfSlice(p, head, 8, 40);
  }

  /** What every mergeable packet's IP header begins with. */
  lemma MergeableStart(p: Bytes)
    requires Mergeable(p)
    ensures if IsIpv4(p) then p[0] == 0x45 && p[9] == TCP && IpHeaderLength(p) == 20
            else p[6] == TCP && IpHeaderLength(p) == 40
    ensures |p| > IpHeaderLength(p) + TcpLength(p) >= 40
  {
  }

  lemma AppendAgrees(i: Item, os: seq<Bytes>, p: Bytes)
    requires Mergeable(p) && Shape(i, os) && HeadsAgree(i, os) && CanAppend(i, p)
    ensures Agree(p, i.head, i.ipv4, i.ip, i.ip + i.transport)
  {
    hide SameIp, SameTcp, TcpLength, Mergeable, IpHeaderLength, OnlyAckOrPush, IsIpv4;
    var o := os[0];
    assert Mergeable(o) && IsIpv4(o) == i.ipv4;
    MergeableStart(o);
    MergeableStart(p);
    TcpAgrees(p, i.head, i.ipv4, i.ip, i.transport);
    if i.ipv4 { Ipv4Agrees(p, i.head); } else { Ipv6Agrees(p, i.head); }
  }

  lemma JoinedMore(parts: seq<Bytes>, more: Bytes)
    ensures Joined(parts + [more]) == Joined(parts) + more
  {
    assert (parts + [more])[..|parts|] == parts;
  }

  /** What appending does, field by field. */
  lemma AppendedFields(i: Item, os: seq<Bytes>, p: Bytes)
    requires Mergeable(p) && Shape(i, os) && CanAppend(i, p)
    ensures i.ip + i.transport < |p| && i.ip == IpHeaderLength(p)
    ensures i.open && i.ipv4 == IsIpv4(p) && i.transport == TcpLength(p)
    ensures Load32(p, i.ip + 4) == i.nextSequence && OnlyAckOrPush(p[i.ip + 13])
    ensures var r, n := Appended(i, p), |p| - i.ip - i.transport;
            && r.payloads == i.payloads + [p[i.ip + i.transport..]]
            && r.tcp && r.ipv4 == i.ipv4 && r.ip == i.ip && r.transport == i.transport && r.segment == i.segment
            && HeadReadable(r) && r.nextSequence == Wrapped32(i.nextSequence + n)
            && r.head[i.ip + 13] == (if HasPush(p[i.ip + 13]) then WithPush(i.head[i.ip + 13]) else i.head[i.ip + 13])
            && (r.open ==> !HasPush(p[i.ip + 13]))
            && forall k :: 0 <= k < |i.head| && k != i.ip + 13 ==> r.head[k] == i.head[k]
  {
    hide SameIp, SameTcp, Load32, TcpLength, IpHeaderLength, OnlyAckOrPush, WithPush, HasPush, IsIpv4;
  }

  lemma AppendedShape(i: Item, os: seq<Bytes>, p: Bytes)
    requires Mergeable(p) && Shape(i, os) && CanAppend(i, p)
    ensures Shape(Appended(i, p), os + [p])
  {
    hide CanAppend, Appended, Mergeable, TcpLength, IpHeaderLength, IsIpv4;
    AppendedFields(i, os, p);
  }

  lemma AppendedSizes(i: Item, p: Bytes)
    requires Mergeable(p) && HeadReadable(i) && |i.payloads| > 0 && Sizes(i) && CanAppend(i, p)
    ensures Sizes(Appended(i, p))
  {
    hide SameIp, SameTcp, Load32, IpHeaderLength, Joined, IsIpv4, OnlyAckOrPush, WithPush, HasPush;
    JoinedMore(i.payloads, p[i.ip + i.transport..]);
  }

  lemma AppendedHeads(i: Item, os: seq<Bytes>, p: Bytes)
    requires Mergeable(p) && Shape(i, os) && HeadsAgree(i, os) && CanAppend(i, p)
    requires Shape(Appended(i, p), os + [p])
    ensures HeadsAgree(Appended(i, p), os + [p])
  {
    hide CanAppend, Appended, Mergeable, TcpLength, IpHeaderLength, IsIpv4, HasPush, WithPush;
    AppendedFields(i, os, p);
    AppendAgrees(i, os, p);
    var r, all := Appended(i, p), os + [p];
    forall k | 0 <= k < |all| ensures Agree(all[k], r.head, i.ipv4, i.ip, i.ip + i.transport) {
      assert Agree(all[k], i.head, i.ipv4, i.ip, i.ip + i.transport);
    }
  }

  lemma AppendedNumbered(i: Item, os: seq<Bytes>, p: Bytes)
    requires Mergeable(p) && Shape(i, os) && Numbered(i, os) && CanAppend(i, p)
    requires Shape(Appended(i, p), os + [p])
    ensures Numbered(Appended(i, p), os + [p])
  {
    hide CanAppend, Appended, Mergeable, TcpLength, IpHeaderLength, IsIpv4, HasPush, WithPush, Load32, Joined;
    AppendedFields(i, os, p);
    var r, all := Appended(i, p), os + [p];
    JoinedMore(i.payloads, p[i.ip + i.transport..]);
    assert Mergeable(os[0]);
    MergeableStart(os[0]);
    WrappedSum(Load32(os[0], i.ip + 4) + |Joined(i.payloads)|, |p| - i.ip - i.transport);
    assert r.payloads[..|os|] == i.payloads;
    assert i.payloads[..|os|] == i.payloads;
    forall k | 0 <= k < |os| ensures r.payloads[..k] == i.payloads[..k] {
    }
  }

  lemma PushedAck(flags: Byte)
    requires flags == ACK
    ensures WithPush(flags) == ACK + PSH
  {
  }

  lemma AppendedFlagged(i: Item, os: seq<Bytes>, p: Bytes)
    requires Mergeable(p) && Shape(i, os) && Flagged(i, os) && CanAppend(i, p)
    requires Shape(Appended(i, p), os + [p])
    ensures Flagged(Appended(i, p), os + [p])
  {
    hide CanAppend, Appended, Mergeable, TcpLength, IpHeaderLength, IsIpv4, HasPush, WithPush, Load32, OnlyAckOrPush;
    AppendedFields(i, os, p);
    PushedAck(i.head[i.ip + 13]);
  }

  lemma AppendedStandsFor(i: Item, os: seq<Bytes>, p: Bytes)
    requires Mergeable(p) && HeadReadable(i) && StandsFor(i, os) && CanAppend(i, p)
    ensures StandsFor(Appended(i, p), os + [p])
  {
    hide Sizes, HeadsAgree, Numbered, Flagged, CanAppend, Appended, Mergeable, TcpLength, IpHeaderLength, IsIpv4;
    assert i.tcp by { AppendNeedsTcp(i, p); }
    AppendedFields(i, os, p);
    AppendedShape(i, os, p);
    AppendedSizes(i, p);
    AppendedHeads(i, os, p);
    AppendedNumbered(i, os, p);
    AppendedFlagged(i, os, p);
  }

  lemma AppendNeedsTcp(i: Item, p: Bytes)
    requires Mergeable(p) && HeadReadable(i) && CanAppend(i, p)
    ensures i.tcp
  {
    hide SameIp, SameTcp, Load32, TcpLength, IpHeaderLength, OnlyAckOrPush, IsIpv4;
  }

  // ----- the frame written for an item, and what cutting it gives back -----

  function FrameHead(i: Item): (h: Bytes)
    requires HasIpHeader(i.head) && (IsIpv4(i.head) || i.total >= 40)
    requires IpHeaderLength(i.head) == i.ip <= i.total && i.ip + 18 <= |i.head|
  {
    IpLengthFrame(i.head, i.total);
    var h := WithIpLength(i.head, i.total);
    Stored16(h, i.ip + 16, Fold(PseudoSum(h, TCP, i.total - i.ip)))
  }

  function FrameVirtio(i: Item): (v: Virtio)
  {
    Virtio(true, if i.ipv4 then GSO_TCP4 else GSO_TCP6, i.ip + i.transport, i.segment % 65536, i.ip, 16)
  }

  function CutFor(i: Item): (c: Cut)
  {
    Cut(i.ip, i.transport, true, i.segment)
  }

  /** An item that merged several packets. */
  ghost predicate Merged(i: Item, os: seq<Bytes>)
  {
    StandsFor(i, os) && i.tcp && |os| > 1
  }

  lemma HeadIsHeader(i: Item, os: seq<Bytes>)
    requires Merged(i, os)
    ensures HasIpHeader(i.head) && IsIpv4(i.head) == i.ipv4 && IpHeaderLength(i.head) == i.ip
    ensures IpProtocol(i.head) == TCP && i.head[i.ip + 12] as int / 16 * 4 == i.transport
    ensures i.ip == (if i.ipv4 then 20 else 40) && i.transport >= 20 && i.total >= i.ip + i.transport == |i.head|
    ensures 0 < i.segment < 65536
  {
    hide Numbered, Flagged, Load32;
    var o := os[0];
    assert Mergeable(o) && i.head[0] == o[0] && i.head[6] == o[6] && i.head[9] == o[9];
    assert i.head[i.ip + 12] == o[i.ip + 12];
    PartAt(i.payloads, 0);
  }

  function Frame(i: Item): (r: Bytes)
    requires HasIpHeader(i.head) && (IsIpv4(i.head) || i.total >= 40)
    requires IpHeaderLength(i.head) == i.ip <= i.total && i.ip + 18 <= |i.head|
  {
    FrameHead(i) + Joined(i.payloads)
  }

  lemma FrameHeadIs(i: Item, os: seq<Bytes>)
    requires Merged(i, os)
    ensures HasIpHeader(i.head) && (IsIpv4(i.head) || i.total >= 40)
    ensures IpHeaderLength(i.head) == i.ip <= i.total && i.ip + 18 <= |i.head|
    ensures |FrameHead(i)| == i.ip + i.transport
    ensures forall k :: 0 <= k < |i.head| && !LengthField(i.ipv4, k) && k != i.ip + 16 && k != i.ip + 17 ==>
              FrameHead(i)[k] == i.head[k]
  {
    hide StandsFor, WithIpLength, Fold, PseudoSum, Stored16;
    HeadIsHeader(i, os);
    IpLengthFrame(i.head, i.total);
  }

  lemma FrameCuts(i: Item, os: seq<Bytes>)
    requires Merged(i, os)
    ensures HasIpHeader(i.head) && (IsIpv4(i.head) || i.total >= 40)
    ensures IpHeaderLength(i.head) == i.ip <= i.total && i.ip + 18 <= |i.head|
    ensures HasIpHeader(Frame(i)) && IsIpv4(Frame(i)) == i.ipv4 && Cuttable(Frame(i), CutFor(i))
    ensures CutOf(FrameVirtio(i), Frame(i)) == Some(CutFor(i))
    ensures |Frame(i)| == i.ip + i.transport + |Joined(i.payloads)|
  {
    hide StandsFor, FrameHead, Joined;
    HeadIsHeader(i, os);
    FrameHeadIs(i, os);
    var f := Frame(i);
    assert f[0] == i.head[0] && f[9] == i.head[9] && f[6] == i.head[6] && f[i.ip + 12] == i.head[i.ip + 12];
  }

  // ----- where each payload lies -----

  function Offset(parts: seq<Bytes>, k: nat): (n: nat)
    requires k <= |parts|
  {
    |Joined(parts[..k])|
  }

  lemma {:induction false} PartAt(parts: seq<Bytes>, k: nat)
    requires k < |parts|
    ensures Offset(parts, k + 1) == Offset(parts, k) + |parts[k]| <= |Joined(parts)|
    ensures Joined(parts)[Offset(parts, k)..Offset(parts, k + 1)] == parts[k]
  {
    var n := |parts| - 1;
    assert parts[..k + 1][..k] == parts[..k];
    if k == n {
      assert parts[..k + 1] == parts;
    } else {
      PartAt(parts[..n], k);
      assert parts[..n][..k] == parts[..k] && parts[..n][..k + 1] == parts[..k + 1];
    }
  }

  /** Cutting at the segment size falls exactly between the payloads. */
  lemma CutsBetween(i: Item, os: seq<Bytes>, k: nat)
    requires Merged(i, os) && k < |os|
    ensures HasIpHeader(i.head) && (IsIpv4(i.head) || i.total >= 40)
    ensures IpHeaderLength(i.head) == i.ip <= i.total && i.ip + 18 <= |i.head|
    ensures var f, c, at := Frame(i), CutFor(i), Offset(i.payloads, k);
            && Cuttable(f, c) && Headers(c) + at < |f| && ChunkLength(f, c, at) == |i.payloads[k]|
            && f[Headers(c) + at..Headers(c) + at + |i.payloads[k]|] == i.payloads[k]
            && (k < |os| - 1 ==> Offset(i.payloads, k + 1) == at + c.size
                                 && Headers(c) + at + |i.payloads[k]| < |f|)
            && (k == |os| - 1 ==> Headers(c) + at + |i.payloads[k]| == |f|)
  {
    hide FrameHead, Joined, Numbered, HeadsAgree, Flagged, Mergeable, IpHeaderLength, IsIpv4, TcpLength;
    FrameCuts(i, os);
    PartAt(i.payloads, k);
    SlicePart(FrameHead(i), Joined(i.payloads), Offset(i.payloads, k), Offset(i.payloads, k + 1));
    PartsAreNotEmpty(i, os);
    if k < |os| - 1 {
      PartAt(i.payloads, k + 1);
    } else {
      assert i.payloads[..k + 1] == i.payloads;
    }
  }

  lemma PartsAreNotEmpty(i: Item, os: seq<Bytes>)
    requires Merged(i, os)
    ensures forall k :: 0 <= k < |os| ==> |i.payloads[k]| > 0
  {
    hide Numbered, HeadsAgree, Flagged, Sizes, IpHeaderLength, IsIpv4;
  }

  lemma SlicePart(head: Bytes, body: Bytes, lo: nat, hi: nat)
    requires lo <= hi <= |body|
    ensures (head + body)[|head| + lo..|head| + hi] == body[lo..hi]
  {
  }

  // ----- the round trip -----

  /** Header positions a merged segment need not get back: lengths, checksums, IPv4 identification or the low
      half of the IPv6 flow label, reserved bits, flags and urgent field. */
  predicate NotKept(ipv4: bool, ip: nat, k: int)
  {
    2 <= k < 6 || (ipv4 && 10 <= k < 12) || k == ip + 12 || k == ip + 13 || ip + 16 <= k < ip + 20
  }

  /** The segment `s` is the packet `o` again: payload, addresses, ports, sequence and acknowledgment numbers,
      window and options; its flags are `o`'s exactly when `o` carried ACK. */
  ghost predicate GivesBack(s: Bytes, o: Bytes, i: Item)
  {
    var h := i.ip + i.transport;
    && 20 <= i.transport && |s| == |o| >= h && s[h..] == o[h..]
    && (forall k :: 0 <= k < h && !NotKept(i.ipv4, i.ip, k) ==> s[k] == o[k])
    && s[i.ip + 12] / 16 == o[i.ip + 12] / 16
    && (s[i.ip + 13] == o[i.ip + 13] <==> HasAck(o[i.ip + 13]))
    && HasIpHeader(s) && HeaderSumsToOnes(s) && TransportSumsToOnes(s)
  }

  lemma FlagsGiveBack(head: Byte, o: Byte, first: bool, last: bool)
    requires head as int == ACK || head as int == ACK + PSH
    requires last ==> (head as int == ACK + PSH <==> HasPush(o))
    requires OnlyAckOrPush(o) && (!last ==> !HasPush(o))
    ensures SegmentFlags(head, first, last) == o <==> HasAck(o)
  {
    hide SegmentFlags, OnlyAckOrPush, HasPush, HasAck;
    AckOrPushValues(o);
    FlagBits(o);
    FlagsOfHead(head, first, last);
  }

  lemma FlagBits(o: Byte)
    requires o == 0 || o == 8 || o == 16 || o == 24
    ensures HasPush(o) <==> o == 8 || o == 24
    ensures HasAck(o) <==> o == 16 || o == 24
  {
  }

  lemma FlagsOfHead(head: Byte, first: bool, last: bool)
    requires head as int == ACK || head as int == ACK + PSH
    ensures SegmentFlags(head, first, last) as int == if last then head as int else ACK
  {
  }

  lemma AckOrPushValues(o: Byte)
    requires OnlyAckOrPush(o)
    ensures o == 0 || o == 8 || o == 16 || o == 24
  {
  }

  /** Positions outside the sequence number. */
  lemma PositionsGiveBack(i: Item, os: seq<Bytes>, k: nat, s: Bytes, f: Bytes)
    requires Merged(i, os) && k < |os| && |s| == |os[k]| && HeadsAgree(i, os) && |f| >= i.ip + i.transport
    requires forall j :: 0 <= j < i.ip + i.transport && !Rewritten(CutFor(i), i.ipv4, j) ==> s[j] == f[j]
    requires forall j :: 0 <= j < i.ip + i.transport && !LengthField(i.ipv4, j) && j != i.ip + 16 && j != i.ip + 17 ==>
               f[j] == i.head[j]
    ensures forall j :: 0 <= j < i.ip + i.transport && !NotKept(i.ipv4, i.ip, j) && !(i.ip + 4 <= j < i.ip + 8) ==>
              s[j] == os[k][j]
    ensures s[i.ip + 12] == i.head[i.ip + 12]
  {
    hide Mergeable, Numbered, Flagged, Sizes, IpHeaderLength, IsIpv4, TcpLength;
    assert Agree(os[k], i.head, i.ipv4, i.ip, i.ip + i.transport);
    forall j | 0 <= j < i.ip + i.transport && !NotKept(i.ipv4, i.ip, j) && !(i.ip + 4 <= j < i.ip + 8)
      ensures s[j] == os[k][j]
    {
      assert !Rewritten(CutFor(i), i.ipv4, j) && !Loose(i.ipv4, i.ip, j);
    }
  }

  lemma NumberGivesBack(i: Item, os: seq<Bytes>, k: nat, s: Bytes, f: Bytes)
    requires Merged(i, os) && k < |os| && |s| == |os[k]| && |f| >= i.ip + i.transport
    requires forall j :: 0 <= j < i.ip + i.transport && !LengthField(i.ipv4, j) && j != i.ip + 16 && j != i.ip + 17 ==>
               f[j] == i.head[j]
    requires |s| >= i.ip + 8 && Load32(s, i.ip + 4) == Wrapped32(Load32(f, i.ip + 4) + Offset(i.payloads, k))
    ensures forall j :: i.ip + 4 <= j < i.ip + 8 ==> s[j] == os[k][j]
  {
    hide Mergeable, Flagged, Sizes, IpHeaderLength, IsIpv4, TcpLength, Load32;
    assert forall j :: i.ip + 4 <= j < i.ip + 8 ==> f[j] == i.head[j] == os[0][j];
    SameLoad32(f, os[0], i.ip + 4);
    BytesOf32(s, os[k], i.ip + 4);
  }

  lemma FlagGivesBack(i: Item, os: seq<Bytes>, k: nat)
    requires Merged(i, os) && k < |os|
    ensures SegmentFlags(i.head[i.ip + 13], k == 0, k == |os| - 1) == os[k][i.ip + 13] <==> HasAck(os[k][i.ip + 13])
  {
    hide Mergeable, Numbered, Sizes, HeadsAgree, IpHeaderLength, IsIpv4, TcpLength, SegmentFlags, HasAck;
    SameOffset(i, os, k);
    var o := os[k][i.ip + 13];
    if k == 0 { AckIsPlain(o); }
    FlagsGiveBack(i.head[i.ip + 13], o, k == 0, k == |os| - 1);
  }

  lemma AckIsPlain(o: Byte)
    requires o == ACK
    ensures OnlyAckOrPush(o) && !HasPush(o)
  {
  }

  /** Segment number `k` of the frame is the packet that was merged at place `k`. */
  lemma SegmentGivesBack(i: Item, os: seq<Bytes>, k: nat)
    requires Merged(i, os) && k < |os|
    ensures HasIpHeader(i.head) && (IsIpv4(i.head) || i.total >= 40)
    ensures IpHeaderLength(i.head) == i.ip <= i.total && i.ip + 18 <= |i.head|
    ensures Cuttable(Frame(i), CutFor(i)) && Headers(CutFor(i)) + Offset(i.payloads, k) < |Frame(i)|
    ensures GivesBack(Segment(Frame(i), CutFor(i), Offset(i.payloads, k), k), os[k], i)
  {
    hide Mergeable, HeadsAgree, Numbered, Flagged, Sizes, IpHeaderLength, IsIpv4, TcpLength, FrameHead, Joined, Offset,
         Segment, SegmentFlags, HasAck, HeaderSumsToOnes, TransportSumsToOnes, Load32, HasIpHeader, ChunkLength,
         Cuttable, NotKept, Rewritten, LengthField;
    FrameCuts(i, os);
    CutsBetween(i, os, k);
    FrameHeadIs(i, os);
    HeadIsHeader(i, os);
    var f, c, at := Frame(i), CutFor(i), Offset(i.payloads, k);
    var s := Segment(f, c, at, k);
    SegmentIsSound(f, c, at, k);
    SegmentFieldsAre(f, c, at, k);
    SameOffset(i, os, k);
    PositionsGiveBack(i, os, k, s, f);
    NumberGivesBack(i, os, k, s, f);
    FlagGivesBack(i, os, k);
    FlagPosition(i);
  }

  lemma SameOffset(i: Item, os: seq<Bytes>, k: nat)
    requires Merged(i, os) && k < |os|
    ensures i.head[i.ip + 12] / 16 == os[k][i.ip + 12] / 16
    ensures |os[k]| == i.ip + i.transport + |i.payloads[k]|
  {
    hide HeadsAgree, Numbered, Flagged, Sizes;
    HeadIsHeader(i, os);
  }

  lemma FlagPosition(i: Item)
    requires HeadReadable(i) && i.tcp
    ensures !LengthField(i.ipv4, i.ip + 13) && !LengthField(i.ipv4, i.ip + 12)
  {
  }

  /** A segment of one octet over IPv4. */
  function OneOctet(sequence: Byte, flags: Byte): (p: Bytes)
    ensures |p| == 41
  {
    seq(41, k requires 0 <= k < 41 => OneOctetAt(sequence, flags, k))
  }

  function OneOctetAt(sequence: Byte, flags: Byte, k: nat): (b: Byte)
  {
    if k == 0 then 0x45 else if k == 9 then TCP else if k == 27 then sequence else if k == 32 then 0x50
    else if k == 33 then flags else 0
  }

  lemma OneOctetIs(sequence: Byte, flags: Byte)
    ensures var p := OneOctet(sequence, flags);
            && Mergeable(p) && IsIpv4(p) && IpHeaderLength(p) == 20 && TcpLength(p) == 20 && p[33] == flags
            && Load32(p, 24) == sequence as int
  {
    var p := OneOctet(sequence, flags);
    NumberOfFour(p[24..28]);
  }

  /** An acknowledged segment and, following it, one without ACK: they are merged, and the second comes back with
      other flags. */
  lemma AckIsAdded()
    ensures var a, b := OneOctet(0, ACK), OneOctet(1, 0);
            && Mergeable(a) && Mergeable(b) && HeadReadable(NewItem(a)) && CanAppend(NewItem(a), b)
            && Merged(Appended(NewItem(a), b), [a, b])
    ensures var i := Appended(NewItem(OneOctet(0, ACK)), OneOctet(1, 0));
            && HasIpHeader(i.head) && (IsIpv4(i.head) || i.total >= 40)
            && IpHeaderLength(i.head) == i.ip <= i.total && i.ip + 18 <= |i.head|
            && Cuttable(Frame(i), CutFor(i)) && Headers(CutFor(i)) + Offset(i.payloads, 1) < |Frame(i)|
            && var s := Segment(Frame(i), CutFor(i), Offset(i.payloads, 1), 1);
               |s| == 41 && s[33] != 0
  {
    hide Segment, Frame, GivesBack, StandsFor, Offset;
    var a, b := OneOctet(0, ACK), OneOctet(1, 0);
    OneOctetIs(0, ACK);
    OneOctetIs(1, 0);
    NewStandsFor(a);
    OneOctetsMerge();
    AppendedStandsFor(NewItem(a), [a], b);
    var i := Appended(NewItem(a), b);
    assert [a] + [b] == [a, b];
    SegmentGivesBack(i, [a, b], 1);
    assert GivesBack(Segment(Frame(i), CutFor(i), Offset(i.payloads, 1), 1), b, i);
    FlagsDiffer(Segment(Frame(i), CutFor(i), Offset(i.payloads, 1), 1), b, i);
  }

  lemma OneOctetsMerge()
    requires Mergeable(OneOctet(0, ACK)) && Mergeable(OneOctet(1, 0))
    ensures HeadReadable(NewItem(OneOctet(0, ACK))) && CanAppend(NewItem(OneOctet(0, ACK)), OneOctet(1, 0))
  {
    var a, b := OneOctet(0, ACK), OneOctet(1, 0);
    OneOctetIs(0, ACK);
    OneOctetIs(1, 0);
    hide OneOctet, Mergeable, IsIpv4, IpHeaderLength, TcpLength, Load32;
    var i := NewItem(a);
    SameHeaders();
  }

  lemma SameHeaders()
    requires Mergeable(OneOctet(0, ACK)) && Mergeable(OneOctet(1, 0))
    ensures var head, b := NewItem(OneOctet(0, ACK)).head, OneOctet(1, 0);
            |head| == 40 && SameIp(b, head, true) && SameTcp(b, head, 20, 20)
  {
    var head, b := NewItem(OneOctet(0, ACK)).head, OneOctet(1, 0);
    OneOctetIs(0, ACK);
    SameButTwo(head, b);
    hide Load32, OneOctet, NewItem, Mergeable;
    assert b[12..20] == head[12..20] && b[20 + 20..20 + 20] == head[20 + 20..20 + 20];
    SameLoad32(b, head, 20);
    SameLoad32(b, head, 28);
  }

  lemma SameButTwo(head: Bytes, b: Bytes)
    requires head == OneOctet(0, ACK)[..40] && b == OneOctet(1, 0)
    ensures forall k :: 0 <= k < 40 && k != 27 && k != 33 ==> b[k] == head[k]
    ensures b[6] == 0 && b[7] == 0
  {
  }

  lemma FlagsDiffer(s: Bytes, o: Bytes, i: Item)
    requires GivesBack(s, o, i) && i.ip == 20 && |o| == 41 && o[33] == 0
    ensures |s| == 41 && s[33] != 0
  {
  }

  lemma {:induction false} SegmentsGiveBack(i: Item, os: seq<Bytes>, k: nat)
    requires Merged(i, os) && k < |os|
    ensures HasIpHeader(i.head) && (IsIpv4(i.head) || i.total >= 40)
    ensures IpHeaderLength(i.head) == i.ip <= i.total && i.ip + 18 <= |i.head| && Cuttable(Frame(i), CutFor(i))
    ensures var all := Segments(Frame(i), CutFor(i), Offset(i.payloads, k), k);
            |all| == |os| - k && forall j :: k <= j < |os| ==> GivesBack(all[j - k], os[j], i)
    decreases |os| - k
  {
    hide StandsFor, GivesBack, Frame, Segment, Cuttable, HasIpHeader, IpHeaderLength, IsIpv4, Offset;
    MergedParts(i, os);
    CutsBetween(i, os, k);
    SegmentGivesBack(i, os, k);
    var all := Segments(Frame(i), CutFor(i), Offset(i.payloads, k), k);
    if k < |os| - 1 {
      SegmentsGiveBack(i, os, k + 1);
      var rest := Segments(Frame(i), CutFor(i), Offset(i.payloads, k + 1), k + 1);
      assert all == [all[0]] + rest;
    } else {
      SizeCovers(i, os);
    }
  }

  lemma SizeCovers(i: Item, os: seq<Bytes>)
    requires Merged(i, os)
    ensures i.segment >= |i.payloads[|os| - 1]|
  {
    hide Mergeable, HeadsAgree, Numbered, Flagged;
  }

  // ----- merging undoes cutting -----

  /** A large packet of the kind that merging makes: TCP without fragmentation, only ACK and perhaps PSH set. */
  predicate Ordinary(p: Bytes, c: Cut)
    requires Cuttable(p, c)
  {
    && c.tcp && Mergeable(p) && c.transport == TcpLength(p) && |p| <= MAXIMUM_FRAME
    && (IsIpv4(p) ==> p[6] == 0 || p[6] == 64)
    && (p[c.ip + 13] == ACK || p[c.ip + 13] as int == ACK + PSH)
  }

  /** The item after the segments before `offset` were merged, more of them to come. */
  ghost predicate Collects(i: Item, p: Bytes, c: Cut, offset: nat)
    requires Cuttable(p, c) && Ordinary(p, c)
  {
    && HeadReadable(i) && i.tcp && i.open && i.ipv4 == IsIpv4(p) && i.ip == c.ip && i.transport == c.transport
    && i.segment == c.size && 0 < offset && Headers(c) + offset <= |p|
    && i.total == Headers(c) + offset && Joined(i.payloads) == p[Headers(c)..Headers(c) + offset]
    && i.nextSequence == Wrapped32(Load32(p, c.ip + 4) + offset)
    && forall k :: 0 <= k < Headers(c) && !Rewritten(c, IsIpv4(p), k) ==> i.head[k] == p[k]
  }

  /** What a segment of such a packet looks like. */
  lemma SegmentLooks(p: Bytes, c: Cut, offset: nat, index: nat)
    requires Cuttable(p, c) && Ordinary(p, c) && Headers(c) + offset < |p|
    ensures var s, n := Segment(p, c, offset, index), ChunkLength(p, c, offset);
            && |s| == Headers(c) + n && n > 0 && s[Headers(c)..] == p[Headers(c) + offset..Headers(c) + offset + n]
            && (forall k :: 0 <= k < Headers(c) && !Rewritten(c, IsIpv4(p), k) ==> s[k] == p[k])
            && Load32(s, c.ip + 4) == Wrapped32(Load32(p, c.ip + 4) + offset)
            && (Headers(c) + offset + n < |p| ==> s[c.ip + 13] == ACK && n == c.size)
            && OnlyAckOrPush(s[c.ip + 13])
  {
    hide Segment, Mergeable, TcpLength, IpHeaderLength, IsIpv4, Load32, Wrapped32, SegmentFlags, Rewritten;
    SegmentIsSound(p, c, offset, index);
    SegmentFieldsAre(p, c, offset, index);
    var n := ChunkLength(p, c, offset);
    OrdinaryFlags(p[c.ip + 13], index == 0, Headers(c) + offset + n >= |p|);
  }

  lemma OrdinaryFlags(flags: Byte, first: bool, last: bool)
    requires flags == ACK || flags as int == ACK + PSH
    ensures SegmentFlags(flags, first, last) as int == if last then flags as int else ACK
    ensures OnlyAckOrPush(SegmentFlags(flags, first, last))
  {
    hide SegmentFlags;
    FlagsOfHead(flags, first, last);
  }

  lemma SegmentMerges(p: Bytes, c: Cut, s: Bytes)
    requires Cuttable(p, c) && Ordinary(p, c) && |s| > Headers(c)
    requires forall k :: 0 <= k < Headers(c) && !Rewritten(c, IsIpv4(p), k) ==> s[k] == p[k]
    ensures Mergeable(s) && IsIpv4(s) == IsIpv4(p) && IpHeaderLength(s) == c.ip && TcpLength(s) == c.transport
  {
    assert s[0] == p[0] && s[6] == p[6] && s[7] == p[7] && s[9] == p[9] && s[c.ip + 12] == p[c.ip + 12];
  }

  /** The headers of two segments agree in everything that is compared. */
  lemma SegmentsCompare(p: Bytes, c: Cut, s: Bytes, head: Bytes)
    requires Cuttable(p, c) && Ordinary(p, c) && |s| > Headers(c) && |head| == Headers(c)
    requires forall k :: 0 <= k < Headers(c) && !Rewritten(c, IsIpv4(p), k) ==> s[k] == p[k] && head[k] == p[k]
    ensures c.ip == (if IsIpv4(p) then 20 else 40) && c.transport >= 20
    ensures SameIp(s, head, IsIpv4(p)) && SameTcp(s, head, c.ip, c.transport)
  {
    hide Load32;
    MergeableStart(p);
    var ip := c.ip;
    SameLoad32(s, head, ip);
    SameLoad32(s, head, ip + 8);
    assert s[ip + 20..ip + c.transport] == head[ip + 20..ip + c.transport];
    if IsIpv4(p) {
      assert s[12..20] == head[12..20];
    } else {
      assert s[8..40] == head[8..40];
    }
  }

  lemma CollectingStarts(p: Bytes, c: Cut)
    requires Cuttable(p, c) && Ordinary(p, c) && Headers(c) + c.size < |p|
    ensures var s := Segment(p, c, 0, 0);
            Mergeable(s) && Collects(NewItem(s), p, c, c.size)
  {
    hide Segment, Mergeable, TcpLength, IpHeaderLength, IsIpv4, Load32, Wrapped32, Rewritten, OnlyAckOrPush;
    var s := Segment(p, c, 0, 0);
    SegmentLooks(p, c, 0, 0);
    SegmentMerges(p, c, s);
    WrappedSum(Load32(p, c.ip + 4) + 0, c.size);
    var i := NewItem(s);
    MergeableStart(s);
    assert Joined(i.payloads) == i.payloads[0];
  }

  lemma CollectingGoesOn(i: Item, p: Bytes, c: Cut, offset: nat, index: nat)
    requires Cuttable(p, c) && Ordinary(p, c) && Collects(i, p, c, offset) && Headers(c) + offset < |p|
    requires |i.payloads| < MAXIMUM_PARTS
    ensures var s, n := Segment(p, c, offset, index), ChunkLength(p, c, offset);
            && Mergeable(s) && HeadReadable(i) && CanAppend(i, s) && |Appended(i, s).payloads| == |i.payloads| + 1
            && Joined(Appended(i, s).payloads) == p[Headers(c)..Headers(c) + offset + n]
            && (Headers(c) + offset + n < |p| ==> Collects(Appended(i, s), p, c, offset + n))
  {
    hide Segment, Mergeable, TcpLength, IpHeaderLength, IsIpv4, Load32, Wrapped32, Rewritten, OnlyAckOrPush, HasPush,
         SameIp, SameTcp, WithPush, Joined, Addresses;
    var s, n := Segment(p, c, offset, index), ChunkLength(p, c, offset);
    SegmentLooks(p, c, offset, index);
    SegmentMerges(p, c, s);
    SegmentsCompare(p, c, s, i.head);
    assert CanAppend(i, s);
    WrappedSum(Load32(p, c.ip + 4) + offset, n);
    JoinedMore(i.payloads, s[Headers(c)..]);
    assert p[Headers(c)..Headers(c) + offset] + p[Headers(c) + offset..Headers(c) + offset + n]
        == p[Headers(c)..Headers(c) + offset + n];
    if Headers(c) + offset + n < |p| { AckIsPlain(s[c.ip + 13]); }
  }

  /** An item to which packets are appended one after the other, if each can be. */
  ghost function AppendAll(i: Item, packets: seq<Bytes>): (r: Option<Item>)
    decreases |packets|
  {
    if |packets| == 0 then Some(i)
    else if Mergeable(packets[0]) && HeadReadable(i) && CanAppend(i, packets[0])
    then AppendAll(Appended(i, packets[0]), packets[1..])
    else None
  }

  lemma {:induction false} CollectingEnds(i: Item, p: Bytes, c: Cut, offset: nat, index: nat)
    requires Cuttable(p, c) && Ordinary(p, c) && Collects(i, p, c, offset) && Headers(c) + offset < |p|
    requires |i.payloads| + |Segments(p, c, offset, index)| <= MAXIMUM_PARTS
    ensures var r := AppendAll(i, Segments(p, c, offset, index));
            && r.Some? && Joined(r.value.payloads) == p[Headers(c)..]
            && |r.value.payloads| == |i.payloads| + |Segments(p, c, offset, index)|
    decreases |p| - offset
  {
    hide Segment, Mergeable, Collects, Ordinary, CanAppend, Appended, HeadReadable, HasIpHeader, IpHeaderLength;
    var s, n := Segment(p, c, offset, index), ChunkLength(p, c, offset);
    var rest := Segments(p, c, offset + c.size, index + 1);
    assert Segments(p, c, offset, index) == [s] + rest;
    CollectingGoesOn(i, p, c, offset, index);
    assert ([s] + rest)[1..] == rest;
    if Headers(c) + offset + c.size < |p| {
      CollectingEnds(Appended(i, s), p, c, offset + c.size, index + 1);
    } else {
      assert rest == [];
      assert p[Headers(c)..Headers(c) + offset + n] == p[Headers(c)..];
    }
  }

  /** The segments of a large packet are merged again, every one of them, into one item with its whole payload: what
      cutting makes of a packet, coalescing undoes. */
  lemma MergingUndoesCutting(p: Bytes, c: Cut)
    requires Cuttable(p, c) && Ordinary(p, c) && Headers(c) + c.size < |p|
    requires |Segments(p, c, 0, 0)| <= MAXIMUM_PARTS
    ensures var all := Segments(p, c, 0, 0);
            && |all| > 1 && Mergeable(all[0])
            && var r := AppendAll(NewItem(all[0]), all[1..]);
               r.Some? && Joined(r.value.payloads) == p[Headers(c)..] && |r.value.payloads| == |all|
  {
    hide Segment, Mergeable, Collects, Ordinary, Cuttable, AppendAll;
    var s, rest := Segment(p, c, 0, 0), Segments(p, c, c.size, 1);
    assert Segments(p, c, 0, 0) == [s] + rest;
    CollectingStarts(p, c);
    assert ([s] + rest)[1..] == rest;
    CollectingEnds(NewItem(s), p, c, c.size, 1);
  }

  // ----- written frames -----

  datatype Written = Written(virtio: Virtio, bytes: Bytes)

  const NO_OFFLOAD := Virtio(false, GSO_NONE, 0, 0, 0, 0)

  /** What is handed to the device stands for `os`: a single packet verbatim, or a large packet that the device
      cuts into segments giving `os` back. */
  ghost predicate Delivers(w: Written, os: seq<Bytes>, i: Item)
  {
    if |os| == 1 then w == Written(NO_OFFLOAD, os[0])
    else
      && HasIpHeader(w.bytes) && CutOf(w.virtio, w.bytes) == Some(CutFor(i)) && Cuttable(w.bytes, CutFor(i))
      && var all := Segments(w.bytes, CutFor(i), 0, 0);
         |all| == |os| && forall k :: 0 <= k < |os| ==> GivesBack(all[k], os[k], i)
  }

  /** Cutting a merged frame gives back every packet that went into it, in order. */
  lemma MergedDelivers(i: Item, os: seq<Bytes>)
    requires Merged(i, os)
    ensures HasIpHeader(i.head) && (IsIpv4(i.head) || i.total >= 40)
    ensures IpHeaderLength(i.head) == i.ip <= i.total && i.ip + 18 <= |i.head|
    ensures Delivers(Written(FrameVirtio(i), Frame(i)), os, i)
  {
    hide StandsFor, GivesBack, Frame, Segments, Cuttable, HasIpHeader, IpHeaderLength, IsIpv4, CutOf;
    FrameCuts(i, os);
    assert i.payloads[..0] == [] by { MergedParts(i, os); }
    assert Offset(i.payloads, 0) == 0;
    SegmentsGiveBack(i, os, 0);
  }

  lemma MergedParts(i: Item, os: seq<Bytes>)
    requires Merged(i, os)
    ensures |i.payloads| == |os|
  {
    hide Mergeable, HeadsAgree, Numbered, Flagged, Sizes;
  }

  lemma SingleDelivers(i: Item, os: seq<Bytes>)
    requires StandsFor(i, os) && |i.payloads| == 1
    ensures |os| == 1 && i.head + i.payloads[0] == os[0]
  {
    hide Numbered, Load32, TcpLength, IpHeaderLength, IsIpv4, Sizes, HasPush, OnlyAckOrPush;
    if i.tcp {
      assert os[0] == os[0][..i.ip + i.transport] + os[0][i.ip + i.transport..] by { SingleLength(i, os); }
    }
  }

  lemma SingleLength(i: Item, os: seq<Bytes>)
    requires i.tcp && StandsFor(i, os)
    ensures i.ip + i.transport < |os[0]|
  {
    hide Numbered, HeadsAgree, Flagged, Sizes, IpHeaderLength, IsIpv4;
    assert Mergeable(os[0]);
  }

  // ----- order within a flow -----

  function Select(ps: seq<Bytes>, f: Flow): (r: seq<Bytes>)
  {
    if |ps| == 0 then []
    else Select(ps[..|ps| - 1], f) + if FlowOf(ps[|ps| - 1]) == f then [ps[|ps| - 1]] else []
  }

  function Flat(os: seq<seq<Bytes>>): (r: seq<Bytes>)
  {
    if |os| == 0 then [] else Flat(os[..|os| - 1]) + os[|os| - 1]
  }

  lemma SelectStep(ps: seq<Bytes>, f: Flow)
    ensures |ps| == 0 ==> Select(ps, f) == []
    ensures |ps| > 0 ==>
              var n := |ps| - 1;
              Select(ps, f) == Select(ps[..n], f) + if FlowOf(ps[n]) == f then [ps[n]] else []
  {
    hide FlowOf;
  }

  lemma {:induction false} SelectConcat(a: seq<Bytes>, b: seq<Bytes>, f: Flow)
    ensures Select(a + b, f) == Select(a, f) + Select(b, f)
  {
    hide FlowOf, Select;
    SelectStep(b, f);
    SelectStep(a + b, f);
    if |b| == 0 {
      assert a + b == a;
    } else {
      var n := |b| - 1;
      SelectConcat(a, b[..n], f);
      assert (a + b)[..|a| + n] == a + b[..n];
    }
  }

  lemma SelectOne(p: Bytes, f: Flow)
    ensures Select([p], f) == if FlowOf(p) == f then [p] else []
  {
    hide FlowOf;
    assert [p][..0] == [];
  }

  lemma {:induction false} FlatConcat(a: seq<seq<Bytes>>, b: seq<seq<Bytes>>)
    ensures Flat(a + b) == Flat(a) + Flat(b)
  {
    if |b| == 0 {
      assert a + b == a;
    } else {
      var n := |b| - 1;
      FlatConcat(a, b[..n]);
      assert (a + b)[..|a| + n] == a + b[..n];
    }
  }

  lemma {:induction false} SelectNone(os: seq<seq<Bytes>>, f: Flow)
    requires forall j, k :: 0 <= j < |os| && 0 <= k < |os[j]| ==> FlowOf(os[j][k]) != f
    ensures Select(Flat(os), f) == []
  {
    hide FlowOf;
    if |os| > 0 {
      var n := |os| - 1;
      SelectNone(os[..n], f);
      SelectConcat(Flat(os[..n]), os[n], f);
      SelectNoneIn(os[n], f);
    }
  }

  lemma {:induction false} SelectNoneIn(ps: seq<Bytes>, f: Flow)
    requires forall k :: 0 <= k < |ps| ==> FlowOf(ps[k]) != f
    ensures Select(ps, f) == []
  {
    hide FlowOf;
    if |ps| > 0 { SelectNoneIn(ps[..|ps| - 1], f); }
  }

  lemma FlatGrown(os: seq<seq<Bytes>>, j: nat, p: Bytes)
    requires j < |os|
    ensures Flat(os[j := os[j] + [p]]) == Flat(os[..j + 1]) + [p] + Flat(os[j + 1..])
  {
    var grown := os[j := os[j] + [p]];
    assert grown == grown[..j + 1] + os[j + 1..];
    FlatConcat(grown[..j + 1], os[j + 1..]);
    assert grown[..j + 1][..j] == os[..j + 1][..j];
  }

  /** Appending a packet to an item after which no item has its flow puts it last within its flow, and moves
      nothing within the others. */
  lemma AppendKeepsOrder(os: seq<seq<Bytes>>, j: nat, p: Bytes, f: Flow)
    requires j < |os|
    requires forall m, k :: j < m < |os| && 0 <= k < |os[m]| ==> FlowOf(os[m][k]) != FlowOf(p)
    ensures Select(Flat(os[j := os[j] + [p]]), f) == Select(Flat(os), f) + Select([p], f)
  {
    hide FlowOf, Flat, Select;
    var before, after := os[..j + 1], os[j + 1..];
    assert os == before + after;
    FlatGrown(os, j, p);
    FlatConcat(before, after);
    SelectConcat(Flat(before), Flat(after), f);
    SelectConcat(Flat(before) + [p], Flat(after), f);
    SelectConcat(Flat(before), [p], f);
    SelectOne(p, f);
    if FlowOf(p) == f { SelectNone(after, f); }
  }

  lemma NewKeepsOrder(os: seq<seq<Bytes>>, p: Bytes, f: Flow)
    ensures Select(Flat(os + [[p]]), f) == Select(Flat(os), f) + Select([p], f)
  {
    hide FlowOf;
    assert (os + [[p]])[..|os|] == os;
    SelectConcat(Flat(os), [p], f);
  }

  /** All packets of an item are of the item's flow. */
  lemma ItemHasFlow(i: Item, os: seq<Bytes>, k: nat)
    requires StandsFor(i, os) && k < |os|
    ensures HeadReadable(i) && ItemFlow(i) == FlowOf(os[k])
  {
    hide Numbered, Flagged, Sizes, Load32, IpHeaderLength, IsIpv4, TcpLength, Mergeable;
    if i.tcp {
      assert Mergeable(os[k]);
      MergeableStart(os[k]);
      assert Agree(os[k], i.head, i.ipv4, i.ip, i.ip + i.transport);
      SameLoad32(os[k], i.head, i.ip);
      assert Addresses(os[k], i.ipv4) == Addresses(i.head, i.ipv4);
    }
  }

  // ----- the class -----

  class TcpCoalescer {
    var items: seq<Item>
    var coalesced: nat

    /** The packets each item stands for. */
    ghost var origins: seq<seq<Bytes>>
    /** The packets added since the last flush. */
    ghost var arrived: seq<Bytes>

    ghost predicate Valid()
      reads this
    {
      && |items| == |origins|
      && (forall j :: 0 <= j < |items| ==> StandsFor(items[j], origins[j]))
      && |Flat(origins)| == |arrived| && forall f :: Select(Flat(origins), f) == Select(arrived, f)
    }

    constructor ()
      ensures Valid() && items == [] && arrived == []
    {
      items, coalesced, origins, arrived := [], 0, [], [];
    }

    /** The last item of the packet's flow. */
    method FindItem(flow: Flow) returns (j: int)
      requires Valid() && flow != Other
      ensures -1 <= j < |items|
      ensures j >= 0 ==> HeadReadable(items[j]) && ItemFlow(items[j]) == flow
      ensures forall m :: j < m < |items| ==> HeadReadable(items[m]) && ItemFlow(items[m]) != flow
    {
      hide StandsFor, ItemFlow, Select, Flat;
      j := |items|;
      while j > 0
        invariant 0 <= j <= |items|
        invariant forall m :: j <= m < |items| ==> HeadReadable(items[m]) && ItemFlow(items[m]) != flow
      {
        j := j - 1;
        HasOrigin(items[j], origins[j]);
        ItemHasFlow(items[j], origins[j], 0);
        if ItemFlow(items[j]) == flow { return j; }
      }
      return -1;
    }

    /** The packet joins the last item of its flow when it continues it, and starts a new item otherwise. */
    method Add(p: Bytes)
      requires Valid()
      modifies this
      ensures Valid() && arrived == old(arrived) + [p] && coalesced == old(coalesced)
      ensures !Mergeable(p) ==> items == old(items) + [PlainItem(p)]
      ensures Mergeable(p) ==> items == old(items) + [NewItem(p)] || Joins(old(items), items, p)
      ensures Mergeable(p) && items == old(items) + [NewItem(p)] ==>
                forall m :: 0 <= m < |old(items)| && LastOfFlow(old(items), m, FlowOf(p)) ==>
                  !CanAppend(old(items)[m], p)
    {
      hide StandsFor, ItemFlow, Select, Flat, CanAppend, Appended, Mergeable, FlowOf;
      if !Mergeable(p) {
        PlainStandsFor(p);
        Push(PlainItem(p), p);
        return;
      }
      MergeableFlow(p);
      var j := FindItem(FlowOf(p));
      if j >= 0 && CanAppend(items[j], p) {
        AppendedStandsFor(items[j], origins[j], p);
        LaterDiffer(items, origins, j, FlowOf(p));
        GrownCount(origins, j, p);
        forall f ensures Select(Flat(origins[j := origins[j] + [p]]), f) == Select(arrived + [p], f) {
          AppendKeepsOrder(origins, j, p, f);
          SelectConcat(arrived, [p], f);
        }
        items, origins := items[j := Appended(items[j], p)], origins[j := origins[j] + [p]];
        arrived := arrived + [p];
        return;
      }
      NewStandsFor(p);
      Push(NewItem(p), p);
    }

    method Push(i: Item, p: Bytes)
      requires Valid() && StandsFor(i, [p])
      modifies this
      ensures Valid() && items == old(items) + [i] && arrived == old(arrived) + [p] && coalesced == old(coalesced)
    {
      hide StandsFor, Select;
      assert (origins + [[p]])[..|origins|] == origins;
      forall f ensures Select(Flat(origins + [[p]]), f) == Select(arrived + [p], f) {
        NewKeepsOrder(origins, p, f);
        SelectConcat(arrived, [p], f);
      }
      items, origins, arrived := items + [i], origins + [[p]], arrived + [p];
    }

    /** Every item is written once, in order. What the device makes of the frames is, flow by flow, what was
        added: nothing lost, repeated or reordered. */
    method Flush() returns (written: seq<Written>, ghost parts: seq<seq<Bytes>>, ghost sources: seq<Item>)
      requires Valid()
      modifies this
      ensures Valid() && items == [] && arrived == []
      ensures |written| == |parts| == |sources| == |old(items)|
      ensures coalesced == old(coalesced) + |old(arrived)| - |written|
      ensures forall j :: 0 <= j < |written| ==> Delivers(written[j], parts[j], sources[j])
      ensures forall f :: Select(Flat(parts), f) == Select(old(arrived), f)
    {
      hide StandsFor, Select, Delivers, Frame, FrameHead;
      written := [];
      parts, sources := origins, items;
      for index := 0 to |items|
        invariant items == old(items) && origins == old(origins) && arrived == old(arrived)
        invariant |written| == index && coalesced == old(coalesced) + |Flat(parts[..index])| - index
        invariant forall j :: 0 <= j < index ==> Delivers(written[j], parts[j], sources[j])
      {
        var w := Write(items[index], origins[index]);
        HasOrigin(items[index], origins[index]);
        assert parts[..index + 1][..index] == parts[..index];
        if |items[index].payloads| > 1 { coalesced := coalesced + |items[index].payloads| - 1; }
        written := written + [w];
      }
      assert parts[..|items|] == parts;
      items, origins, arrived := [], [], [];
    }

    static method Write(i: Item, ghost os: seq<Bytes>) returns (w: Written)
      requires StandsFor(i, os)
      ensures Delivers(w, os, i)
    {
      hide StandsFor, Frame, FrameHead, HasIpHeader, Cuttable, GivesBack;
      HasOrigin(i, os);
      if !i.tcp || |i.payloads| < 2 {
        SingleDelivers(i, os);
        return Written(NO_OFFLOAD, i.head + i.payloads[0]);
      }
      MergedDelivers(i, os);
      return Written(FrameVirtio(i), Frame(i));
    }
  }

  lemma GrownCount(os: seq<seq<Bytes>>, j: nat, p: Bytes)
    requires j < |os|
    ensures |Flat(os[j := os[j] + [p]])| == |Flat(os)| + 1
  {
    FlatGrown(os, j, p);
    FlatConcat(os[..j + 1], os[j + 1..]);
    assert os == os[..j + 1] + os[j + 1..];
  }

  lemma HasOrigin(i: Item, os: seq<Bytes>)
    requires StandsFor(i, os)
    ensures |os| == |i.payloads| > 0 && (!i.tcp ==> |os| == 1)
  {
    hide Numbered, Flagged, Sizes, HeadsAgree, Mergeable;
  }

  lemma PlainStandsFor(p: Bytes)
    requires !Mergeable(p)
    ensures StandsFor(PlainItem(p), [p])
  {
  }

  lemma MergeableFlow(p: Bytes)
    requires Mergeable(p)
    ensures FlowOf(p) != Other
  {
  }

  ghost predicate LastOfFlow(items: seq<Item>, j: int, f: Flow)
    requires 0 <= j < |items|
  {
    && HeadReadable(items[j]) && ItemFlow(items[j]) == f
    && forall m :: j < m < |items| ==> HeadReadable(items[m]) && ItemFlow(items[m]) != f
  }

  /** The packet was appended to the last item of its flow. */
  ghost predicate Joins(before: seq<Item>, after: seq<Item>, p: Bytes)
    requires Mergeable(p)
  {
    exists j :: 0 <= j < |before| && LastOfFlow(before, j, FlowOf(p)) && CanAppend(before[j], p)
                && after == before[j := Appended(before[j], p)]
  }

  lemma LaterDiffer(items: seq<Item>, os: seq<seq<Bytes>>, j: nat, f: Flow)
    requires |items| == |os| && j < |items| && forall m :: 0 <= m < |items| ==> StandsFor(items[m], os[m])
    requires forall m :: j < m < |items| ==> HeadReadable(items[m]) && ItemFlow(items[m]) != f
    ensures forall m, k :: j < m < |os| && 0 <= k < |os[m]| ==> FlowOf(os[m][k]) != f
  {
    hide StandsFor, ItemFlow, FlowOf;
    forall m, k | j < m < |os| && 0 <= k < |os[m]| ensures FlowOf(os[m][k]) != f {
      ItemHasFlow(items[m], os[m], k);
    }
  }
}
