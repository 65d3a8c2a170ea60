/**
 What the erasure code transmits: symbol headers on the wire, length-prefixed data symbols of
 unequal length, and parity rows over the zero-padded symbols.
 */
module FecCode {
  import opened Octets
  import opened GaloisField
  import opened GaloisTables

  const LENGTH_PREFIX := 2
  const HEADER_SIZE := 11
  const TAG: Byte := 0x16

  // ----- headers -----

  datatype Header = Header(blockId: nat, index: nat, blockSize: nat, parityCount: nat,
                           parity: bool, originalLength: nat)

  /** The fields fit their wire widths. */
  ghost predicate Encodable(h: Header)
  {
    && h.blockId < TWO_32 && h.originalLength < 65536
    && h.index < 256 && h.blockSize < 256 && h.parityCount < 256
  }

  /** What a parsed header promises the decoder. */
  predicate Valid(h: Header)
  {
    && 0 < h.blockSize <= MAXIMUM_DATA && 0 < h.parityCount <= MAXIMUM_PARITY
    && h.index < if h.parity then h.parityCount else h.blockSize
  }

  function SerializeHeader(h: Header): (bytes: Bytes)
    requires Encodable(h)
    ensures |bytes| == HEADER_SIZE
  {
    [TAG,
     h.blockId / 0x100_0000, h.blockId / 0x1_0000 % 256, h.blockId / 256 % 256, h.blockId % 256,
     h.index, h.blockSize, h.parityCount, if h.parity then 1 else 0,
     h.originalLength / 256, h.originalLength % 256]
  }

  function ParseHeader(bytes: Bytes): (r: Option<Header>)
  {
    if |bytes| < HEADER_SIZE || bytes[0] != TAG || bytes[8] > 1 then None
    else
      var h := Header(Big16(bytes[1], bytes[2]) * 0x1_0000 + Big16(bytes[3], bytes[4]),
                      bytes[5], bytes[6], bytes[7], bytes[8] == 1, Big16(bytes[9], bytes[10]));
      if Valid(h) then Some(h) else None
  }

  /** Parsing undoes serializing for exactly the headers the decoder can use. */
  lemma HeaderRoundTrip(h: Header, rest: Bytes)
    requires Encodable(h)
    ensures ParseHeader(SerializeHeader(h) + rest) == if Valid(h) then Some(h) else None
  {
    BlockIdOctets(h.blockId);
    hide Valid, SerializeHeader;
    SerializedOctets(h);
  }

  lemma BlockIdOctets(b: nat)
    requires b < TWO_32
    ensures (b / 0x100_0000 * 256 + b / 0x1_0000 % 256) * 0x1_0000 + (b / 256 % 256 * 256 + b % 256) == b
  {
    var x := b / 256;
    var y := x / 256;
    assert b / 0x1_0000 == y;
    assert b / 0x100_0000 == y / 256;
    assert y == y / 256 * 256 + y % 256 && x == y * 256 + x % 256 && b == x * 256 + b % 256;
  }

  lemma SerializedOctets(h: Header)
    requires Encodable(h)
    ensures var s, b := SerializeHeader(h), h.blockId;
            && |s| == HEADER_SIZE && s[0] == TAG
            && s[1] == b / 0x100_0000 && s[2] == b / 0x1_0000 % 256 && s[3] == b / 256 % 256 && s[4] == b % 256
            && s[5] == h.index && s[6] == h.blockSize && s[7] == h.parityCount
            && s[8] == (if h.parity then 1 else 0)
            && s[9] == h.originalLength / 256 && s[10] == h.originalLength % 256
  {
  }

  /** Serializing undoes parsing on every accepted input. */
  lemma HeaderParseIsExact(bytes: Bytes)
    requires ParseHeader(bytes).Some?
    ensures Encodable(ParseHeader(bytes).value) && Valid(ParseHeader(bytes).value)
    ensures SerializeHeader(ParseHeader(bytes).value) == bytes[..HEADER_SIZE]
  {
    var h := ParseHeader(bytes).value;
    ParsedFields(bytes);
    hide ParseHeader, SerializeHeader, Valid;
    SerializedOctets(h);
    var s, front := SerializeHeader(h), bytes[..HEADER_SIZE];
    assert |s| == |front| == HEADER_SIZE;
    assert forall i :: 0 <= i < HEADER_SIZE ==> s[i] == front[i];
  }

  lemma ParsedFields(bytes: Bytes)
    requires ParseHeader(bytes).Some?
    ensures var h := ParseHeader(bytes).value;
            && |bytes| >= HEADER_SIZE && bytes[0] == TAG && Encodable(h) && Valid(h)
            && bytes[1] == h.blockId / 0x100_0000 && bytes[2] == h.blockId / 0x1_0000 % 256
            && bytes[3] == h.blockId / 256 % 256 && bytes[4] == h.blockId % 256
            && bytes[5] == h.index && bytes[6] == h.blockSize && bytes[7] == h.parityCount
            && bytes[8] == (if h.parity then 1 else 0)
            && bytes[9] == h.originalLength / 256 && bytes[10] == h.originalLength % 256
  {
    OctetsOfBlockId(bytes[1], bytes[2], bytes[3], bytes[4]);
  }

  lemma OctetsOfBlockId(a: Byte, b: Byte, c: Byte, d: Byte)
    ensures var v := Big16(a, b) * 0x1_0000 + Big16(c, d);
            v / 0x100_0000 == a && v / 0x1_0000 % 256 == b && v / 256 % 256 == c && v % 256 == d && v < TWO_32
  {
    var v := Big16(a, b) * 0x1_0000 + Big16(c, d);
    var x := v / 256;
    assert x == Big16(a, b) * 256 + c;
    var y := x / 256;
    assert y == Big16(a, b) && v / 0x1_0000 == y && v / 0x100_0000 == y / 256;
  }

  // ----- symbols -----

  /** A packet behind its big-endian 16-bit length. */
  function Symbol(packet: Bytes): (s: Bytes)
    ensures |s| == LENGTH_PREFIX + |packet|
  {
    [|packet| / 256 % 256, |packet| % 256] + packet
  }

  /** The length comes first, high octet first, then the packet. */
  lemma SymbolIs(packet: Bytes)
    requires |packet| < 65536
    ensures Load16(Symbol(packet), 0) == |packet| && Symbol(packet)[2..] == packet
  {
  }

  /** The packet inside a symbol that may carry padding; None when the length is zero or too large. */
  function Unpack(symbol: Bytes): (r: Option<Bytes>)
    requires |symbol| >= LENGTH_PREFIX
  {
    var length := Big16(symbol[0], symbol[1]);
    if length == 0 || LENGTH_PREFIX + length > |symbol| then None
    else Some(symbol[LENGTH_PREFIX..LENGTH_PREFIX + length])
  }

  /** `s` filled up with zeros to `width`. */
  function Padded(s: Bytes, width: nat): (r: Bytes)
    ensures |r| == width
  {
    seq(width, p requires 0 <= p < width => if p < |s| then s[p] else 0)
  }

  lemma UnpackPadded(packet: Bytes, width: nat)
    requires LENGTH_PREFIX + |packet| <= width && |packet| < 65536
    ensures Unpack(Padded(Symbol(packet), width)) == if packet == [] then None else Some(packet)
  {
    var s := Padded(Symbol(packet), width);
    assert s[0] == |packet| / 256 && s[1] == |packet| % 256;
    assert s[LENGTH_PREFIX..LENGTH_PREFIX + |packet|] == packet;
  }

  // ----- parity -----

  /** The longest symbol among the packets. */
  function Width(packets: seq<Bytes>): (w: nat)
    ensures forall i :: 0 <= i < |packets| ==> LENGTH_PREFIX + |packets[i]| <= w
  {
    if |packets| == 0 then 0
    else
      var w := Width(packets[..|packets| - 1]);
      var l := LENGTH_PREFIX + |packets[|packets| - 1]|;
      if l > w then l else w
  }

  function At(s: Bytes, p: nat): (b: Byte)
  {
    if p < |s| then s[p] else 0
  }

  /** Term `i` of parity row `row` at position `p`. */
  ghost function Term(row: nat, packets: seq<Bytes>, p: nat, i: nat): (b: Byte)
    requires row < MAXIMUM_PARITY && i < |packets| <= MAXIMUM_DATA
  {
    Mul(Cauchy(row, i), At(Symbol(packets[i]), p))
  }

  /** The sum of the first `k` terms. */
  ghost function ParityAt(row: nat, packets: seq<Bytes>, p: nat, k: nat): (b: Byte)
    requires row < MAXIMUM_PARITY && k <= |packets| <= MAXIMUM_DATA
  {
    if k == 0 then 0 else Add(ParityAt(row, packets, p, k - 1), Term(row, packets, p, k - 1))
  }

  ghost function ParityRow(row: nat, packets: seq<Bytes>, width: nat): (r: Bytes)
    requires row < MAXIMUM_PARITY && |packets| <= MAXIMUM_DATA
    ensures |r| == width
  {
    seq(width, p requires 0 <= p < width => ParityAt(row, packets, p, |packets|))
  }

  lemma {:induction false} ParityOfPrefix(row: nat, packets: seq<Bytes>, more: seq<Bytes>, p: nat, k: nat)
    requires row < MAXIMUM_PARITY && k <= |packets| && |packets| + |more| <= MAXIMUM_DATA
    ensures ParityAt(row, packets + more, p, k) == ParityAt(row, packets, p, k)
  {
    hide Mul, Add, Cauchy;
    if k != 0 { ParityOfPrefix(row, packets, more, p, k - 1); }
  }

  /** Beyond the longest symbol every parity row is zero. */
  lemma {:induction false} ParityBeyondWidth(row: nat, packets: seq<Bytes>, p: nat, k: nat)
    requires row < MAXIMUM_PARITY && k <= |packets| <= MAXIMUM_DATA
    requires forall i :: 0 <= i < k ==> LENGTH_PREFIX + |packets[i]| <= p
    ensures ParityAt(row, packets, p, k) == 0
  {
    hide Mul, Add, Cauchy;
    if k != 0 {
      ParityBeyondWidth(row, packets, p, k - 1);
      MulZero(Cauchy(row, k - 1), 0);
      AddZero(0);
    }
  }

  /** The encoder's online step: widen the row with zeros, then add one symbol. */
  lemma ParityStep(row: nat, packets: seq<Bytes>, packet: Bytes, width: nat)
    requires row < MAXIMUM_PARITY && |packets| < MAXIMUM_DATA
    requires Width(packets) <= width && LENGTH_PREFIX + |packet| <= width
    ensures MulAdd(Padded(ParityRow(row, packets, Width(packets)), width), Symbol(packet),
                   Cauchy(row, |packets|))
         == ParityRow(row, packets + [packet], width)
  {
    hide Mul, Add, Cauchy, Width, Symbol, ParityAt, MulAdd, Padded, ParityRow;
    var padded := Padded(ParityRow(row, packets, Width(packets)), width);
    var stepped := MulAdd(padded, Symbol(packet), Cauchy(row, |packets|));
    var after := ParityRow(row, packets + [packet], width);
    assert |stepped| == |after| == width;
    forall p | 0 <= p < width ensures stepped[p] == after[p] {
      ParityStepOctet(row, packets, packet, width, p);
    }
  }

  lemma ParityStepOctet(row: nat, packets: seq<Bytes>, packet: Bytes, width: nat, p: nat)
    requires row < MAXIMUM_PARITY && |packets| < MAXIMUM_DATA && Width(packets) <= width && p < width
    ensures MulAdd(Padded(ParityRow(row, packets, Width(packets)), width), Symbol(packet), Cauchy(row, |packets|))[p]
         == ParityRow(row, packets + [packet], width)[p]
  {
    hide Mul, Add, Cauchy, Width, Symbol, ParityAt, MulAdd, Padded, ParityRow;
    var before, c := ParityRow(row, packets, Width(packets)), Cauchy(row, |packets|);
    PaddedAt(before, width, p);
    MulAddAt(Padded(before, width), Symbol(packet), c, p);
    ParityStepAt(row, packets, packet, p);
    ParityRowAt(row, packets + [packet], width, p);
    if p < |before| { ParityRowAt(row, packets, |before|, p); }
  }

  lemma PaddedAt(s: Bytes, width: nat, p: nat)
    requires p < width
    ensures Padded(s, width)[p] == At(s, p)
  {
  }

  lemma ParityRowAt(row: nat, packets: seq<Bytes>, width: nat, p: nat)
    requires row < MAXIMUM_PARITY && |packets| <= MAXIMUM_DATA && p < width
    ensures ParityRow(row, packets, width)[p] == ParityAt(row, packets, p, |packets|)
  {
    hide ParityAt;
  }

  /** A short source acts like a zero-padded one. */
  lemma MulAddAt(acc: Bytes, src: Bytes, c: Byte, p: nat)
    requires p < |acc|
    ensures MulAdd(acc, src, c)[p] == Add(acc[p], Mul(c, At(src, p)))
  {
    hide Mul, Add;
    MulZero(c, 0);
    AddZero(acc[p]);
  }

  lemma ParityStepAt(row: nat, packets: seq<Bytes>, packet: Bytes, p: nat)
    requires row < MAXIMUM_PARITY && |packets| < MAXIMUM_DATA
    ensures ParityAt(row, packets + [packet], p, |packets| + 1)
         == Add(ParityAt(row, packets, p, |packets|), Mul(Cauchy(row, |packets|), At(Symbol(packet), p)))
    ensures Width(packets) <= p ==> ParityAt(row, packets, p, |packets|) == 0
  {
    hide Mul, Add, Cauchy, Symbol, Width;
    ParityOfPrefix(row, packets, [packet], p, |packets|);
    assert (packets + [packet])[|packets|] == packet;
    if Width(packets) <= p { ParityBeyondWidth(row, packets, p, |packets|); }
  }

  // ----- code words -----

  /** One block as sent: its id, the block size announced in data headers, the parity count, and
      the packets it covers, which may be fewer than announced when the block was cut short. */
  datatype Codeword = Codeword(id: nat, planned: nat, parityCount: nat, packets: seq<Bytes>)

  ghost predicate Sound(cw: Codeword)
  {
    && cw.id < TWO_32
    && 0 < |cw.packets| <= cw.planned <= MAXIMUM_DATA
    && 0 < cw.parityCount <= MAXIMUM_PARITY
    && forall i :: 0 <= i < |cw.packets| ==> |cw.packets[i]| < 65536
  }

  function DataHeader(cw: Codeword, i: nat): (h: Header)
    requires i < |cw.packets|
  {
    Header(cw.id, i, cw.planned, cw.parityCount, false, |cw.packets[i]| % 65536)
  }

  function ParityHeader(cw: Codeword, row: nat): (h: Header)
  {
    Header(cw.id, row, |cw.packets|, cw.parityCount, true, Width(cw.packets) % 65536)
  }

  ghost function ParitySymbol(cw: Codeword, row: nat): (s: Bytes)
    requires row < MAXIMUM_PARITY && |cw.packets| <= MAXIMUM_DATA
  {
    ParityRow(row, cw.packets, Width(cw.packets))
  }
}
