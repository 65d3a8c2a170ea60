/**
 Records in the shape of the SSH binary packet protocol (section 6 of RFC 4253): a length, a padding
 length, the payload and padding to a multiple of eight octets.
 */
module SshFramer {
  import opened Octets

  const HEADER := 5
  const BLOCK := 8
  const MINIMUM_PADDING := 4
  const MAXIMUM_FRAME := 65535

  datatype SshError = PayloadTooLarge | BufferTooSmall | Malformed | Incomplete

  datatype Unwrapped = Unwrapped(payload: Bytes, consumed: nat) | Failed(error: SshError)

  /** At least four octets of padding, and the whole record a multiple of the block size. */
  function PaddingFor(payload: nat): (padding: nat)
    ensures MINIMUM_PADDING <= padding < MINIMUM_PADDING + BLOCK && (HEADER + payload + padding) % BLOCK == 0
  {
    var padding := BLOCK - (HEADER + payload) % BLOCK;
    if padding < MINIMUM_PADDING then padding + BLOCK else padding
  }

  /** A record carries the payload behind its two lengths, with the right amount of any padding. */
  ghost predicate IsRecord(record: Bytes, payload: Bytes)
  {
    && |record| == HEADER + |payload| + PaddingFor(|payload|)
    && Load32(record, 0) == |record| - 4 && record[4] == PaddingFor(|payload|)
    && record[HEADER..HEADER + |payload|] == payload
  }

  function Unwrap(wire: Bytes, capacity: nat): (r: Unwrapped)
    ensures r.Unwrapped? ==> HEADER <= r.consumed <= |wire|
  {
    if |wire| < HEADER then Failed(Incomplete)
    else
      var length, padding := Load32(wire, 0), wire[4] as int;
      if length < 2 || length > MAXIMUM_FRAME + BLOCK + 1 then Failed(Malformed)
      else if padding < MINIMUM_PADDING || padding + 1 > length then Failed(Malformed)
      else if |wire| < 4 + length then Failed(Incomplete)
      else if capacity < length - padding - 1 then Failed(BufferTooSmall)
      else Unwrapped(wire[HEADER..HEADER + length - padding - 1], 4 + length)
  }

  lemma Load32Prefix(a: Bytes, b: Bytes)
    requires |a| >= 4 && |b| >= 4 && a[..4] == b[..4]
    ensures Load32(a, 0) == Load32(b, 0)
  {
    assert a[0..4] == a[..4] && b[0..4] == b[..4];
  }

  /** Every record of a payload of at most 65535 octets unwraps to that payload, whatever follows it. */
  lemma RecordUnwraps(record: Bytes, payload: Bytes, rest: Bytes, capacity: nat)
    requires IsRecord(record, payload) && |payload| <= MAXIMUM_FRAME <= capacity
    ensures Unwrap(record + rest, capacity) == Unwrapped(payload, |record|)
  {
    hide Load32;
    var wire := record + rest;
    assert wire[..4] == record[..4];
    Load32Prefix(wire, record);
    assert wire[HEADER..HEADER + |payload|] == record[HEADER..HEADER + |payload|];
  }

  /** A record cut short anywhere is incomplete, never malformed. */
  lemma CutRecordIsIncomplete(record: Bytes, payload: Bytes, n: nat, capacity: nat)
    requires IsRecord(record, payload) && |payload| <= MAXIMUM_FRAME && n < |record|
    ensures Unwrap(record[..n], capacity) == Failed(Incomplete)
  {
    hide Load32;
    if n >= HEADER {
      assert record[..n][..4] == record[..4];
      Load32Prefix(record[..n], record);
    }
  }

  /** What is decided on some octets stays decided when more arrive. */
  lemma UnwrapIsStable(wire: Bytes, more: Bytes, capacity: nat)
    requires Unwrap(wire, capacity) != Failed(Incomplete)
    ensures Unwrap(wire + more, capacity) == Unwrap(wire, capacity)
  {
    hide Load32;
    assert (wire + more)[..4] == wire[..4];
    Load32Prefix(wire + more, wire);
    var length, padding := Load32(wire, 0), wire[4] as int;
    if Unwrap(wire, capacity).Unwrapped? {
      assert (wire + more)[HEADER..HEADER + length - padding - 1] == wire[HEADER..HEADER + length - padding - 1];
    }
  }

  /** Fills `out` with a record of the payload; the padding octets are arbitrary. */
  method Wrap(payload: Bytes, out: array<Byte>) returns (total: nat, ok: bool, error: SshError)
    modifies out
    ensures !ok <==> |payload| > MAXIMUM_FRAME || out.Length < HEADER + |payload| + PaddingFor(|payload|)
    ensures !ok ==>
              && out[..] == old(out[..])
              && error == if |payload| > MAXIMUM_FRAME then PayloadTooLarge else BufferTooSmall
    ensures ok ==> total <= out.Length && IsRecord(out[..total], payload)
    ensures ok ==> out[total..] == old(out[total..])
  {
    hide Load32;
    total, ok, error := 0, false, PayloadTooLarge;
    if |payload| > MAXIMUM_FRAME { return; }
    var padding := PaddingFor(|payload|);
    var length := 1 + |payload| + padding;
    total := 4 + length;
    if out.Length < total { return 0, false, BufferTooSmall; }
    ghost var before := out[..];
    PutU32(out, length);
    ghost var first := out[..5];
    out[4] := padding;
    ghost var head := out[..5];
    forall i | 0 <= i < |payload| { out[HEADER + i] := payload[i]; }
    for i := 0 to padding
      invariant out[..5] == head && out[HEADER..HEADER + |payload|] == payload
      invariant forall k :: total <= k < out.Length ==> out[k] == before[k]
    {
      var octet: Byte := *;
      out[HEADER + |payload| + i] := octet;
    }
    ok := true;
    assert first[..4] == head[..4] == out[..total][..4];
    Load32Prefix(first, out[..total]);
    assert out[..total][4] == head[4];
    assert out[..total][HEADER..HEADER + |payload|] == payload;
  }

  method PutU32(out: array<Byte>, v: nat)
    requires out.Length >= 5 && v < 0x1_0000_0000
    modifies out
    ensures Load32(out[..5], 0) == v
    ensures forall k :: 4 <= k < out.Length ==> out[k] == old(out[k])
  {
    out[0] := v / 65536 / 256;
    out[1] := v / 65536 % 256;
    out[2] := v % 65536 / 256;
    out[3] := v % 65536 % 256;
    NumberOfFour(out[..5][0..4]);
  }

  method UnwrapInto(wire: Bytes, out: array<Byte>) returns (r: Unwrapped)
    modifies out
    ensures r == Unwrap(wire, out.Length)
    ensures r.Unwrapped? ==> |r.payload| <= out.Length && out[..|r.payload|] == r.payload
    ensures r.Failed? ==> out[..] == old(out[..])
  {
    hide Load32;
    if |wire| < HEADER { return Failed(Incomplete); }
    var length, padding := Load32(wire, 0), wire[4] as int;
    if length < 2 || length > MAXIMUM_FRAME + BLOCK + 1 { return Failed(Malformed); }
    if padding < MINIMUM_PADDING || padding + 1 > length { return Failed(Malformed); }
    var total := 4 + length;
    if |wire| < total { return Failed(Incomplete); }
    var size := length - padding - 1;
    if out.Length < size { return Failed(BufferTooSmall); }
    forall i | 0 <= i < size { out[i] := wire[HEADER + i]; }
    r := Unwrapped(wire[HEADER..HEADER + size], total);
  }
}
