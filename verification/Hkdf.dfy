/** HMAC (RFC 2104) over BLAKE2s and the expansion step of HKDF (section 2.3 of RFC 5869). */
module Hkdf {
  import opened Octets
  import opened GaloisField
  import opened Blake2s

  const HASH := 32
  const MAXIMUM_OUTPUT := 255 * HASH

  /** The key filled up to a block, hashed first when it is longer than one. */
  function BlockKey(key: Bytes): (r: Bytes)
    ensures |r| == BLOCK
  {
    Padded(if |key| > BLOCK then Digest(HASH, [], key) else key)
  }

  function Masked(b: Bytes, mask: Byte): (r: Bytes)
    ensures |r| == |b|
  {
    seq(|b|, i requires 0 <= i < |b| => Add(b[i], mask))
  }

  function Hmac(key: Bytes, message: Bytes): (r: Bytes)
    ensures |r| == HASH
  {
    Digest(HASH, [], Masked(BlockKey(key), 0x5C) + Digest(HASH, [], Masked(BlockKey(key), 0x36) + message))
  }

  /** Hashes the parts one update at a time, to any size and with or without a key. */
  method HashParts(size: nat, key: Bytes, parts: seq<Bytes>) returns (digest: Bytes)
    ensures digest == Digest(Clamped(size), UsedKey(key), Joined(parts))
  {
    hide Absorbed, Serialized, Chained, Compressed, Parameters, Padded;
    var h := new Blake2s(size, key);
    for i := 0 to |parts|
      invariant h.Valid() && !h.finished && fresh(h) && fresh(h.state) && fresh(h.buffer)
      invariant h.fed == KeyBlock(UsedKey(key)) + Joined(parts[..i])
    {
      assert parts[..i + 1][..i] == parts[..i];
      assert KeyBlock(UsedKey(key)) + Joined(parts[..i + 1])
          == (KeyBlock(UsedKey(key)) + Joined(parts[..i])) + parts[i];
      h.Update(parts[i]);
    }
    assert parts[..|parts|] == parts;
    digest := h.Finish(Clamped(size));
  }

  lemma JoinedTwo(a: Bytes, b: Bytes)
    ensures Joined([a, b]) == a + b
  {
    assert [a, b][..1] == [a] && [a][..0] == [];
    assert Joined([a]) == Joined([]) + a == a;
  }

  method MaskKey(key: Bytes) returns (inner: Bytes, outer: Bytes)
    ensures inner == Masked(BlockKey(key), 0x36) && outer == Masked(BlockKey(key), 0x5C)
  {
    hide Digest, Padded, Add;
    var block := key;
    if |key| > BLOCK { block := Blake2s.Hash(key, []); }
    var padded := Padded(block);
    inner, outer := [], [];
    for i := 0 to BLOCK
      invariant inner == Masked(padded, 0x36)[..i] && outer == Masked(padded, 0x5C)[..i]
    {
      inner := inner + [Add(padded[i], 0x36)];
      outer := outer + [Add(padded[i], 0x5C)];
    }
  }

  method HmacBlake2s(key: Bytes, message: Bytes) returns (r: Bytes)
    ensures r == Hmac(key, message)
  {
    hide Digest, Masked, BlockKey, Joined;
    var inner, outer := MaskKey(key);
    JoinedTwo(inner, message);
    var digest := HashParts(HASH, [], [inner, message]);
    JoinedTwo(outer, digest);
    r := HashParts(HASH, [], [outer, digest]);
  }

  // ----- expansion -----

  /** The blocks T(0), T(1), ... of the expansion. */
  function T(key: Bytes, info: Bytes, i: nat): (r: Bytes)
    ensures |r| == if i == 0 then 0 else HASH
  {
    hide Hmac;
    if i == 0 then [] else Hmac(key, T(key, info, i - 1) + info + [i % 256])
  }

  /** T(1) | ... | T(n). */
  function Stream(key: Bytes, info: Bytes, n: nat): (r: Bytes)
    ensures |r| == HASH * n
  {
    if n == 0 then [] else Stream(key, info, n - 1) + T(key, info, n)
  }

  /** The output keying material: the first octets of the stream. */
  function Output(key: Bytes, info: Bytes, length: nat): (r: Bytes)
    ensures |r| == length
  {
    Stream(key, info, (length + HASH - 1) / HASH)[..length]
  }

  lemma {:induction false} StreamGrows(key: Bytes, info: Bytes, m: nat, n: nat)
    requires m <= n
    ensures Stream(key, info, m) == Stream(key, info, n)[..HASH * m]
    decreases n
  {
    hide T;
    if m < n { StreamGrows(key, info, m, n - 1); }
  }

  /** Shorter outputs are prefixes of longer ones. */
  lemma ShorterIsPrefix(key: Bytes, info: Bytes, short: nat, long: nat)
    requires short <= long
    ensures Output(key, info, short) == Output(key, info, long)[..short]
  {
    hide Stream;
    StreamGrows(key, info, (short + HASH - 1) / HASH, (long + HASH - 1) / HASH);
  }

  /** Fills `out`; the one-octet counter takes each of its values at most once. */
  method Expand(key: Bytes, info: Bytes, out: array<Byte>) returns (ok: bool)
    modifies out
    ensures ok <==> out.Length <= MAXIMUM_OUTPUT
    ensures ok ==> out[..] == Output(key, info, out.Length)
    ensures !ok ==> out[..] == old(out[..])
  {
    hide Hmac, Stream;
    if out.Length > MAXIMUM_OUTPUT { return false; }
    var previous: Bytes, produced: nat, counter: nat := Zeros(HASH), 0, 1;
    ghost var done := 0;
    StreamStep(key, info, 0);
    while produced < out.Length
      invariant produced <= out.Length && done <= 255 && counter == (done + 1) % 256
      invariant produced == if HASH * done < out.Length then HASH * done else out.Length
      invariant done > 0 ==> previous == T(key, info, done)
      invariant |previous| == HASH
      invariant HASH * done < out.Length + HASH
      invariant out[..produced] == Stream(key, info, done)[..produced]
    {
      assert counter == done + 1;
      StreamStep(key, info, done + 1);
      var input := (if counter > 1 then previous else []) + info + [counter];
      assert input == T(key, info, done) + info + [counter];
      previous := HmacBlake2s(key, input);
      StreamPrefix(key, info, done, produced, out.Length);
      produced := Write(out, produced, previous);
      counter := (counter + 1) % 256;
      done := done + 1;
    }
    ok := true;
    assert out[..produced] == out[..];
    StreamGrows(key, info, (out.Length + HASH - 1) / HASH, done);
  }

  /** Copies as much of the block as fits. */
  method Write(out: array<Byte>, produced: nat, block: Bytes) returns (n: nat)
    requires produced <= out.Length
    modifies out
    ensures n == if |block| < out.Length - produced then produced + |block| else out.Length
    ensures out[..n] == old(out[..produced]) + block[..n - produced]
  {
    var take := if |block| < out.Length - produced then |block| else out.Length - produced;
    n := produced + take;
    ghost var before := out[..produced];
    forall i | 0 <= i < take { out[produced + i] := block[i]; }
    assert |out[..n]| == |before + block[..take]|;
    assert forall i :: 0 <= i < n ==> out[..n][i] == (before + block[..take])[i];
  }

  /** What one more block adds to the part of the stream that fits into `length` octets. */
  lemma StreamPrefix(key: Bytes, info: Bytes, done: nat, produced: nat, length: nat)
    requires produced == HASH * done < length
    ensures var n := if HASH < length - produced then produced + HASH else length;
            Stream(key, info, done)[..produced] + T(key, info, done + 1)[..n - produced]
            == Stream(key, info, done + 1)[..n]
  {
    hide T, Stream;
    StreamStep(key, info, done + 1);
  }

  lemma StreamStep(key: Bytes, info: Bytes, n: nat)
    ensures n == 0 ==> Stream(key, info, n) == []
    ensures n > 0 ==> Stream(key, info, n) == Stream(key, info, n - 1) + T(key, info, n)
  {
    hide T;
  }
}
