/**
 BLAKE2s: the one-shot hash of section 3.3 of RFC 7693 and the streaming form that must agree with it for
 every way of cutting the input, with HMAC (RFC 2104) and HKDF-Expand (section 2.3 of RFC 5869) on top.
 */
module Blake2s {
  import opened Octets
  import opened GaloisField

  const BLOCK := 64
  const MAXIMUM_DIGEST := 32
  const MAXIMUM_KEY := 32
  const WORDS := 0x1_0000_0000

  type Word = x: int | 0 <= x < 0x1_0000_0000

  // ----- words -----

  lemma {:induction false} XorFits(a: nat, b: nat, k: nat)
    requires a < Power2(k) && b < Power2(k)
    ensures Xor(a, b) < Power2(k)
  {
    if k > 0 && a != 0 && b != 0 { XorFits(a / 2, b / 2, k - 1); }
  }

  lemma Power32()
    ensures Power2(32) == WORDS
  {
    assert Power2(8) == 256;
    assert Power2(16) == 65536;
    assert Power2(24) == 0x100_0000;
  }

  function XorWord(a: Word, b: Word): (r: Word)
  {
    Power32();
    XorFits(a, b, 32);
    Xor(a, b)
  }

  function AddWord(a: Word, b: Word): (r: Word)
  {
    (a as int + b as int) % WORDS
  }

  /** Rotation right by the number of bits whose power of two is `low`, where low * high == 2^32. */
  function Rotated(v: Word, low: nat, high: nat): (r: int)
    requires low > 0
  {
    v as int / low + v as int % low * high
  }

  function Rotate16(v: Word): (r: Word) { Rotated(v, 0x1_0000, 0x1_0000) }

  function Rotate12(v: Word): (r: Word) { Rotated(v, 0x1000, 0x10_0000) }

  function Rotate8(v: Word): (r: Word) { Rotated(v, 0x100, 0x100_0000) }

  function Rotate7(v: Word): (r: Word) { Rotated(v, 0x80, 0x200_0000) }

  // ----- compression -----

  const IV: seq<Word> := [0x6A09E667, 0xBB67AE85, 0x3C6EF372, 0xA54FF53A, 0x510E527F, 0x9B05688C, 0x1F83D9AB,
                          0x5BE0CD19]

  const SIGMA: seq<seq<nat>> := [
    [0, 1, 2, 3, 4, 5, 6, 7, 8, 9, 10, 11, 12, 13, 14, 15],
    [14, 10, 4, 8, 9, 15, 13, 6, 1, 12, 0, 2, 11, 7, 5, 3],
    [11, 8, 12, 0, 5, 2, 15, 13, 10, 14, 3, 6, 7, 1, 9, 4],
    [7, 9, 3, 1, 13, 12, 11, 14, 2, 6, 5, 10, 4, 0, 15, 8],
    [9, 0, 5, 7, 2, 4, 10, 15, 14, 1, 11, 12, 6, 8, 3, 13],
    [2, 12, 6, 10, 0, 11, 8, 3, 4, 13, 7, 5, 15, 14, 1, 9],
    [12, 5, 1, 15, 14, 13, 4, 10, 0, 7, 6, 3, 9, 2, 8, 11],
    [13, 11, 7, 14, 12, 1, 3, 9, 5, 0, 15, 4, 8, 6, 2, 10],
    [6, 15, 14, 9, 11, 3, 0, 8, 12, 2, 13, 7, 1, 4, 10, 5],
    [10, 2, 8, 4, 7, 6, 1, 5, 15, 11, 9, 14, 3, 12, 13, 0]]

  /** Where each message word stands in each round. */
  const PLACE: seq<seq<nat>> := [
    [0, 1, 2, 3, 4, 5, 6, 7, 8, 9, 10, 11, 12, 13, 14, 15],
    [10, 8, 11, 15, 2, 14, 7, 13, 3, 4, 1, 12, 9, 6, 0, 5],
    [3, 13, 5, 10, 15, 4, 11, 12, 1, 14, 8, 0, 2, 7, 9, 6],
    [13, 3, 8, 2, 12, 10, 9, 0, 15, 1, 11, 6, 5, 4, 7, 14],
    [1, 9, 4, 14, 5, 2, 12, 3, 13, 0, 6, 10, 11, 15, 8, 7],
    [4, 14, 0, 7, 8, 11, 2, 10, 6, 15, 3, 5, 1, 9, 13, 12],
    [8, 2, 13, 11, 6, 1, 10, 9, 14, 12, 7, 15, 0, 5, 4, 3],
    [9, 5, 14, 6, 11, 8, 13, 2, 12, 7, 15, 1, 4, 0, 3, 10],
    [6, 12, 9, 5, 13, 15, 0, 11, 7, 3, 14, 4, 8, 10, 2, 1],
    [15, 6, 1, 12, 3, 7, 5, 4, 2, 10, 0, 9, 13, 14, 11, 8]]

  lemma SigmaRow(round: nat, i: nat)
    requires round < 10 && i < 16
    ensures |SIGMA| == |PLACE| == 10 && |SIGMA[round]| == |PLACE[round]| == 16
    ensures SIGMA[round][i] < 16 && PLACE[round][SIGMA[round][i]] == i
  {
    hide SIGMA, PLACE;
    if round < 5 { EarlyRow(round, i); } else { LateRow(round, i); }
  }

  lemma EarlyRow(round: nat, i: nat)
    requires round < 5 && i < 16
    ensures |SIGMA| == |PLACE| == 10 && |SIGMA[round]| == |PLACE[round]| == 16
    ensures SIGMA[round][i] < 16 && PLACE[round][SIGMA[round][i]] == i
  {
  }

  lemma LateRow(round: nat, i: nat)
    requires 5 <= round < 10 && i < 16
    ensures |SIGMA| == |PLACE| == 10 && |SIGMA[round]| == |PLACE[round]| == 16
    ensures SIGMA[round][i] < 16 && PLACE[round][SIGMA[round][i]] == i
  {
  }

  /** Every round uses every message word once. */
  lemma SigmaIsPermutations(round: nat)
    requires round < 10
    ensures |SIGMA| == 10 && |SIGMA[round]| == 16 && forall i :: 0 <= i < 16 ==> SIGMA[round][i] < 16
    ensures forall i, j :: 0 <= i < j < 16 ==> SIGMA[round][i] != SIGMA[round][j]
  {
    forall i | 0 <= i < 16 ensures SIGMA[round][i] < 16 && PLACE[round][SIGMA[round][i]] == i {
      SigmaRow(round, i);
    }
  }

  function Mixed(v: seq<Word>, a: nat, b: nat, c: nat, d: nat, x: Word, y: Word): (r: seq<Word>)
    requires a < |v| && b < |v| && c < |v| && d < |v|
    ensures |r| == |v|
  {
    var v := v[a := AddWord(AddWord(v[a], v[b]), x)];
    var v := v[d := Rotate16(XorWord(v[d], v[a]))];
    var v := v[c := AddWord(v[c], v[d])];
    var v := v[b := Rotate12(XorWord(v[b], v[c]))];
    var v := v[a := AddWord(AddWord(v[a], v[b]), y)];
    var v := v[d := Rotate8(XorWord(v[d], v[a]))];
    var v := v[c := AddWord(v[c], v[d])];
    v[b := Rotate7(XorWord(v[b], v[c]))]
  }

  // ----- mixing can be undone -----

  function SubWord(a: Word, b: Word): (r: Word)
  {
    if a >= b then a - b else WORDS + a as int - b as int
  }

  lemma AddThenSub(a: Word, b: Word)
    ensures SubWord(AddWord(a, b), b) == a
  {
  }

  lemma XorTwice(a: Word, b: Word)
    ensures XorWord(XorWord(a, b), b) == a
  {
    hide Xor;
    XorAssociates(a, b, b);
    XorSelf(b);
    XorIdentity(a);
  }

  /** Rotation left by 16, 12, 8 and 7. */
  function Left16(v: Word): (r: Word) { v as int % 0x1_0000 * 0x1_0000 + v as int / 0x1_0000 }

  function Left12(v: Word): (r: Word) { v as int % 0x10_0000 * 0x1000 + v as int / 0x10_0000 }

  function Left8(v: Word): (r: Word) { v as int % 0x100_0000 * 0x100 + v as int / 0x100_0000 }

  function Left7(v: Word): (r: Word) { v as int % 0x200_0000 * 0x80 + v as int / 0x200_0000 }

  lemma Undo16(v: Word)
    ensures Left16(Rotate16(v)) == v
  {
    var q, r := v as int / 0x1_0000, v as int % 0x1_0000;
    assert 0 <= q < 0x1_0000 && Rotate16(v) == q + r * 0x1_0000;
    assert (q + r * 0x1_0000) % 0x1_0000 == q && (q + r * 0x1_0000) / 0x1_0000 == r;
  }

  lemma Undo12(v: Word)
    ensures Left12(Rotate12(v)) == v
  {
    var q, r := v as int / 0x1000, v as int % 0x1000;
    assert 0 <= q < 0x10_0000 && Rotate12(v) == q + r * 0x10_0000;
    assert (q + r * 0x10_0000) % 0x10_0000 == q && (q + r * 0x10_0000) / 0x10_0000 == r;
  }

  lemma Undo8(v: Word)
    ensures Left8(Rotate8(v)) == v
  {
    var q, r := v as int / 0x100, v as int % 0x100;
    assert 0 <= q < 0x100_0000 && Rotate8(v) == q + r * 0x100_0000;
    assert (q + r * 0x100_0000) % 0x100_0000 == q && (q + r * 0x100_0000) / 0x100_0000 == r;
  }

  lemma Undo7(v: Word)
    ensures Left7(Rotate7(v)) == v
  {
    var q, r := v as int / 0x80, v as int % 0x80;
    assert 0 <= q < 0x200_0000 && Rotate7(v) == q + r * 0x200_0000;
    assert (q + r * 0x200_0000) % 0x200_0000 == q && (q + r * 0x200_0000) / 0x200_0000 == r;
  }

  /** The steps of the mixing function G (section 3.1 of RFC 7693) backwards. */
  function Unmixed(v: seq<Word>, a: nat, b: nat, c: nat, d: nat, x: Word, y: Word): (r: seq<Word>)
    requires a < |v| && b < |v| && c < |v| && d < |v|
    ensures |r| == |v|
  {
    var v := v[b := XorWord(Left7(v[b]), v[c])];
    var v := v[c := SubWord(v[c], v[d])];
    var v := v[d := XorWord(Left8(v[d]), v[a])];
    var v := v[a := SubWord(SubWord(v[a], y), v[b])];
    var v := v[b := XorWord(Left12(v[b]), v[c])];
    var v := v[c := SubWord(v[c], v[d])];
    var v := v[d := XorWord(Left16(v[d]), v[a])];
    v[a := SubWord(SubWord(v[a], x), v[b])]
  }

  /** The mixing function loses nothing. */
  lemma MixedIsInvertible(v: seq<Word>, a: nat, b: nat, c: nat, d: nat, x: Word, y: Word)
    requires a < |v| && b < |v| && c < |v| && d < |v| && a != b && a != c && a != d && b != c && b != d && c != d
    ensures Unmixed(Mixed(v, a, b, c, d, x, y), a, b, c, d, x, y) == v
  {
    hide XorWord, AddWord, SubWord, Rotate16, Rotate12, Rotate8, Rotate7, Left16, Left12, Left8, Left7;
    var a1 := AddWord(AddWord(v[a], v[b]), x);
    var d1 := Rotate16(XorWord(v[d], a1));
    var c1 := AddWord(v[c], d1);
    var b1 := Rotate12(XorWord(v[b], c1));
    var a2 := AddWord(AddWord(a1, b1), y);
    var d2 := Rotate8(XorWord(d1, a2));
    var c2 := AddWord(c1, d2);
    var b2 := Rotate7(XorWord(b1, c2));
    Undo7(XorWord(b1, c2));
    Undo8(XorWord(d1, a2));
    Undo12(XorWord(v[b], c1));
    Undo16(XorWord(v[d], a1));
    XorTwice(b1, c2);
    XorTwice(d1, a2);
    XorTwice(v[b], c1);
    XorTwice(v[d], a1);
    AddThenSub(c1, d2);
    AddThenSub(AddWord(a1, b1), y);
    AddThenSub(a1, b1);
    AddThenSub(v[c], d1);
    AddThenSub(AddWord(v[a], v[b]), x);
    AddThenSub(v[a], v[b]);
    var w := Mixed(v, a, b, c, d, x, y);
    assert w[a] == a2 && w[b] == b2 && w[c] == c2 && w[d] == d2;
    var u := Unmixed(w, a, b, c, d, x, y);
    assert u[a] == v[a] && u[b] == v[b] && u[c] == v[c] && u[d] == v[d];
    forall i | 0 <= i < |v| ensures u[i] == v[i] {
    }
  }

  function LittleWord(b: Bytes, at: nat): (w: Word)
    requires at + 4 <= |b|
  {
    b[at] as int + 256 * b[at + 1] as int + 0x1_0000 * b[at + 2] as int + 0x100_0000 * b[at + 3] as int
  }

  function MessageWords(block: Bytes): (m: seq<Word>)
    requires |block| == BLOCK
    ensures |m| == 16
  {
    seq(16, i requires 0 <= i < 16 => LittleWord(block, 4 * i))
  }

  function Round(v: seq<Word>, m: seq<Word>, s: seq<nat>): (r: seq<Word>)
    requires |v| == 16 && |m| == 16 && |s| == 16 && forall i :: 0 <= i < 16 ==> s[i] < 16
    ensures |r| == 16
  {
    var v := Mixed(v, 0, 4, 8, 12, m[s[0]], m[s[1]]);
    var v := Mixed(v, 1, 5, 9, 13, m[s[2]], m[s[3]]);
    var v := Mixed(v, 2, 6, 10, 14, m[s[4]], m[s[5]]);
    var v := Mixed(v, 3, 7, 11, 15, m[s[6]], m[s[7]]);
    var v := Mixed(v, 0, 5, 10, 15, m[s[8]], m[s[9]]);
    var v := Mixed(v, 1, 6, 11, 12, m[s[10]], m[s[11]]);
    var v := Mixed(v, 2, 7, 8, 13, m[s[12]], m[s[13]]);
    Mixed(v, 3, 4, 9, 14, m[s[14]], m[s[15]])
  }

  /** A round backwards: the diagonals, then the columns. */
  function Unround(v: seq<Word>, m: seq<Word>, s: seq<nat>): (r: seq<Word>)
    requires |v| == 16 && |m| == 16 && |s| == 16 && forall i :: 0 <= i < 16 ==> s[i] < 16
    ensures |r| == 16
  {
    hide Unmixed;
    var v := Unmixed(v, 3, 4, 9, 14, m[s[14]], m[s[15]]);
    var v := Unmixed(v, 2, 7, 8, 13, m[s[12]], m[s[13]]);
    var v := Unmixed(v, 1, 6, 11, 12, m[s[10]], m[s[11]]);
    var v := Unmixed(v, 0, 5, 10, 15, m[s[8]], m[s[9]]);
    var v := Unmixed(v, 3, 7, 11, 15, m[s[6]], m[s[7]]);
    var v := Unmixed(v, 2, 6, 10, 14, m[s[4]], m[s[5]]);
    var v := Unmixed(v, 1, 5, 9, 13, m[s[2]], m[s[3]]);
    Unmixed(v, 0, 4, 8, 12, m[s[0]], m[s[1]])
  }

  lemma RoundIsInvertible(v: seq<Word>, m: seq<Word>, s: seq<nat>)
    requires |v| == 16 && |m| == 16 && |s| == 16 && forall i :: 0 <= i < 16 ==> s[i] < 16
    ensures Unround(Round(v, m, s), m, s) == v
  {
    hide Mixed, Unmixed;
    var v1 := Mixed(v, 0, 4, 8, 12, m[s[0]], m[s[1]]);
    var v2 := Mixed(v1, 1, 5, 9, 13, m[s[2]], m[s[3]]);
    var v3 := Mixed(v2, 2, 6, 10, 14, m[s[4]], m[s[5]]);
    var v4 := Mixed(v3, 3, 7, 11, 15, m[s[6]], m[s[7]]);
    var v5 := Mixed(v4, 0, 5, 10, 15, m[s[8]], m[s[9]]);
    var v6 := Mixed(v5, 1, 6, 11, 12, m[s[10]], m[s[11]]);
    var v7 := Mixed(v6, 2, 7, 8, 13, m[s[12]], m[s[13]]);
    MixedIsInvertible(v, 0, 4, 8, 12, m[s[0]], m[s[1]]);
    MixedIsInvertible(v1, 1, 5, 9, 13, m[s[2]], m[s[3]]);
    MixedIsInvertible(v2, 2, 6, 10, 14, m[s[4]], m[s[5]]);
    MixedIsInvertible(v3, 3, 7, 11, 15, m[s[6]], m[s[7]]);
    MixedIsInvertible(v4, 0, 5, 10, 15, m[s[8]], m[s[9]]);
    MixedIsInvertible(v5, 1, 6, 11, 12, m[s[10]], m[s[11]]);
    MixedIsInvertible(v6, 2, 7, 8, 13, m[s[12]], m[s[13]]);
    MixedIsInvertible(v7, 3, 4, 9, 14, m[s[14]], m[s[15]]);
  }

  function Rounds(v: seq<Word>, m: seq<Word>, n: nat): (r: seq<Word>)
    requires |v| == 16 && |m| == 16 && n <= 10
    ensures |r| == 16
  {
    if n == 0 then v
    else
      SigmaIsPermutations(n - 1);
      Round(Rounds(v, m, n - 1), m, SIGMA[n - 1])
  }

  /** For every message block the rounds are a permutation of the vectors: different vectors stay different. */
  lemma {:induction false} RoundsAreInjective(v: seq<Word>, w: seq<Word>, m: seq<Word>, n: nat)
    requires |v| == |w| == 16 && |m| == 16 && n <= 10 && Rounds(v, m, n) == Rounds(w, m, n)
    ensures v == w
  {
    hide Round, Unround;
    if n > 0 {
      SigmaIsPermutations(n - 1);
      RoundIsInvertible(Rounds(v, m, n - 1), m, SIGMA[n - 1]);
      RoundIsInvertible(Rounds(w, m, n - 1), m, SIGMA[n - 1]);
      RoundsAreInjective(v, w, m, n - 1);
    }
  }

  /** The local vector before the rounds: the state, the constants, the octet count and the final flag. */
  function WorkVector(h: seq<Word>, t: nat, last: bool): (v: seq<Word>)
    requires |h| == 8
    ensures |v| == 16
  {
    var v := h + IV;
    var v := v[12 := XorWord(v[12], t % WORDS)];
    var v := v[13 := XorWord(v[13], t / WORDS % WORDS)];
    if last then v[14 := WORDS - 1 - v[14] as int] else v
  }

  /** The octet count and the final flag are part of what is compressed: they tell vectors of one state apart. */
  lemma WorkVectorTells(h: seq<Word>, t: nat, last: bool, u: nat, final: bool)
    requires |h| == 8 && t < WORDS * WORDS && u < WORDS * WORDS
    ensures WorkVector(h, t, last) == WorkVector(h, u, final) ==> t == u && last == final
  {
    hide XorWord;
    var v, w := WorkVector(h, t, last), WorkVector(h, u, final);
    var x, y := (h + IV)[12], (h + IV)[13];
    assert v[12] == XorWord(x, t % WORDS) && w[12] == XorWord(x, u % WORDS);
    assert v[13] == XorWord(y, t / WORDS % WORDS) && w[13] == XorWord(y, u / WORDS % WORDS);
    if v == w {
      XorDetermines(x, t % WORDS, u % WORDS);
      XorDetermines(y, t / WORDS % WORDS, u / WORDS % WORDS);
      assert t / WORDS < WORDS && u / WORDS < WORDS;
      assert v[14] == w[14];
    }
  }

  lemma XorDetermines(x: Word, a: Word, b: Word)
    requires XorWord(x, a) == XorWord(x, b)
    ensures a == b
  {
    hide Xor;
    XorCommutes(x, a);
    XorCommutes(x, b);
    XorTwice(a, x);
    XorTwice(b, x);
  }

  /** The compression function F of section 3.2 of RFC 7693. */
  function Compressed(h: seq<Word>, block: Bytes, t: nat, last: bool): (r: seq<Word>)
    requires |h| == 8 && |block| == BLOCK
    ensures |r| == 8
  {
    hide Rounds;
    var v := Rounds(WorkVector(h, t, last), MessageWords(block), 10);
    seq(8, i requires 0 <= i < 8 => XorWord(h[i], XorWord(v[i], v[i + 8])))
  }

  method Mix(v: array<Word>, a: nat, b: nat, c: nat, d: nat, x: Word, y: Word)
    requires a < v.Length && b < v.Length && c < v.Length && d < v.Length
    modifies v
    ensures v[..] == Mixed(old(v[..]), a, b, c, d, x, y)
  {
    hide XorWord, AddWord, Rotate16, Rotate12, Rotate8, Rotate7;
    v[a] := AddWord(AddWord(v[a], v[b]), x);
    v[d] := Rotate16(XorWord(v[d], v[a]));
    v[c] := AddWord(v[c], v[d]);
    v[b] := Rotate12(XorWord(v[b], v[c]));
    v[a] := AddWord(AddWord(v[a], v[b]), y);
    v[d] := Rotate8(XorWord(v[d], v[a]));
    v[c] := AddWord(v[c], v[d]);
    v[b] := Rotate7(XorWord(v[b], v[c]));
  }

  method RunRound(v: array<Word>, m: seq<Word>, s: seq<nat>)
    requires v.Length == 16 && |m| == 16 && |s| == 16 && forall i :: 0 <= i < 16 ==> s[i] < 16
    modifies v
    ensures v[..] == Round(old(v[..]), m, s)
  {
    hide Mixed;
    Mix(v, 0, 4, 8, 12, m[s[0]], m[s[1]]);
    Mix(v, 1, 5, 9, 13, m[s[2]], m[s[3]]);
    Mix(v, 2, 6, 10, 14, m[s[4]], m[s[5]]);
    Mix(v, 3, 7, 11, 15, m[s[6]], m[s[7]]);
    Mix(v, 0, 5, 10, 15, m[s[8]], m[s[9]]);
    Mix(v, 1, 6, 11, 12, m[s[10]], m[s[11]]);
    Mix(v, 2, 7, 8, 13, m[s[12]], m[s[13]]);
    Mix(v, 3, 4, 9, 14, m[s[14]], m[s[15]]);
  }

  method Compress(h: array<Word>, block: Bytes, t: nat, last: bool)
    requires h.Length == 8 && |block| == BLOCK
    modifies h
    ensures h[..] == Compressed(old(h[..]), block, t, last)
  {
    hide Round, XorWord, LittleWord, WorkVector;
    var message := MessageWords(block);
    var start := WorkVector(h[..], t, last);
    var v := new Word[16](i requires 0 <= i < 16 => start[i]);
    assert v[..] == start;
    for round := 0 to 10
      invariant v[..] == Rounds(start, message, round) && h[..] == old(h[..])
    {
      SigmaIsPermutations(round);
      RunRound(v, message, SIGMA[round]);
    }
    ghost var mixed := v[..];
    for i := 0 to 8
      invariant v[..] == mixed
      invariant forall k :: 0 <= k < i ==> h[k] == XorWord(old(h[k]), XorWord(mixed[k], mixed[k + 8]))
      invariant forall k :: i <= k < 8 ==> h[k] == old(h[k])
    {
      h[i] := XorWord(h[i], XorWord(v[i], v[i + 8]));
    }
    assert h[..] == Compressed(old(h[..]), block, t, last);
  }

  // ----- the one-shot hash -----

  function Zeros(n: nat): (r: Bytes)
    ensures |r| == n
  {
    seq(n, _ => 0)
  }

  function Padded(data: Bytes): (r: Bytes)
    requires |data| <= BLOCK
    ensures |r| == BLOCK
  {
    data + Zeros(BLOCK - |data|)
  }

  /** The state after the last of the blocks of `data`, `t` octets having gone before. */
  function Absorbed(h: seq<Word>, data: Bytes, t: nat): (r: seq<Word>)
    requires |h| == 8
    ensures |r| == 8
    decreases |data|
  {
    if |data| <= BLOCK then Compressed(h, Padded(data), t + |data|, true)
    else Absorbed(Compressed(h, data[..BLOCK], t + BLOCK, false), data[BLOCK..], t + BLOCK)
  }

  function Parameters(size: nat, keyLength: nat): (h: seq<Word>)
    requires 1 <= size <= MAXIMUM_DIGEST && keyLength <= MAXIMUM_KEY
    ensures |h| == 8
  {
    IV[0 := XorWord(IV[0], 0x0101_0000 + keyLength * 256 + size)]
  }

  /** Digests of different sizes, or under keys of different lengths, start from different states. */
  lemma ParametersTell(size: nat, keyLength: nat, other: nat, otherLength: nat)
    requires 1 <= size <= MAXIMUM_DIGEST && keyLength <= MAXIMUM_KEY
    requires 1 <= other <= MAXIMUM_DIGEST && otherLength <= MAXIMUM_KEY
    ensures Parameters(size, keyLength) == Parameters(other, otherLength) ==> size == other && keyLength == otherLength
  {
    hide XorWord;
    var p, q := Parameters(size, keyLength), Parameters(other, otherLength);
    var x, y := 0x0101_0000 + keyLength * 256 + size, 0x0101_0000 + otherLength * 256 + other;
    assert p[0] == XorWord(IV[0], x) && q[0] == XorWord(IV[0], y);
    if p == q { XorDetermines(IV[0], x, y); }
  }

  /** A key, if any, is a block of its own before the input. */
  function KeyBlock(key: Bytes): (r: Bytes)
    requires |key| <= MAXIMUM_KEY
  {
    if |key| == 0 then [] else Padded(key)
  }

  function StoredWord(w: Word): (r: Bytes)
    ensures |r| == 4
  {
    [w as int % 256, w as int / 256 % 256, w as int / 0x1_0000 % 256, w as int / 0x100_0000]
  }

  function Serialized(h: seq<Word>): (r: Bytes)
    ensures |r| == 4 * |h|
  {
    if |h| == 0 then [] else Serialized(h[..|h| - 1]) + StoredWord(h[|h| - 1])
  }

  /** The hash of section 3.3 of RFC 7693. */
  function Digest(size: nat, key: Bytes, input: Bytes): (r: Bytes)
    requires 1 <= size <= MAXIMUM_DIGEST && |key| <= MAXIMUM_KEY
    ensures |r| == size
  {
    Serialized(Absorbed(Parameters(size, |key|), KeyBlock(key) + input, 0))[..size]
  }

  // ----- hashing block by block -----

  /** The state after whole blocks none of which is the last. */
  function Chained(h: seq<Word>, blocks: Bytes): (r: seq<Word>)
    requires |h| == 8 && |blocks| % BLOCK == 0
    ensures |r| == 8
  {
    if |blocks| == 0 then h
    else
      var n := |blocks| - BLOCK;
      Compressed(Chained(h, blocks[..n]), blocks[n..], |blocks|, false)
  }

  lemma AbsorbBlock(h: seq<Word>, block: Bytes, rest: Bytes, t: nat)
    requires |h| == 8 && |block| == BLOCK && |rest| > 0
    ensures Absorbed(h, block + rest, t) == Absorbed(Compressed(h, block, t + BLOCK, false), rest, t + BLOCK)
  {
    hide Compressed;
    assert (block + rest)[..BLOCK] == block && (block + rest)[BLOCK..] == rest;
  }

  /** Whole blocks may be compressed ahead of time as long as something follows them. */
  lemma {:induction false} ChainedThenAbsorbed(h: seq<Word>, blocks: Bytes, rest: Bytes)
    requires |h| == 8 && |blocks| % BLOCK == 0 && (|rest| > 0 || |blocks| == 0)
    ensures Absorbed(h, blocks + rest, 0) == Absorbed(Chained(h, blocks), rest, |blocks|)
    decreases |blocks|
  {
    hide Compressed, Absorbed;
    if |blocks| == 0 {
      assert blocks + rest == rest;
    } else {
      var n := |blocks| - BLOCK;
      var block := blocks[n..];
      ChainedThenAbsorbed(h, blocks[..n], block + rest);
      assert blocks[..n] + (block + rest) == blocks + rest;
      AbsorbBlock(Chained(h, blocks[..n]), block, rest, n);
    }
  }

  // ----- the streaming class -----

  function Clamped(size: nat): (r: nat)
    ensures 1 <= r <= MAXIMUM_DIGEST && (1 <= size <= MAXIMUM_DIGEST ==> r == size)
  {
    if size < 1 then 1 else if size > MAXIMUM_DIGEST then MAXIMUM_DIGEST else size
  }

  function UsedKey(key: Bytes): (r: Bytes)
    ensures |r| <= MAXIMUM_KEY && (|key| <= MAXIMUM_KEY ==> r == key)
  {
    if |key| <= MAXIMUM_KEY then key else key[..MAXIMUM_KEY]
  }

  class Blake2s {
    const state: array<Word>
    const buffer: array<Byte>
    const digestSize: nat
    var buffered: nat
    var counter: nat
    var finished: bool

    /** The parameter block, and everything hashed so far, the key block included. */
    ghost const initial: seq<Word>
    ghost var fed: Bytes

    ghost predicate Shaped()
    {
      && state.Length == 8 && buffer.Length == BLOCK && |initial| == 8 && 1 <= digestSize <= MAXIMUM_DIGEST
      && (state as object) != (buffer as object)
    }

    /** Whole blocks are compressed, except that the last octets always wait in the buffer. */
    ghost predicate Valid()
      reads this, state, buffer
    {
      && Shaped()
      && (!finished ==>
            && buffered <= BLOCK && counter % BLOCK == 0 && counter + buffered == |fed|
            && (buffered == 0 ==> counter == 0)
            && buffer[..buffered] == fed[counter..]
            && state[..] == Chained(initial, fed[..counter]))
    }

    constructor (size: nat, key: Bytes)
      ensures Valid() && !finished && digestSize == Clamped(size) && fresh(state) && fresh(buffer)
      ensures initial == Parameters(Clamped(size), |UsedKey(key)|)
      ensures fed == KeyBlock(UsedKey(key))
    {
      hide Chained, Compressed, Parameters;
      var used := UsedKey(key);
      var start := Parameters(Clamped(size), |used|);
      state := new Word[8](i requires 0 <= i < 8 => start[i]);
      buffer := new Byte[BLOCK](_ => 0);
      digestSize := Clamped(size);
      buffered, counter, finished := 0, 0, false;
      initial, fed := start, [];
      new;
      assert state[..] == start == Chained(initial, []) by { NothingChained(start); }
      assert fed[..0] == [];
      if |used| > 0 {
        Update(Padded(used));
      }
    }

    method CompressBuffer(last: bool)
      requires Shaped() && (last || buffered == BLOCK)
      modifies state
      ensures state[..] == Compressed(old(state[..]), buffer[..], counter, last)
      ensures buffer[..] == old(buffer[..])
    {
      hide Compressed;
      Compress(state, buffer[..], counter, last);
    }

    method Update(input: Bytes)
      requires Valid()
      modifies this`buffered, this`counter, this`fed, state, buffer
      ensures Valid() && finished == old(finished)
      ensures fed == old(fed) + if finished then [] else input
    {
      hide Chained;
      if finished { return; }
      var offset := 0;
      assert input[..0] == [];
      while offset < |input|
        invariant offset <= |input| && Valid() && !finished && fed == old(fed) + input[..offset]
      {
        var take := TakeSome(input[offset..]);
        assert input[..offset] + input[offset..][..take] == input[..offset + take];
        offset := offset + take;
      }
      assert input[..offset] == input;
    }

    /** Buffers as much of the input as fits, after making room. */
    method TakeSome(input: Bytes) returns (take: nat)
      requires Valid() && !finished && |input| > 0
      modifies this`buffered, this`counter, this`fed, state, buffer
      ensures Valid() && 0 < take <= |input| && fed == old(fed) + input[..take]
    {
      hide Chained, Compressed;
      if buffered == BLOCK { FlushBlock(); }
      take := if BLOCK - buffered < |input| then BLOCK - buffered else |input|;
      Buffer(input[..take]);
    }

    /** Compresses the full buffer; octets must follow before the hash is finished. */
    method FlushBlock()
      requires Valid() && !finished && buffered == BLOCK
      modifies this`buffered, this`counter, state
      ensures Shaped() && buffered == 0 && counter == old(counter) + BLOCK == |fed| && counter % BLOCK == 0
      ensures state[..] == Chained(initial, fed[..counter])
    {
      hide Compressed;
      ghost var blocks := fed[..counter + BLOCK];
      assert blocks[..counter] == fed[..counter] && blocks[counter..] == fed[counter..];
      assert buffer[..] == buffer[..buffered];
      counter := counter + BLOCK;
      CompressBuffer(false);
      buffered := 0;
    }

    method Buffer(part: Bytes)
      requires Shaped() && !finished && 0 < |part| <= BLOCK - buffered && counter % BLOCK == 0
      requires counter + buffered == |fed| && buffer[..buffered] == fed[counter..]
      requires state[..] == Chained(initial, fed[..counter])
      modifies this`buffered, this`fed, buffer
      ensures Valid() && fed == old(fed) + part
    {
      hide Chained;
      ghost var before := buffer[..buffered];
      forall i | 0 <= i < |part| { buffer[buffered + i] := part[i]; }
      buffered := buffered + |part|;
      fed := fed + part;
      assert buffer[..buffered] == before + part == fed[counter..];
      assert fed[..counter] == old(fed)[..counter];
    }

    /** The digest of everything fed, however it was cut into updates. */
    method Finish(capacity: nat) returns (out: Bytes)
      requires Valid()
      modifies this`counter, this`finished, state, buffer
      ensures Valid() && finished
      ensures old(finished) ==> out == []
      ensures !old(finished) ==>
                out == Serialized(Absorbed(initial, fed, 0))[..if capacity < digestSize then capacity else digestSize]
    {
      hide Chained, Compressed, StoredWord;
      if finished { return []; }
      ghost var rest := fed[counter..];
      assert fed == fed[..counter] + rest;
      ChainedThenAbsorbed(initial, fed[..counter], rest);
      ghost var result := Absorbed(initial, fed, 0);
      assert result == Compressed(state[..], Padded(rest), counter + buffered, true);
      ghost var chained := state[..];
      finished := true;
      counter := counter + buffered;
      forall i | buffered <= i < BLOCK { buffer[i] := 0; }
      assert buffer[..] == Padded(rest) && state[..] == chained;
      CompressBuffer(true);
      var digest := [];
      for i := 0 to 8
        invariant digest == Serialized(state[..i]) && state[..] == result
      {
        assert state[..i + 1][..i] == state[..i];
        digest := digest + StoredWord(state[i]);
      }
      assert state[..8] == state[..] == result;
      out := digest[..if capacity < digestSize then capacity else digestSize];
    }

    static method Hash(input: Bytes, key: Bytes) returns (digest: Bytes)
      ensures digest == Digest(MAXIMUM_DIGEST, UsedKey(key), input)
    {
      hide Absorbed, Serialized, Chained, Compressed, Parameters, Padded;
      var h := new Blake2s(MAXIMUM_DIGEST, key);
      h.Update(input);
      digest := h.Finish(MAXIMUM_DIGEST);
    }
  }

  lemma NothingChained(h: seq<Word>)
    requires |h| == 8
    ensures Chained(h, []) == h
  {
  }
}
