/**
 The lookup tables of the erasure code and the operations that read them: table construction,
 multiplication, inversion, Cauchy coefficients, and the multiply-and-add kernel with its
 nibble-split fast path.
 */
module GaloisTables {
  import opened Octets
  import opened GaloisField

  const MAXIMUM_DATA := 64
  const MAXIMUM_PARITY := 16

  // ----- specification -----

  /** The coefficient of data column `column` in parity row `row`. */
  ghost function Cauchy(row: nat, column: nat): (r: Byte)
    requires row < MAXIMUM_PARITY && column < MAXIMUM_DATA
  {
    Inverse(Add(MAXIMUM_DATA + row, column))
  }

  /** `acc` with `c` times `src` added to its first |src| elements. */
  ghost function MulAdd(acc: seq<Byte>, src: seq<Byte>, c: Byte): (r: seq<Byte>)
    ensures |r| == |acc|
  {
    seq(|acc|, i requires 0 <= i < |acc| => if i < |src| then Add(acc[i], Mul(c, src[i])) else acc[i])
  }

  ghost function Scaled(row: seq<Byte>, c: Byte): (r: seq<Byte>)
    ensures |r| == |row|
  {
    seq(|row|, i requires 0 <= i < |row| => Mul(c, row[i]))
  }

  lemma DisjointBits(o: nat, t: nat, h: nat)
    requires o < 8 && t < 2
    ensures Xor(o + 8 * t, 8 * (2 * h)) == o + 8 * t + 16 * h
  {
    hide Xor;
    XorOctal(o, t, 0, 2 * h);
    XorDigit(0, h, t, 0);
    XorIdentity(o);
    XorIdentity(h);
  }

  lemma NibbleSum(x: Byte)
    ensures Add(x % 16, x / 16 * 16) == x
  {
    hide Xor;
    var o, t, h := x % 8, x / 8 % 2, x / 16;
    DisjointBits(o, t, h);
    assert x % 16 == o + 8 * t;
  }

  /** A product is the sum of the products of the two nibbles: one lookup in each half-table. */
  lemma NibbleProducts(c: Byte, x: Byte)
    ensures Mul(c, x) == Add(Mul(c, x % 16), Mul(c, x / 16 * 16))
  {
    hide Mul, Add;
    NibbleSum(x);
    MulDistributes(c, x % 16, x / 16 * 16);
  }

  // ----- the tables -----

  class Tables {
    const exp: array<Byte>
    const log: array<Byte>
    const product: array2<Byte>
    const nibbles: array2<Byte>

    ghost predicate Shape()
    {
      && exp.Length == 512 && log.Length == 256
      && product.Length0 == 256 && product.Length1 == 256
      && nibbles.Length0 == 256 && nibbles.Length1 == 32
      && exp != log && product != nibbles
    }

    ghost predicate Valid()
      reads exp, log, product, nibbles
    {
      && Shape()
      && (forall k :: 0 <= k < 512 ==> exp[k] == Exp(k))
      && (forall v :: 0 < v < 256 ==> log[v] == Log(v))
      && (forall a, b :: 0 <= a < 256 && 0 <= b < 256 ==> product[a, b] == Mul(a, b))
      && (forall c, n :: 0 <= c < 256 && 0 <= n < 16 ==>
            nibbles[c, n] == Mul(c, n) && nibbles[c, 16 + n] == Mul(c, n * 16))
    }

    constructor ()
      ensures Valid()
      ensures fresh(exp) && fresh(log) && fresh(product) && fresh(nibbles)
    {
      exp := new Byte[512];
      log := new Byte[256](_ => 0);
      product := new Byte[256, 256]((_, _) => 0);
      nibbles := new Byte[256, 32];
      new;
      FillPowers();
      FillProducts();
      FillNibbles();
    }

    method FillPowers()
      requires Shape()
      modifies exp, log
      ensures forall k :: 0 <= k < 512 ==> exp[k] == Exp(k)
      ensures forall v :: 0 < v < 256 ==> log[v] == Log(v)
    {
      hide Xor, Exp, Log;
      var value: nat := 1;
      ExpZero();
      for index := 0 to 255
        invariant value < 256 && value == Exp(index)
        invariant forall k :: 0 <= k < index ==> exp[k] == Exp(k)
        invariant forall k :: 0 <= k < index ==> log[Exp(k)] == k
      {
        exp[index] := value;
        forall k | 0 <= k < index ensures Exp(k) != value { ExpIsInjective(k, index); }
        log[value] := index;
        ExpSuccessor(index);
        value := 2 * value;
        if value >= 256 { value := Xor(value, REDUCTION); }
      }
      forall v | 0 < v < 256 ensures log[v] == Log(v) {
        assert Exp(Log(v)) == v && Log(v) < 255;
      }
      for index := 255 to 512
        invariant forall k :: 0 <= k < index ==> exp[k] == Exp(k)
        invariant forall v :: 0 < v < 256 ==> log[v] == Log(v)
      {
        ExpPeriod(index - 255);
        exp[index] := exp[index - 255];
      }
    }

    method FillProducts()
      requires Shape()
      requires forall k :: 0 <= k < 512 ==> exp[k] == Exp(k)
      requires forall v :: 0 < v < 256 ==> log[v] == Log(v)
      requires forall a, b :: 0 <= a < 256 && 0 <= b < 256 ==> product[a, b] == 0
      modifies product
      ensures forall a, b :: 0 <= a < 256 && 0 <= b < 256 ==> product[a, b] == Mul(a, b)
    {
      hide Exp, Log, Mul;
      for left := 1 to 256
        invariant forall a, b :: 0 < a < left && 0 < b < 256 ==> product[a, b] == Mul(a, b)
        invariant forall a, b :: 0 <= a < 256 && 0 <= b < 256 && (a == 0 || b == 0) ==> product[a, b] == 0
      {
        for right := 1 to 256
          invariant forall a, b :: 0 < a < left && 0 < b < 256 ==> product[a, b] == Mul(a, b)
          invariant forall b :: 0 < b < right ==> product[left, b] == Mul(left, b)
          invariant forall a, b :: 0 <= a < 256 && 0 <= b < 256 && (a == 0 || b == 0) ==> product[a, b] == 0
        {
          MulByLogs(left, right);
          product[left, right] := exp[(log[left] as int) + (log[right] as int)];
        }
      }
      forall a, b | 0 <= a < 256 && 0 <= b < 256 ensures product[a, b] == Mul(a, b) {
        MulIsZero(a, b);
      }
    }

    method FillNibbles()
      requires Shape()
      requires forall a, b :: 0 <= a < 256 && 0 <= b < 256 ==> product[a, b] == Mul(a, b)
      modifies nibbles
      ensures forall c, n :: 0 <= c < 256 && 0 <= n < 16 ==>
                nibbles[c, n] == Mul(c, n) && nibbles[c, 16 + n] == Mul(c, n * 16)
    {
      hide Mul;
      for coefficient := 0 to 256
        invariant forall c, n :: 0 <= c < coefficient && 0 <= n < 16 ==>
                    nibbles[c, n] == Mul(c, n) && nibbles[c, 16 + n] == Mul(c, n * 16)
      {
        for nibble := 0 to 16
          invariant forall c, n :: 0 <= c < coefficient && 0 <= n < 16 ==>
                      nibbles[c, n] == Mul(c, n) && nibbles[c, 16 + n] == Mul(c, n * 16)
          invariant forall n :: 0 <= n < nibble ==>
                      nibbles[coefficient, n] == Mul(coefficient, n)
                      && nibbles[coefficient, 16 + n] == Mul(coefficient, n * 16)
        {
          nibbles[coefficient, nibble] := product[coefficient, nibble];
          nibbles[coefficient, 16 + nibble] := product[coefficient, nibble * 16];
        }
      }
    }

    method Multiply(left: Byte, right: Byte) returns (r: Byte)
      requires Valid()
      ensures r == Mul(left, right)
    {
      hide Mul;
      r := product[left, right];
    }

    method Invert(value: Byte) returns (r: Byte)
      requires Valid()
      ensures r == Inverse(value)
      ensures value != 0 ==> Mul(value, r) == 1
    {
      hide Mul, Exp, Log;
      if value == 0 { return 0; }
      r := exp[255 - log[value]];
    }

    method Coefficient(row: nat, column: nat) returns (r: Byte)
      requires Valid()
      requires row < MAXIMUM_PARITY && column < MAXIMUM_DATA
      ensures r == Cauchy(row, column) && r != 0
    {
      hide Mul, Inverse;
      CauchyIsNonzero(row, column);
      var x: Byte, y: Byte := MAXIMUM_DATA + row, column;
      r := Invert(Add(x, y));
    }

    /** The kernel of encoder and decoder. `stride` is the width of the vector unit: 32, 16, or 0
        when there is none. */
    method MultiplyAdd(acc: array<Byte>, src: seq<Byte>, coefficient: Byte, stride: nat)
      requires Valid()
      requires acc != exp && acc != log
      modifies acc
      ensures acc[..] == MulAdd(old(acc[..]), src, coefficient)
    {
      hide Mul, Add;
      var length := if acc.Length <= |src| then acc.Length else |src|;
      ghost var before := acc[..];
      forall x: Byte ensures Mul(0, x) == 0 && Add(x, 0) == x && Mul(1, x) == x {
        MulZero(0, x);
        AddZero(x);
        MulOne(x);
      }
      if coefficient == 0 { return; }
      if coefficient == 1 {
        for i := 0 to length
          invariant forall k :: 0 <= k < i ==> acc[k] == Add(before[k], src[k])
          invariant forall k :: i <= k < acc.Length ==> acc[k] == before[k]
        {
          acc[i] := Add(acc[i], src[i]);
        }
        return;
      }
      var index := 0;
      if stride > 0 {
        index := VectorPart(acc, src, coefficient, stride, length);
      }
      while index < length
        invariant index <= length
        invariant forall k :: 0 <= k < index ==> acc[k] == Add(before[k], Mul(coefficient, src[k]))
        invariant forall k :: index <= k < acc.Length ==> acc[k] == before[k]
      {
        acc[index] := Add(acc[index], product[coefficient, src[index]]);
        index := index + 1;
      }
    }

    /** Whole vectors only; every lane looks up its low nibble and its high nibble. */
    method VectorPart(acc: array<Byte>, src: seq<Byte>, coefficient: Byte, stride: nat, length: nat)
      returns (index: nat)
      requires Valid()
      requires acc != exp && acc != log
      requires stride > 0 && length <= acc.Length && length <= |src|
      modifies acc
      ensures index <= length < index + stride
      ensures forall k :: 0 <= k < index ==> acc[k] == Add(old(acc[k]), Mul(coefficient, src[k]))
      ensures forall k :: index <= k < acc.Length ==> acc[k] == old(acc[k])
    {
      hide Mul, Add;
      index := 0;
      while index + stride <= length
        invariant index <= length
        invariant forall k :: 0 <= k < index ==> acc[k] == Add(old(acc[k]), Mul(coefficient, src[k]))
        invariant forall k :: index <= k < acc.Length ==> acc[k] == old(acc[k])
      {
        for lane := 0 to stride
          invariant forall k :: 0 <= k < index + lane ==>
                      acc[k] == Add(old(acc[k]), Mul(coefficient, src[k]))
          invariant forall k :: index + lane <= k < acc.Length ==> acc[k] == old(acc[k])
        {
          var input := src[index + lane];
          NibbleProducts(coefficient, input);
          var low, high := nibbles[coefficient, input % 16], nibbles[coefficient, 16 + input / 16];
          acc[index + lane] := Add(acc[index + lane], Add(low, high));
        }
        index := index + stride;
      }
    }

    method Scale(row: array<Byte>, coefficient: Byte)
      requires Valid()
      requires row != exp && row != log
      modifies row
      ensures row[..] == Scaled(old(row[..]), coefficient)
    {
      hide Mul;
      for i := 0 to row.Length
        invariant forall k :: 0 <= k < i ==> row[k] == Mul(coefficient, old(row[k]))
        invariant forall k :: i <= k < row.Length ==> row[k] == old(row[k])
      {
        row[i] := product[coefficient, row[i]];
      }
    }
  }

  lemma ExpSuccessor(k: nat)
    ensures Exp(k + 1) == Xtime(Exp(k))
    ensures Exp(k + 1) == if 2 * Exp(k) < 256 then 2 * Exp(k) else Xor(2 * Exp(k), REDUCTION)
  {
    hide Xor;
  }

  /** Rows use points 64 and up, columns points below 64, so no coefficient divides by zero. */
  lemma CauchyIsNonzero(row: nat, column: nat)
    requires row < MAXIMUM_PARITY && column < MAXIMUM_DATA
    ensures Add(MAXIMUM_DATA + row, column) != 0
    ensures Cauchy(row, column) != 0
  {
    hide Add, Mul;
    AddIsZero(MAXIMUM_DATA + row, column);
  }
}
