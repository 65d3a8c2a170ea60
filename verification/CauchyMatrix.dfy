/**
 The algebra behind the decoder's elimination: clearing one column of a Cauchy matrix leaves a
 Cauchy matrix again, up to nonzero factors on its rows and columns.
 */
module CauchyMatrix {
  import opened Octets
  import opened GaloisField

  lemma MulExchange(a: Byte, b: Byte, c: Byte, d: Byte)
    ensures Mul(Mul(a, b), Mul(c, d)) == Mul(Mul(a, c), Mul(b, d))
  {
    hide Mul;
    MulAssociates(a, b, Mul(c, d));
    MulAssociates(b, c, d);
    MulCommutes(b, c);
    MulAssociates(c, b, d);
    MulAssociates(a, c, Mul(b, d));
  }

  lemma MulLeftFactor(a: Byte, b: Byte, c: Byte)
    ensures Mul(a, Mul(b, c)) == Mul(b, Mul(a, c))
  {
    hide Mul;
    MulAssociates(a, b, c);
    MulCommutes(a, b);
    MulAssociates(b, a, c);
  }

  lemma MulUnit(a: Byte)
    ensures Mul(a, 1) == a && Mul(1, a) == a
  {
    hide Mul;
    MulOne(a);
    MulCommutes(a, 1);
  }

  lemma InverseIsUnique(a: Byte, b: Byte, c: Byte)
    requires Mul(a, c) == 1 && Mul(b, c) == 1
    ensures a == b
  {
    hide Mul;
    MulUnit(a);
    MulUnit(b);
    MulCommutes(b, c);
    MulAssociates(a, c, b);
  }

  /** The identity over characteristic two that makes the eliminated entry factor. */
  lemma CrossSum(a: Byte, b: Byte, c: Byte, d: Byte)
    ensures Add(Mul(Add(a, d), Add(b, c)), Mul(Add(b, d), Add(a, c))) == Mul(Add(a, b), Add(c, d))
  {
    hide Mul, Add;
    var e, p, q := Add(a, b), Add(a, d), Add(a, c);
    assert Add(b, d) == Add(e, p) by { CommonSummand(a, b, d); }
    assert Add(b, c) == Add(e, q) by { CommonSummand(a, b, c); }
    assert Add(c, d) == Add(q, p) by { CommonSummand(a, c, d); }
    MulDistributes(p, e, q);
    MulDistributesLeft(e, p, q);
    MulDistributes(e, q, p);
    MulCommutes(p, e);
    var x, y, z := Mul(e, p), Mul(p, q), Mul(e, q);
    assert Mul(p, Add(e, q)) == Add(x, y);
    assert Mul(Add(e, p), q) == Add(z, y);
    assert Mul(e, Add(q, p)) == Add(z, x);
    AddExchange(x, y, z, y);
    AddZero(y);
    AddZero(Add(x, z));
    AddCommutes(x, z);
  }

  lemma CommonSummand(a: Byte, b: Byte, c: Byte)
    ensures Add(b, c) == Add(Add(a, b), Add(a, c))
  {
    hide Add;
    AddExchange(a, b, a, c);
    AddZero(a);
    AddZero(Add(b, c));
  }

  /** One over the difference of the points `x` and `y`. */
  ghost function Cell(x: Byte, y: Byte): (r: Byte)
  {
    Inverse(Add(x, y))
  }

  lemma CellIsInverse(x: Byte, y: Byte)
    requires x != y
    ensures Cell(x, y) != 0 && Mul(Cell(x, y), Add(x, y)) == 1 && Mul(Add(x, y), Cell(x, y)) == 1
  {
    hide Mul, Add;
    AddIsZero(x, y);
    MulCommutes(Add(x, y), Cell(x, y));
  }

  /** Clearing column (xk, yk) in a plain Cauchy matrix. */
  lemma ClearedCell(x: Byte, xk: Byte, y: Byte, yk: Byte)
    requires x != y && x != yk && xk != y && xk != yk
    ensures Add(Cell(x, y), Mul(Add(xk, yk), Mul(Cell(x, yk), Cell(xk, y))))
         == Mul(Cell(x, y), Mul(Mul(Cell(x, yk), Cell(xk, y)), Mul(Add(x, xk), Add(y, yk))))
  {
    hide Mul, Add, Cell;
    var c, p := Cell(x, y), Mul(Cell(x, yk), Cell(xk, y));
    var q := Mul(Add(x, yk), Add(xk, y));
    var s := Mul(Add(xk, yk), Add(x, y));
    CellIsInverse(x, y);
    CellIsInverse(x, yk);
    CellIsInverse(xk, y);
    assert Mul(p, q) == 1 by {
      MulExchange(Cell(x, yk), Cell(xk, y), Add(x, yk), Add(xk, y));
      MulUnit(1);
    }
    var cp := Mul(c, p);
    assert c == Mul(cp, q) by {
      MulAssociates(c, p, q);
      MulUnit(c);
    }
    assert Mul(Add(xk, yk), p) == Mul(cp, s) by {
      MulCommutes(c, p);
      MulExchange(p, c, Add(xk, yk), Add(x, y));
      MulUnit(Mul(p, Add(xk, yk)));
      MulCommutes(p, Add(xk, yk));
    }
    MulDistributes(cp, q, s);
    CrossSum(x, xk, y, yk);
    MulAssociates(c, p, Mul(Add(x, xk), Add(y, yk)));
  }

  /** An entry of a Cauchy matrix scaled by `r` on its row and `s` on its column. */
  ghost function Entry(r: Byte, s: Byte, x: Byte, y: Byte): (e: Byte)
  {
    Mul(Mul(r, s), Cell(x, y))
  }

  lemma EntryIsNonzero(r: Byte, s: Byte, x: Byte, y: Byte)
    requires r != 0 && s != 0 && x != y
    ensures Entry(r, s, x, y) != 0
  {
    hide Mul, Add, Cell;
    MulIsZero(r, s);
    CellIsInverse(x, y);
    MulIsZero(Mul(r, s), Cell(x, y));
  }

  /** The multiple of the pivot row's entry that elimination adds. */
  lemma EliminationTerm(r: Byte, rk: Byte, s: Byte, sk: Byte,
                        x: Byte, xk: Byte, y: Byte, yk: Byte, f: Byte)
    requires x != y && x != yk && xk != y && xk != yk
    requires Mul(f, Entry(rk, sk, xk, yk)) == 1
    ensures Mul(Entry(r, sk, x, yk), Mul(f, Entry(rk, s, xk, y)))
         == Mul(Mul(r, s), Mul(Add(xk, yk), Mul(Cell(x, yk), Cell(xk, y))))
  {
    hide Mul, Add, Cell;
    var u, v := Mul(r, s), Mul(rk, sk);
    var p := Mul(Cell(x, yk), Cell(xk, y));
    CellIsInverse(xk, yk);
    assert Mul(f, v) == Add(xk, yk) by {
      MulAssociates(f, v, Cell(xk, yk));
      InverseIsUnique(Mul(f, v), Add(xk, yk), Cell(xk, yk));
    }
    var m, n := Entry(r, sk, x, yk), Entry(rk, s, xk, y);
    assert Mul(m, n) == Mul(Mul(u, v), p) by {
      MulExchange(Mul(r, sk), Cell(x, yk), Mul(rk, s), Cell(xk, y));
      MulCommutes(rk, s);
      MulExchange(r, sk, s, rk);
      MulCommutes(sk, rk);
    }
    MulLeftFactor(m, f, n);
    assert Mul(f, Mul(Mul(u, v), p)) == Mul(Mul(f, Mul(u, v)), p) by { MulAssociates(f, Mul(u, v), p); }
    MulLeftFactor(f, u, v);
    MulAssociates(u, Add(xk, yk), p);
  }

  ghost function NextRowFactor(r: Byte, x: Byte, xk: Byte, yk: Byte): (e: Byte)
  {
    Mul(r, Mul(Add(x, xk), Cell(x, yk)))
  }

  ghost function NextColumnFactor(s: Byte, y: Byte, xk: Byte, yk: Byte): (e: Byte)
  {
    Mul(s, Mul(Add(y, yk), Cell(xk, y)))
  }

  /** Elimination maps an entry of a scaled Cauchy matrix to an entry of another one. */
  lemma EliminatedEntry(r: Byte, rk: Byte, s: Byte, sk: Byte,
                        x: Byte, xk: Byte, y: Byte, yk: Byte, f: Byte)
    requires x != y && x != yk && xk != y && xk != yk
    requires Mul(f, Entry(rk, sk, xk, yk)) == 1
    ensures Add(Entry(r, s, x, y), Mul(Entry(r, sk, x, yk), Mul(f, Entry(rk, s, xk, y))))
         == Entry(NextRowFactor(r, x, xk, yk), NextColumnFactor(s, y, xk, yk), x, y)
  {
    hide Mul, Add, Cell;
    EliminationTerm(r, rk, s, sk, x, xk, y, yk, f);
    var u, p := Mul(r, s), Mul(Cell(x, yk), Cell(xk, y));
    var e := Mul(Add(x, xk), Add(y, yk));
    MulDistributes(u, Cell(x, y), Mul(Add(xk, yk), p));
    ClearedCell(x, xk, y, yk);
    MulExchange(r, Mul(Add(x, xk), Cell(x, yk)), s, Mul(Add(y, yk), Cell(xk, y)));
    MulExchange(Add(x, xk), Cell(x, yk), Add(y, yk), Cell(xk, y));
    MulCommutes(e, p);
    MulAssociates(u, Mul(p, e), Cell(x, y));
    MulCommutes(Mul(p, e), Cell(x, y));
  }

  lemma NextFactorsAreNonzero(r: Byte, s: Byte, x: Byte, xk: Byte, y: Byte, yk: Byte)
    requires r != 0 && x != xk && x != yk
    requires s != 0 && y != yk && xk != y
    ensures NextRowFactor(r, x, xk, yk) != 0 && NextColumnFactor(s, y, xk, yk) != 0
  {
    hide Mul, Add, Cell;
    AddIsZero(x, xk);
    AddIsZero(y, yk);
    CellIsInverse(x, yk);
    CellIsInverse(xk, y);
    MulIsZero(Add(x, xk), Cell(x, yk));
    MulIsZero(Add(y, yk), Cell(xk, y));
    MulIsZero(r, Mul(Add(x, xk), Cell(x, yk)));
    MulIsZero(s, Mul(Add(y, yk), Cell(xk, y)));
  }
}
