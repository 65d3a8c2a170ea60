/**
 Gauss-Jordan elimination as the decoder performs it, in place on a square matrix and the rows of
 received parity beside it, and what it computes: the unique solution whenever the matrix is a
 Cauchy matrix, with every diagonal pivot already nonzero.
 */
module Elimination {
  import opened Octets
  import opened GaloisField
  import opened GaloisTables
  import opened CauchyMatrix

  datatype System = System(matrix: seq<seq<Byte>>, syndrome: seq<seq<Byte>>)

  ghost predicate Rectangle(rows: seq<seq<Byte>>, height: nat, width: nat)
  {
    |rows| == height && forall r :: 0 <= r < height ==> |rows[r]| == width
  }

  ghost predicate Shaped(sys: System, n: nat, w: nat)
  {
    Rectangle(sys.matrix, n, n) && Rectangle(sys.syndrome, n, w)
  }

  // ----- the steps of one column -----

  /** The first row at or below `row` whose entry in `column` is nonzero, or the row count. */
  ghost function PivotFrom(rows: seq<seq<Byte>>, column: nat, row: nat): (p: nat)
    requires Rectangle(rows, |rows|, |rows|) && column < |rows| && row <= |rows|
    ensures row <= p <= |rows|
    ensures p < |rows| ==> rows[p][column] != 0
    ensures forall q :: row <= q < p ==> rows[q][column] == 0
    decreases |rows| - row
  {
    if row == |rows| then row
    else if rows[row][column] != 0 then row
    else PivotFrom(rows, column, row + 1)
  }

  ghost function Swapped(rows: seq<seq<Byte>>, i: nat, j: nat): (r: seq<seq<Byte>>)
    requires i < |rows| && j < |rows|
  {
    rows[i := rows[j]][j := rows[i]]
  }

  ghost function Normalized(rows: seq<seq<Byte>>, column: nat, factor: Byte): (r: seq<seq<Byte>>)
    requires column < |rows|
  {
    rows[column := Scaled(rows[column], factor)]
  }

  /** Every row but the pivot row, with `factors[row]` times the pivot row added. */
  ghost function Cleared(rows: seq<seq<Byte>>, column: nat, factors: seq<Byte>): (r: seq<seq<Byte>>)
    requires column < |rows| && |factors| == |rows|
    ensures |r| == |rows|
  {
    seq(|rows|, i requires 0 <= i < |rows| =>
      if i == column then rows[i] else MulAdd(rows[i], rows[column], factors[i]))
  }

  ghost function ColumnOf(rows: seq<seq<Byte>>, column: nat): (r: seq<Byte>)
    requires Rectangle(rows, |rows|, |rows|) && column < |rows|
  {
    seq(|rows|, i requires 0 <= i < |rows| => rows[i][column])
  }

  ghost function EliminateColumn(sys: System, column: nat, n: nat, w: nat): (r: Option<System>)
    requires Shaped(sys, n, w) && column < n
    ensures r.Some? ==> Shaped(r.value, n, w)
  {
    var pivot := PivotFrom(sys.matrix, column, column);
    if pivot == n then None else
      var m, s := Swapped(sys.matrix, pivot, column), Swapped(sys.syndrome, pivot, column);
      var factor := Inverse(m[column][column]);
      var m', s' := Normalized(m, column, factor), Normalized(s, column, factor);
      var factors := ColumnOf(m', column);
      Some(System(Cleared(m', column, factors), Cleared(s', column, factors)))
  }

  ghost function Eliminate(sys: System, column: nat, n: nat, w: nat): (r: Option<System>)
    requires Shaped(sys, n, w) && column <= n
    ensures r.Some? ==> Shaped(r.value, n, w)
    decreases n - column
  {
    if column == n then Some(sys)
    else
      var step := EliminateColumn(sys, column, n, w);
      if step.None? then None else Eliminate(step.value, column + 1, n, w)
  }

  // ----- linear combinations -----

  /** Component `p` of the first `k` terms of the row's linear combination of the vectors `v`. */
  ghost function Dot(row: seq<Byte>, v: seq<seq<Byte>>, p: nat, k: nat): (d: Byte)
    requires k <= |row| && k <= |v| && forall c :: 0 <= c < k ==> p < |v[c]|
  {
    if k == 0 then 0 else Add(Dot(row, v, p, k - 1), Mul(row[k - 1], v[k - 1][p]))
  }

  lemma {:induction false} DotScaled(row: seq<Byte>, f: Byte, v: seq<seq<Byte>>, p: nat, k: nat)
    requires k <= |row| && k <= |v| && forall c :: 0 <= c < k ==> p < |v[c]|
    ensures Dot(Scaled(row, f), v, p, k) == Mul(f, Dot(row, v, p, k))
  {
    hide Mul, Add;
    if k == 0 {
      MulZero(f, 0);
    } else {
      DotScaled(row, f, v, p, k - 1);
      MulAssociates(f, row[k - 1], v[k - 1][p]);
      MulDistributes(f, Dot(row, v, p, k - 1), Mul(row[k - 1], v[k - 1][p]));
    }
  }

  lemma {:induction false} DotMulAdd(row: seq<Byte>, other: seq<Byte>, f: Byte,
                                     v: seq<seq<Byte>>, p: nat, k: nat)
    requires |row| == |other|
    requires k <= |row| && k <= |v| && forall c :: 0 <= c < k ==> p < |v[c]|
    ensures Dot(MulAdd(row, other, f), v, p, k) == Add(Dot(row, v, p, k), Mul(f, Dot(other, v, p, k)))
  {
    hide Mul, Add;
    if k == 0 {
      MulZero(f, 0);
      AddZero(0);
    } else {
      DotMulAdd(row, other, f, v, p, k - 1);
      var a, b, x := row[k - 1], other[k - 1], v[k - 1][p];
      MulDistributesLeft(a, Mul(f, b), x);
      MulAssociates(f, b, x);
      MulDistributes(f, Dot(other, v, p, k - 1), Mul(b, x));
      AddExchange(Dot(row, v, p, k - 1), Mul(f, Dot(other, v, p, k - 1)), Mul(a, x), Mul(f, Mul(b, x)));
    }
  }

  lemma {:induction false} DotUnit(row: seq<Byte>, r: nat, v: seq<seq<Byte>>, p: nat, k: nat)
    requires k <= |row| && k <= |v| && forall c :: 0 <= c < k ==> p < |v[c]|
    requires forall c :: 0 <= c < k ==> row[c] == if c == r then 1 else 0
    ensures Dot(row, v, p, k) == if r < k then v[r][p] else 0
  {
    hide Mul, Add;
    if k != 0 {
      DotUnit(row, r, v, p, k - 1);
      var x := v[k - 1][p];
      MulZero(0, x);
      MulOne(x);
      AddZero(x);
      AddZero(Dot(row, v, p, k - 1));
    }
  }

  // ----- solutions are preserved -----

  /** The vectors `v` solve the system: each row of the matrix combines them to its syndrome. */
  ghost predicate Solves(sys: System, v: seq<seq<Byte>>, n: nat, w: nat)
    requires Shaped(sys, n, w)
  {
    && Rectangle(v, n, w)
    && forall r, p :: 0 <= r < n && 0 <= p < w ==> Dot(sys.matrix[r], v, p, n) == sys.syndrome[r][p]
  }

  lemma NormalizedSolves(sys: System, column: nat, f: Byte, v: seq<seq<Byte>>, n: nat, w: nat)
    requires Shaped(sys, n, w) && column < n && f != 0
    ensures Solves(System(Normalized(sys.matrix, column, f), Normalized(sys.syndrome, column, f)), v, n, w)
       <==> Solves(sys, v, n, w)
  {
    hide Mul, Add, Dot;
    if Rectangle(v, n, w) {
      forall p | 0 <= p < w
        ensures Dot(Scaled(sys.matrix[column], f), v, p, n) == Scaled(sys.syndrome[column], f)[p]
           <==> Dot(sys.matrix[column], v, p, n) == sys.syndrome[column][p]
      {
        DotScaled(sys.matrix[column], f, v, p, n);
        MulCancels(f, Dot(sys.matrix[column], v, p, n), sys.syndrome[column][p]);
      }
      var next := System(Normalized(sys.matrix, column, f), Normalized(sys.syndrome, column, f));
      forall r, p | 0 <= r < n && 0 <= p < w
        ensures Dot(next.matrix[r], v, p, n) == next.syndrome[r][p]
           <==> Dot(sys.matrix[r], v, p, n) == sys.syndrome[r][p]
      {
      }
    }
  }

  lemma MulCancels(f: Byte, a: Byte, b: Byte)
    requires f != 0
    ensures Mul(f, a) == Mul(f, b) <==> a == b
  {
    hide Mul, Add;
    MulDistributes(f, a, b);
    MulIsZero(f, Add(a, b));
    AddIsZero(a, b);
    AddIsZero(Mul(f, a), Mul(f, b));
  }

  lemma ClearedSolves(sys: System, column: nat, factors: seq<Byte>, v: seq<seq<Byte>>, n: nat, w: nat)
    requires Shaped(sys, n, w) && column < n && |factors| == n
    ensures Solves(System(Cleared(sys.matrix, column, factors), Cleared(sys.syndrome, column, factors)), v, n, w)
       <==> Solves(sys, v, n, w)
  {
    hide Mul, Add, Dot;
    if Rectangle(v, n, w) {
      var next := System(Cleared(sys.matrix, column, factors), Cleared(sys.syndrome, column, factors));
      var pivotSolved := forall p :: 0 <= p < w ==> Dot(sys.matrix[column], v, p, n) == sys.syndrome[column][p];
      forall r, p | 0 <= r < n && 0 <= p < w && pivotSolved
        ensures Dot(next.matrix[r], v, p, n) == next.syndrome[r][p]
           <==> Dot(sys.matrix[r], v, p, n) == sys.syndrome[r][p]
      {
        if r != column {
          DotMulAdd(sys.matrix[r], sys.matrix[column], factors[r], v, p, n);
          var d, y, t := Dot(sys.matrix[r], v, p, n), sys.syndrome[r][p], Mul(factors[r], sys.syndrome[column][p]);
          AddCancels(d, t);
          AddCancels(y, t);
        }
      }
      assert next.matrix[column] == sys.matrix[column] && next.syndrome[column] == sys.syndrome[column];
    }
  }

  /** Clearing a column neither loses nor adds a solution, whatever the matrix. */
  lemma EliminateColumnSolves(sys: System, column: nat, v: seq<seq<Byte>>, n: nat, w: nat)
    requires Shaped(sys, n, w) && column < n
    requires EliminateColumn(sys, column, n, w).Some?
    ensures Solves(EliminateColumn(sys, column, n, w).value, v, n, w) <==> Solves(sys, v, n, w)
  {
    hide Mul, Add, Dot, Scaled, MulAdd, Inverse;
    var pivot := PivotFrom(sys.matrix, column, column);
    var swapped := System(Swapped(sys.matrix, pivot, column), Swapped(sys.syndrome, pivot, column));
    SwappedSolves(sys, pivot, column, v, n, w);
    var factor := Inverse(swapped.matrix[column][column]);
    NormalizedSolves(swapped, column, factor, v, n, w);
    var normal := System(Normalized(swapped.matrix, column, factor), Normalized(swapped.syndrome, column, factor));
    ClearedSolves(normal, column, ColumnOf(normal.matrix, column), v, n, w);
  }

  lemma SwappedSolves(sys: System, i: nat, j: nat, v: seq<seq<Byte>>, n: nat, w: nat)
    requires Shaped(sys, n, w) && i < n && j < n
    ensures Solves(System(Swapped(sys.matrix, i, j), Swapped(sys.syndrome, i, j)), v, n, w)
       <==> Solves(sys, v, n, w)
  {
    hide Mul, Add, Dot;
    var next := System(Swapped(sys.matrix, i, j), Swapped(sys.syndrome, i, j));
    if Solves(next, v, n, w) {
      forall r, p | 0 <= r < n && 0 <= p < w
        ensures Dot(sys.matrix[r], v, p, n) == sys.syndrome[r][p]
      {
        var q := if r == i then j else if r == j then i else r;
        assert Dot(next.matrix[q], v, p, n) == next.syndrome[q][p];
      }
    }
  }

  /** The whole elimination keeps the set of solutions, whenever it finds all its pivots. */
  lemma {:induction false} EliminateSolves(sys: System, column: nat, v: seq<seq<Byte>>, n: nat, w: nat)
    requires Shaped(sys, n, w) && column <= n
    requires Eliminate(sys, column, n, w).Some?
    ensures Solves(Eliminate(sys, column, n, w).value, v, n, w) <==> Solves(sys, v, n, w)
    decreases n - column
  {
    hide EliminateColumn, Solves;
    if column < n {
      EliminateColumnSolves(sys, column, v, n, w);
      EliminateSolves(EliminateColumn(sys, column, n, w).value, column + 1, v, n, w);
    }
  }

  // ----- Cauchy matrices -----

  /** Distinct points for the rows, distinct points for the columns, and none in common. */
  ghost predicate Points(xs: seq<Byte>, ys: seq<Byte>)
  {
    && |xs| == |ys|
    && (forall i, j :: 0 <= i < j < |xs| ==> xs[i] != xs[j])
    && (forall i, j :: 0 <= i < j < |ys| ==> ys[i] != ys[j])
    && (forall i, j :: 0 <= i < |xs| && 0 <= j < |ys| ==> xs[i] != ys[j])
  }

  /** The first `k` columns are those of the identity. */
  ghost predicate Reduced(rows: seq<seq<Byte>>, k: nat)
    requires Rectangle(rows, |rows|, |rows|) && k <= |rows|
  {
    forall r, c :: 0 <= r < |rows| && 0 <= c < k ==> rows[r][c] == if r == c then 1 else 0
  }

  /** Below and to the right of position `k` the matrix is a scaled Cauchy matrix. */
  ghost predicate CauchyFrom(rows: seq<seq<Byte>>, k: nat, xs: seq<Byte>, ys: seq<Byte>,
                              rf: seq<Byte>, cf: seq<Byte>)
    requires Rectangle(rows, |rows|, |rows|) && k <= |rows| == |xs| == |ys| == |rf| == |cf|
  {
    && (forall i :: k <= i < |rows| ==> rf[i] != 0 && cf[i] != 0)
    && (forall r, c :: k <= r < |rows| && k <= c < |rows| ==>
          rows[r][c] == Entry(rf[r], cf[c], xs[r], ys[c]))
  }

  /** The row and column factors after clearing column `k`. */
  ghost function NextRows(rf: seq<Byte>, xs: seq<Byte>, xk: Byte, yk: Byte): (r: seq<Byte>)
    requires |rf| == |xs|
    ensures |r| == |rf|
  {
    seq(|rf|, i requires 0 <= i < |rf| => NextRowFactor(rf[i], xs[i], xk, yk))
  }

  ghost function NextColumns(cf: seq<Byte>, ys: seq<Byte>, xk: Byte, yk: Byte): (r: seq<Byte>)
    requires |cf| == |ys|
    ensures |r| == |cf|
  {
    seq(|cf|, i requires 0 <= i < |cf| => NextColumnFactor(cf[i], ys[i], xk, yk))
  }

  /** In a scaled Cauchy matrix the pivot search stops at once: the diagonal entry is nonzero. */
  lemma DiagonalPivot(rows: seq<seq<Byte>>, k: nat, xs: seq<Byte>, ys: seq<Byte>,
                      rf: seq<Byte>, cf: seq<Byte>)
    requires Points(xs, ys)
    requires Rectangle(rows, |rows|, |rows|) && k < |rows| == |xs| == |rf| == |cf|
    requires CauchyFrom(rows, k, xs, ys, rf, cf)
    ensures rows[k][k] != 0
    ensures PivotFrom(rows, k, k) == k
    ensures Swapped(rows, k, k) == rows
  {
    hide Mul, Add, Entry;
    EntryIsNonzero(rf[k], cf[k], xs[k], ys[k]);
  }

  /** Entry by entry, what clearing column `k` does when row `k` is its own pivot row. */
  ghost function ClearedRows(rows: seq<seq<Byte>>, k: nat): (r: seq<seq<Byte>>)
    requires Rectangle(rows, |rows|, |rows|) && k < |rows|
    ensures Rectangle(r, |rows|, |rows|)
  {
    var m := Normalized(rows, k, Inverse(rows[k][k]));
    Cleared(m, k, ColumnOf(m, k))
  }

  lemma ClearedRowsAt(rows: seq<seq<Byte>>, k: nat, r: nat, c: nat)
    requires Rectangle(rows, |rows|, |rows|) && k < |rows| && r < |rows| && c < |rows|
    ensures ClearedRows(rows, k)[r][c] ==
            var g := Mul(Inverse(rows[k][k]), rows[k][c]);
            if r == k then g else Add(rows[r][c], Mul(rows[r][k], g))
  {
    hide Mul, Add, Inverse;
  }

  lemma ClearingReduces(rows: seq<seq<Byte>>, k: nat)
    requires Rectangle(rows, |rows|, |rows|) && k < |rows|
    requires Reduced(rows, k) && rows[k][k] != 0
    ensures Reduced(ClearedRows(rows, k), k + 1)
  {
    hide Mul, Add, ClearedRows, Inverse;
    var f := Inverse(rows[k][k]);
    MulCommutes(f, rows[k][k]);
    forall r, c | 0 <= r < |rows| && 0 <= c < k + 1
      ensures ClearedRows(rows, k)[r][c] == if r == c then 1 else 0
    {
      ClearedRowsAt(rows, k, r, c);
      MulZero(f, 0);
      MulZero(rows[r][k], 0);
      AddZero(rows[r][c]);
      MulUnit(rows[r][k]);
    }
  }

  lemma ClearingKeepsCauchy(rows: seq<seq<Byte>>, k: nat, xs: seq<Byte>, ys: seq<Byte>,
                            rf: seq<Byte>, cf: seq<Byte>)
    requires Points(xs, ys)
    requires Rectangle(rows, |rows|, |rows|) && k < |rows| == |xs| == |rf| == |cf|
    requires CauchyFrom(rows, k, xs, ys, rf, cf)
    ensures CauchyFrom(ClearedRows(rows, k), k + 1, xs, ys,
                       NextRows(rf, xs, xs[k], ys[k]), NextColumns(cf, ys, xs[k], ys[k]))
  {
    hide Mul, Add, ClearedRows, Entry, Inverse, NextRowFactor, NextColumnFactor;
    DiagonalPivot(rows, k, xs, ys, rf, cf);
    var f := Inverse(rows[k][k]);
    MulCommutes(f, rows[k][k]);
    forall r, c | k + 1 <= r < |rows| && k + 1 <= c < |rows|
      ensures ClearedRows(rows, k)[r][c]
           == Entry(NextRowFactor(rf[r], xs[r], xs[k], ys[k]),
                    NextColumnFactor(cf[c], ys[c], xs[k], ys[k]), xs[r], ys[c])
    {
      ClearedRowsAt(rows, k, r, c);
      EliminatedEntry(rf[r], rf[k], cf[c], cf[k], xs[r], xs[k], ys[c], ys[k], f);
    }
    forall i | k + 1 <= i < |rows|
      ensures NextRowFactor(rf[i], xs[i], xs[k], ys[k]) != 0
      ensures NextColumnFactor(cf[i], ys[i], xs[k], ys[k]) != 0
    {
      NextFactorsAreNonzero(rf[i], cf[i], xs[i], xs[k], ys[i], ys[k]);
    }
  }

  lemma ColumnWithoutSwap(sys: System, k: nat, n: nat, w: nat)
    requires Shaped(sys, n, w) && k < n && PivotFrom(sys.matrix, k, k) == k
    ensures EliminateColumn(sys, k, n, w).Some?
    ensures EliminateColumn(sys, k, n, w).value.matrix == ClearedRows(sys.matrix, k)
  {
    hide Mul, Add, Inverse, Scaled, MulAdd;
    assert Swapped(sys.matrix, k, k) == sys.matrix;
    assert Swapped(sys.syndrome, k, k) == sys.syndrome;
  }

  /** Elimination of a Cauchy matrix finds a pivot in every column, whatever stands beside it. */
  lemma {:induction false} CauchyElimination(sys: System, k: nat, xs: seq<Byte>, ys: seq<Byte>,
                                             rf: seq<Byte>, cf: seq<Byte>, n: nat, w: nat)
    requires Points(xs, ys)
    requires Shaped(sys, n, w) && k <= n == |xs| == |ys| == |rf| == |cf|
    requires Reduced(sys.matrix, k) && CauchyFrom(sys.matrix, k, xs, ys, rf, cf)
    ensures Eliminate(sys, k, n, w).Some?
    ensures Reduced(Eliminate(sys, k, n, w).value.matrix, n)
    decreases n - k
  {
    hide Mul, Add, EliminateColumn, ClearedRows, CauchyFrom, NextRows, NextColumns, Points, PivotFrom;
    if k < n {
      DiagonalPivot(sys.matrix, k, xs, ys, rf, cf);
      ColumnWithoutSwap(sys, k, n, w);
      ClearingReduces(sys.matrix, k);
      ClearingKeepsCauchy(sys.matrix, k, xs, ys, rf, cf);
      CauchyElimination(EliminateColumn(sys, k, n, w).value, k + 1, xs, ys,
                        NextRows(rf, xs, xs[k], ys[k]), NextColumns(cf, ys, xs[k], ys[k]), n, w);
    }
  }

  /** Beside the identity stands the one solution. */
  lemma ReducedSolves(sys: System, v: seq<seq<Byte>>, n: nat, w: nat)
    requires Shaped(sys, n, w) && Reduced(sys.matrix, n)
    ensures Solves(sys, v, n, w) <==> v == sys.syndrome
  {
    hide Mul, Add, Dot;
    if Rectangle(v, n, w) {
      forall r, p | 0 <= r < n && 0 <= p < w ensures Dot(sys.matrix[r], v, p, n) == v[r][p] {
        DotUnit(sys.matrix[r], r, v, p, n);
      }
      if Solves(sys, v, n, w) {
        forall r | 0 <= r < n ensures v[r] == sys.syndrome[r] {
          assert forall p :: 0 <= p < w ==> v[r][p] == sys.syndrome[r][p];
        }
      }
    }
  }

  ghost predicate IsCauchy(rows: seq<seq<Byte>>, xs: seq<Byte>, ys: seq<Byte>)
    requires Rectangle(rows, |rows|, |rows|) && |rows| == |xs| == |ys|
  {
    forall r, c :: 0 <= r < |rows| && 0 <= c < |rows| ==> rows[r][c] == Cell(xs[r], ys[c])
  }

  /** A Cauchy system, whatever its right-hand side, has exactly one solution, and elimination leaves it. */
  lemma CauchySolution(sys: System, xs: seq<Byte>, ys: seq<Byte>, v: seq<seq<Byte>>, n: nat, w: nat)
    requires Points(xs, ys) && Shaped(sys, n, w) && n == |xs| == |ys|
    requires IsCauchy(sys.matrix, xs, ys)
    ensures Eliminate(sys, 0, n, w).Some?
    ensures Reduced(Eliminate(sys, 0, n, w).value.matrix, n)
    ensures Solves(sys, Eliminate(sys, 0, n, w).value.syndrome, n, w)
    ensures Solves(sys, v, n, w) <==> v == Eliminate(sys, 0, n, w).value.syndrome
  {
    hide Mul, Add, Eliminate, Cell, Points, Solves;
    var ones := seq(n, i requires 0 <= i < n => 1);
    forall r, c | 0 <= r < n && 0 <= c < n
      ensures sys.matrix[r][c] == Entry(1, 1, xs[r], ys[c])
    {
      MulUnit(1);
      MulUnit(Cell(xs[r], ys[c]));
    }
    CauchyElimination(sys, 0, xs, ys, ones, ones, n, w);
    var done := Eliminate(sys, 0, n, w).value;
    EliminateSolves(sys, 0, v, n, w);
    EliminateSolves(sys, 0, done.syndrome, n, w);
    ReducedSolves(done, v, n, w);
    ReducedSolves(done, done.syndrome, n, w);
  }

  // ----- in place -----

  /** The contents of a two-dimensional array, row by row. */
  ghost function Rows(m: array2<Byte>): (rows: seq<seq<Byte>>)
    reads m
    ensures Rectangle(rows, m.Length0, m.Length1)
    ensures forall i, j :: 0 <= i < m.Length0 && 0 <= j < m.Length1 ==> rows[i][j] == m[i, j]
  {
    seq(m.Length0, i requires 0 <= i < m.Length0 reads m =>
      seq(m.Length1, j requires 0 <= j < m.Length1 reads m => m[i, j]))
  }

  lemma SameRows(a: seq<seq<Byte>>, b: seq<seq<Byte>>, height: nat, width: nat)
    requires Rectangle(a, height, width) && Rectangle(b, height, width)
    requires forall i, j :: 0 <= i < height && 0 <= j < width ==> a[i][j] == b[i][j]
    ensures a == b
  {
    forall i | 0 <= i < height ensures a[i] == b[i] {}
  }

  method FindPivot(m: array2<Byte>, column: nat) returns (pivot: nat)
    requires m.Length0 == m.Length1 && column < m.Length0
    ensures pivot == PivotFrom(Rows(m), column, column)
  {
    pivot := column;
    while pivot < m.Length0 && m[pivot, column] == 0
      invariant column <= pivot <= m.Length0
      invariant PivotFrom(Rows(m), column, column) == PivotFrom(Rows(m), column, pivot)
    {
      pivot := pivot + 1;
    }
  }

  method SwapRows(m: array2<Byte>, a: nat, b: nat)
    requires a < m.Length0 && b < m.Length0
    modifies m
    ensures Rows(m) == Swapped(old(Rows(m)), a, b)
  {
    ghost var was := Rows(m);
    for j := 0 to m.Length1
      invariant forall i, k :: 0 <= i < m.Length0 && 0 <= k < m.Length1 ==>
                  m[i, k] == if k >= j then was[i][k] else Swapped(was, a, b)[i][k]
    {
      m[a, j], m[b, j] := m[b, j], m[a, j];
    }
    SameRows(Rows(m), Swapped(was, a, b), m.Length0, m.Length1);
  }

  method ScaleRow(t: Tables, m: array2<Byte>, row: nat, factor: Byte)
    requires t.Valid() && m != t.product && m != t.nibbles
    requires row < m.Length0
    modifies m
    ensures Rows(m) == Normalized(old(Rows(m)), row, factor)
  {
    hide Mul, Rows;
    ghost var was := Rows(m);
    ghost var want := Normalized(was, row, factor);
    for j := 0 to m.Length1
      invariant forall i, k :: 0 <= i < m.Length0 && 0 <= k < m.Length1 ==>
                  m[i, k] == if i != row || k >= j then was[i][k] else want[i][k]
    {
      MulCommutes(m[row, j], factor);
      m[row, j] := t.product[m[row, j], factor];
    }
    SameRows(Rows(m), want, m.Length0, m.Length1);
  }

  method AddRow(t: Tables, m: array2<Byte>, target: nat, source: nat, coefficient: Byte)
    requires t.Valid() && m != t.product && m != t.nibbles
    requires target < m.Length0 && source < m.Length0 && target != source
    modifies m
    ensures Rows(m) == old(Rows(m)[target := MulAdd(Rows(m)[target], Rows(m)[source], coefficient)])
  {
    hide Mul, Add, Rows;
    ghost var was := Rows(m);
    ghost var want := was[target := MulAdd(was[target], was[source], coefficient)];
    for j := 0 to m.Length1
      invariant forall i, k :: 0 <= i < m.Length0 && 0 <= k < m.Length1 ==>
                  m[i, k] == if i != target || k >= j then was[i][k] else want[i][k]
    {
      m[target, j] := Add(m[target, j], t.product[coefficient, m[source, j]]);
    }
    SameRows(Rows(m), want, m.Length0, m.Length1);
  }

  /** The elimination loop of the decoder. */
  method GaussJordan(t: Tables, matrix: array2<Byte>, syndrome: array2<Byte>) returns (solved: bool)
    requires t.Valid() && matrix != t.product && matrix != t.nibbles
    requires syndrome != t.product && syndrome != t.nibbles && syndrome != matrix
    requires matrix.Length0 == matrix.Length1 == syndrome.Length0
    modifies matrix, syndrome
    ensures var result := Eliminate(System(old(Rows(matrix)), old(Rows(syndrome))), 0,
                                    matrix.Length0, syndrome.Length1);
            && (solved <==> result.Some?)
            && (solved ==> result.value == System(Rows(matrix), Rows(syndrome)))
  {
    hide Mul, Add, Rows, EliminateColumn;
    var count := matrix.Length0;
    ghost var w := syndrome.Length1;
    ghost var start := System(Rows(matrix), Rows(syndrome));
    for column := 0 to count
      invariant Eliminate(start, 0, count, w)
             == Eliminate(System(Rows(matrix), Rows(syndrome)), column, count, w)
    {
      var ok := ClearColumn(t, matrix, syndrome, column);
      if !ok { return false; }
    }
    return true;
  }

  method ClearColumn(t: Tables, matrix: array2<Byte>, syndrome: array2<Byte>, column: nat)
    returns (ok: bool)
    requires t.Valid() && matrix != t.product && matrix != t.nibbles
    requires syndrome != t.product && syndrome != t.nibbles && syndrome != matrix
    requires column < matrix.Length0 == matrix.Length1 == syndrome.Length0
    modifies matrix, syndrome
    ensures var result := EliminateColumn(System(old(Rows(matrix)), old(Rows(syndrome))), column,
                                          matrix.Length0, syndrome.Length1);
            && (ok <==> result.Some?)
            && (ok ==> result.value == System(Rows(matrix), Rows(syndrome)))
  {
    hide Mul, Add, Rows, MulAdd, Scaled, Inverse, PivotFrom;
    var count := matrix.Length0;
    var pivot := FindPivot(matrix, column);
    if pivot == count { return false; }
    SwapRows(matrix, pivot, column);
    SwapRows(syndrome, pivot, column);
    var factor := t.Invert(matrix[column, column]);
    ScaleRow(t, matrix, column, factor);
    ScaleRow(t, syndrome, column, factor);
    ClearRows(t, matrix, syndrome, column);
    return true;
  }

  method ClearRows(t: Tables, matrix: array2<Byte>, syndrome: array2<Byte>, column: nat)
    requires t.Valid() && matrix != t.product && matrix != t.nibbles
    requires syndrome != t.product && syndrome != t.nibbles && syndrome != matrix
    requires column < matrix.Length0 == matrix.Length1 == syndrome.Length0
    modifies matrix, syndrome
    ensures Rows(matrix) == old(Cleared(Rows(matrix), column, ColumnOf(Rows(matrix), column)))
    ensures Rows(syndrome) == old(Cleared(Rows(syndrome), column, ColumnOf(Rows(matrix), column)))
  {
    hide Mul, Add, Rows, MulAdd, Tables.Valid, Cleared;
    var count := matrix.Length0;
    ghost var m, s := Rows(matrix), Rows(syndrome);
    ghost var factors := ColumnOf(m, column);
    for r := 0 to count
      invariant t.Valid()
      invariant Rows(matrix) == PartlyCleared(m, column, factors, r)
      invariant Rows(syndrome) == PartlyCleared(s, column, factors, r)
    {
      ClearRow(t, matrix, syndrome, column, r, m, s, factors);
    }
  }

  /** One row is cleared with its entry in the pivot column, in the matrix and in the syndrome alike. */
  method ClearRow(t: Tables, matrix: array2<Byte>, syndrome: array2<Byte>, column: nat, r: nat,
                  ghost m: seq<seq<Byte>>, ghost s: seq<seq<Byte>>, ghost factors: seq<Byte>)
    requires t.Valid() && matrix != t.product && matrix != t.nibbles
    requires syndrome != t.product && syndrome != t.nibbles && syndrome != matrix
    requires column < matrix.Length0 == matrix.Length1 == syndrome.Length0 && r < matrix.Length0
    requires |m| == |s| == |factors| == matrix.Length0 && |m[r]| == matrix.Length1 && factors[r] == m[r][column]
    requires Rows(matrix) == PartlyCleared(m, column, factors, r)
    requires Rows(syndrome) == PartlyCleared(s, column, factors, r)
    modifies matrix, syndrome
    ensures t.Valid()
    ensures Rows(matrix) == PartlyCleared(m, column, factors, r + 1)
    ensures Rows(syndrome) == PartlyCleared(s, column, factors, r + 1)
  {
    hide Mul, Add, Rows, MulAdd, Tables.Valid, Cleared, PartlyCleared;
    PartlyClearedStep(m, column, factors, r);
    PartlyClearedStep(s, column, factors, r);
    assert matrix[r, column] == Rows(matrix)[r][column] == factors[r];
    if r == column || matrix[r, column] == 0 { return; }
    var coefficient := matrix[r, column];
    AddRow(t, matrix, r, column, coefficient);
    AddRow(t, syndrome, r, column, coefficient);
  }

  /** The state between two rows: those before `r` are cleared. */
  ghost function PartlyCleared(rows: seq<seq<Byte>>, column: nat, factors: seq<Byte>, r: nat): (p: seq<seq<Byte>>)
    requires column < |rows| && |factors| == |rows| && r <= |rows|
  {
    Cleared(rows, column, factors)[..r] + rows[r..]
  }

  lemma PartlyClearedStep(rows: seq<seq<Byte>>, column: nat, factors: seq<Byte>, r: nat)
    requires column < |rows| && |factors| == |rows| && r < |rows|
    ensures var now := PartlyCleared(rows, column, factors, r);
            && now[r] == rows[r] && now[column] == rows[column]
            && PartlyCleared(rows, column, factors, r + 1)
            == if r == column || factors[r] == 0 then now
               else now[r := MulAdd(now[r], now[column], factors[r])]
  {
    hide Mul, Add, MulAdd;
    MulAddZero(rows[r], rows[column]);
  }

  lemma MulAddZero(acc: seq<Byte>, src: seq<Byte>)
    ensures MulAdd(acc, src, 0) == acc
  {
    hide Mul, Add;
    forall i | 0 <= i < |acc| ensures MulAdd(acc, src, 0)[i] == acc[i] {
      AddZero(acc[i]);
      if i < |src| { MulZero(0, src[i]); }
    }
  }
}
