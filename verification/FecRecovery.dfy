/**
 Recovery of one block: which symbols are missing, the linear system over them, and the proof that
 as many parity rows as missing packets are always enough, whichever rows and packets they are.
 */
module FecRecovery {
  import opened Octets
  import opened GaloisField
  import opened GaloisTables
  import opened CauchyMatrix
  import Elimination
  import opened FecCode

  datatype Block = Block(id: nat, dataCount: nat, parityCount: nat, dataReceived: int,
                         data: seq<Bytes>, parity: seq<Bytes>, created: int)

  ghost predicate WellFormed(b: Block)
  {
    && |b.data| == b.dataCount <= MAXIMUM_DATA
    && |b.parity| == b.parityCount <= MAXIMUM_PARITY
  }

  /** The indices below `k` of empty slots, ascending. */
  function Empty(slots: seq<Bytes>, k: nat): (r: seq<nat>)
    requires k <= |slots|
    ensures forall j :: 0 <= j < |r| ==> r[j] < k && slots[r[j]] == []
    ensures forall i, j :: 0 <= i < j < |r| ==> r[i] < r[j]
    ensures forall i :: 0 <= i < k && slots[i] == [] ==> i in r
  {
    if k == 0 then []
    else if slots[k - 1] == [] then Empty(slots, k - 1) + [k - 1]
    else Empty(slots, k - 1)
  }

  /** The indices below `k` of filled slots, ascending. */
  function Filled(slots: seq<Bytes>, k: nat): (r: seq<nat>)
    requires k <= |slots|
    ensures |r| <= k
    ensures forall j :: 0 <= j < |r| ==> r[j] < k && slots[r[j]] != []
    ensures forall i, j :: 0 <= i < j < |r| ==> r[i] < r[j]
  {
    if k == 0 then []
    else if slots[k - 1] != [] then Filled(slots, k - 1) + [k - 1]
    else Filled(slots, k - 1)
  }

  lemma SlotsStep(slots: seq<Bytes>, k: nat)
    requires k <= |slots|
    ensures k == 0 ==> Empty(slots, k) == [] && Filled(slots, k) == []
    ensures k > 0 ==> Empty(slots, k) == Empty(slots, k - 1) + if slots[k - 1] == [] then [k - 1] else []
    ensures k > 0 ==> Filled(slots, k) == Filled(slots, k - 1) + if slots[k - 1] != [] then [k - 1] else []
  {
  }

  /** Parity row `row` with the first `k` received data symbols taken out. */
  ghost function Residue(b: Block, row: nat, k: nat): (r: Bytes)
    requires WellFormed(b) && row < b.parityCount && k <= b.dataCount
    ensures |r| == |b.parity[row]|
  {
    if k == 0 then b.parity[row]
    else if b.data[k - 1] == [] then Residue(b, row, k - 1)
    else MulAdd(Residue(b, row, k - 1), b.data[k - 1], Cauchy(row, k - 1))
  }

  ghost predicate Usable(b: Block, missing: seq<nat>, rows: seq<nat>)
  {
    && WellFormed(b)
    && |missing| == |rows|
    && (forall j :: 0 <= j < |missing| ==> missing[j] < b.dataCount)
    && (forall j :: 0 <= j < |rows| ==> rows[j] < b.parityCount)
  }

  ghost function Coefficients(b: Block, missing: seq<nat>, rows: seq<nat>): (m: seq<seq<Byte>>)
    requires Usable(b, missing, rows)
    ensures Elimination.Rectangle(m, |rows|, |rows|)
  {
    seq(|rows|, r requires 0 <= r < |rows| =>
      seq(|missing|, c requires 0 <= c < |missing| => Cauchy(rows[r], missing[c])))
  }

  ghost function Residues(b: Block, rows: seq<nat>): (s: seq<seq<Byte>>)
    requires WellFormed(b) && forall j :: 0 <= j < |rows| ==> rows[j] < b.parityCount
    ensures |s| == |rows|
  {
    seq(|rows|, r requires 0 <= r < |rows| => Residue(b, rows[r], b.dataCount))
  }

  /** The sizes the recovery code checks before it eliminates. */
  predicate SizesAgree(b: Block, rows: seq<nat>, width: nat)
    requires forall j :: 0 <= j < |rows| ==> rows[j] < |b.parity|
  {
    && (forall j :: 0 <= j < |rows| ==> |b.parity[rows[j]]| == width)
    && (forall i :: 0 <= i < |b.data| ==> |b.data[i]| <= width)
  }

  /** The padded missing symbols, when the block has enough parity to determine them. */
  ghost function Solve(b: Block): (r: Option<seq<Bytes>>)
    requires WellFormed(b)
  {
    var missing, present := Empty(b.data, b.dataCount), Filled(b.parity, b.parityCount);
    var n := |missing|;
    if n == 0 || |present| < n then None else
      var rows := present[..n];
      var width := |b.parity[rows[0]]|;
      if !SizesAgree(b, rows, width) then None else
        var sys := Elimination.System(Coefficients(b, missing, rows), Residues(b, rows));
        match Elimination.Eliminate(sys, 0, n, width)
        case None => None
        case Some(solved) => Some(solved.syndrome)
  }

  /** The packets inside the solved symbols, skipping those whose length makes no sense. */
  function Packets(symbols: seq<Bytes>): (r: seq<Bytes>)
  {
    if |symbols| == 0 then []
    else
      var first := Packets(symbols[..|symbols| - 1]);
      var last := symbols[|symbols| - 1];
      if |last| < LENGTH_PREFIX then first
      else match Unpack(last)
        case None => first
        case Some(packet) => first + [packet]
  }

  // ----- the solution is what was sent -----

  /** Every filled slot of the block holds the code word's symbol. */
  ghost predicate Holds(b: Block, cw: Codeword)
  {
    && WellFormed(b) && Sound(cw)
    && b.id == cw.id && b.parityCount == cw.parityCount
    && (forall i :: 0 <= i < b.dataCount && b.data[i] != [] ==>
          i < |cw.packets| && b.data[i] == Symbol(cw.packets[i]))
    && (forall r :: 0 <= r < b.parityCount && b.parity[r] != [] ==> b.parity[r] == ParitySymbol(cw, r))
  }

  /** The part of a parity sum that belongs to empty slots. */
  ghost function MissingAt(b: Block, cw: Codeword, row: nat, p: nat, k: nat): (d: Byte)
    requires Holds(b, cw) && row < MAXIMUM_PARITY && k <= b.dataCount == |cw.packets|
  {
    if k == 0 then 0
    else if b.data[k - 1] != [] then MissingAt(b, cw, row, p, k - 1)
    else Add(MissingAt(b, cw, row, p, k - 1), Term(row, cw.packets, p, k - 1))
  }

  /** Taking out the received symbols leaves the missing ones and those not yet visited. */
  lemma {:induction false} ResidueAt(b: Block, cw: Codeword, row: nat, p: nat, k: nat)
    requires Holds(b, cw) && k <= b.dataCount == |cw.packets|
    requires row < b.parityCount && b.parity[row] != [] && p < Width(cw.packets)
    ensures |b.parity[row]| == Width(cw.packets)
    ensures Add(Residue(b, row, k)[p], ParityAt(row, cw.packets, p, k))
         == Add(b.parity[row][p], MissingAt(b, cw, row, p, k))
  {
    hide Mul, Add, Cauchy, Symbol, Width, MulAdd, Term;
    if k != 0 {
      ResidueAt(b, cw, row, p, k - 1);
      var t, before := Term(row, cw.packets, p, k - 1), Residue(b, row, k - 1);
      var sum, miss := ParityAt(row, cw.packets, p, k - 1), MissingAt(b, cw, row, p, k - 1);
      TermAt(row, cw.packets, p, k - 1);
      if b.data[k - 1] == [] {
        AddAssociates(before[p], sum, t);
        AddAssociates(b.parity[row][p], miss, t);
      } else {
        MulAddAt(before, b.data[k - 1], Cauchy(row, k - 1), p);
        AddExchange(before[p], t, sum, t);
        AddZero(t);
        AddZero(Add(before[p], sum));
      }
    }
  }

  lemma TermAt(row: nat, packets: seq<Bytes>, p: nat, i: nat)
    requires row < MAXIMUM_PARITY && i < |packets| <= MAXIMUM_DATA
    ensures Term(row, packets, p, i) == Mul(Cauchy(row, i), At(Symbol(packets[i]), p))
  {
  }

  lemma ResidueIsMissing(b: Block, cw: Codeword, row: nat, p: nat)
    requires Holds(b, cw) && b.dataCount == |cw.packets|
    requires row < b.parityCount && b.parity[row] != [] && p < Width(cw.packets)
    ensures |b.parity[row]| == Width(cw.packets)
    ensures Residue(b, row, b.dataCount)[p] == MissingAt(b, cw, row, p, b.dataCount)
  {
    hide Mul, Add, Cauchy, Symbol, Width, MulAdd, Term, Residue, MissingAt, ParityAt;
    var n := b.dataCount;
    ResidueAt(b, cw, row, p, n);
    ParityRowAt(row, cw.packets, Width(cw.packets), p);
    var x, s, m := Residue(b, row, n)[p], ParityAt(row, cw.packets, p, n), MissingAt(b, cw, row, p, n);
    AddCommutes(s, m);
    AddCancels(x, s);
    AddCancels(m, s);
  }

  /** The symbols of the packets at the given indices, padded to the block's width. */
  ghost function Sent(cw: Codeword, indices: seq<nat>): (v: seq<Bytes>)
    requires forall j :: 0 <= j < |indices| ==> indices[j] < |cw.packets|
    ensures |v| == |indices|
  {
    seq(|indices|, j requires 0 <= j < |indices| =>
      Padded(Symbol(cw.packets[indices[j]]), Width(cw.packets)))
  }

  lemma {:induction false} DotPrefix(row: seq<Byte>, row': seq<Byte>, v: seq<Bytes>, v': seq<Bytes>,
                                     p: nat, k: nat)
    requires k <= |row| && k <= |row'| && k <= |v| && k <= |v'|
    requires forall c :: 0 <= c < k ==> row[c] == row'[c] && v[c] == v'[c] && p < |v[c]|
    ensures Elimination.Dot(row, v, p, k) == Elimination.Dot(row', v', p, k)
  {
    hide Mul, Add;
    if k != 0 { DotPrefix(row, row', v, v', p, k - 1); }
  }

  ghost function CauchyRow(row: nat, columns: seq<nat>): (r: seq<Byte>)
    requires row < MAXIMUM_PARITY && forall j :: 0 <= j < |columns| ==> columns[j] < MAXIMUM_DATA
    ensures |r| == |columns|
  {
    seq(|columns|, c requires 0 <= c < |columns| => Cauchy(row, columns[c]))
  }

  ghost predicate Within(indices: seq<nat>, n: nat)
  {
    forall j :: 0 <= j < |indices| ==> indices[j] < n
  }

  /** One more missing packet adds one term. */
  lemma DotAppend(cw: Codeword, row: nat, e: seq<nat>, i: nat, p: nat)
    requires row < MAXIMUM_PARITY && |cw.packets| <= MAXIMUM_DATA
    requires Within(e, |cw.packets|) && i < |cw.packets| && p < Width(cw.packets)
    ensures Elimination.Dot(CauchyRow(row, e + [i]), Sent(cw, e + [i]), p, |e| + 1)
         == Add(Elimination.Dot(CauchyRow(row, e), Sent(cw, e), p, |e|), Term(row, cw.packets, p, i))
  {
    hide Mul, Add, Cauchy, Symbol, Width, Term, Padded, CauchyRow, Sent, Elimination.Dot, At;
    DotOfFirst(cw, row, e, i, p);
    LastTerm(cw, row, e + [i], p);
    SentWidth(cw, e + [i], p);
    DotStep(CauchyRow(row, e + [i]), Sent(cw, e + [i]), p, |e|);
  }

  lemma LastTerm(cw: Codeword, row: nat, f: seq<nat>, p: nat)
    requires row < MAXIMUM_PARITY && |cw.packets| <= MAXIMUM_DATA && |f| > 0
    requires Within(f, |cw.packets|) && p < Width(cw.packets)
    ensures var n := |f| - 1;
            && p < |Sent(cw, f)[n]|
            && Mul(CauchyRow(row, f)[n], Sent(cw, f)[n][p]) == Term(row, cw.packets, p, f[n])
  {
    hide Mul, Cauchy, Symbol, Width, Term, Padded, CauchyRow, Sent, At;
    var i := f[|f| - 1];
    EntryAt(cw, row, f, |f| - 1);
    PaddedAt(Symbol(cw.packets[i]), Width(cw.packets), p);
    TermAt(row, cw.packets, p, i);
  }

  lemma SentWidth(cw: Codeword, indices: seq<nat>, p: nat)
    requires Within(indices, |cw.packets|) && p < Width(cw.packets)
    ensures forall c :: 0 <= c < |indices| ==> p < |Sent(cw, indices)[c]|
  {
    hide Padded, Symbol, Width;
  }

  /** The terms of the first missing packets do not depend on the last one. */
  lemma DotOfFirst(cw: Codeword, row: nat, e: seq<nat>, i: nat, p: nat)
    requires row < MAXIMUM_PARITY && |cw.packets| <= MAXIMUM_DATA
    requires Within(e, |cw.packets|) && i < |cw.packets| && p < Width(cw.packets)
    ensures Elimination.Dot(CauchyRow(row, e + [i]), Sent(cw, e + [i]), p, |e|)
         == Elimination.Dot(CauchyRow(row, e), Sent(cw, e), p, |e|)
  {
    hide Cauchy, Symbol, Width, Padded, CauchyRow, Sent, Elimination.Dot;
    var f := e + [i];
    SentWidth(cw, f, p);
    forall c | 0 <= c < |e| ensures CauchyRow(row, f)[c] == CauchyRow(row, e)[c] && Sent(cw, f)[c] == Sent(cw, e)[c] {
      EntryAt(cw, row, e, c);
      EntryAt(cw, row, f, c);
    }
    DotPrefix(CauchyRow(row, f), CauchyRow(row, e), Sent(cw, f), Sent(cw, e), p, |e|);
  }

  lemma EntryAt(cw: Codeword, row: nat, indices: seq<nat>, c: nat)
    requires row < MAXIMUM_PARITY && |cw.packets| <= MAXIMUM_DATA && Within(indices, |cw.packets|) && c < |indices|
    ensures CauchyRow(row, indices)[c] == Cauchy(row, indices[c])
    ensures Sent(cw, indices)[c] == Padded(Symbol(cw.packets[indices[c]]), Width(cw.packets))
  {
    hide Cauchy, Padded, Symbol, Width;
  }

  lemma DotStep(row: seq<Byte>, v: seq<Bytes>, p: nat, k: nat)
    requires k < |row| && k < |v| && forall c :: 0 <= c <= k ==> p < |v[c]|
    ensures Elimination.Dot(row, v, p, k + 1) == Add(Elimination.Dot(row, v, p, k), Mul(row[k], v[k][p]))
  {
    hide Add, Mul;
  }

  lemma DotOfNone(row: seq<Byte>, v: seq<Bytes>, p: nat)
    ensures Elimination.Dot(row, v, p, 0) == 0
  {
  }

  lemma MissingStep(b: Block, cw: Codeword, row: nat, p: nat, k: nat)
    requires Holds(b, cw) && row < MAXIMUM_PARITY && k <= b.dataCount == |cw.packets|
    ensures k <= |b.data| && |cw.packets| <= MAXIMUM_DATA
    ensures k == 0 ==> MissingAt(b, cw, row, p, k) == 0 && Empty(b.data, k) == []
    ensures k > 0 && b.data[k - 1] != [] ==>
              MissingAt(b, cw, row, p, k) == MissingAt(b, cw, row, p, k - 1) && Empty(b.data, k) == Empty(b.data, k - 1)
    ensures k > 0 && b.data[k - 1] == [] ==>
              && MissingAt(b, cw, row, p, k) == Add(MissingAt(b, cw, row, p, k - 1), Term(row, cw.packets, p, k - 1))
              && Empty(b.data, k) == Empty(b.data, k - 1) + [k - 1]
  {
    hide Add, Width, Term, ParitySymbol, Symbol;
  }

  lemma {:induction false} MissingIsDot(b: Block, cw: Codeword, row: nat, p: nat, k: nat)
    requires Holds(b, cw) && row < MAXIMUM_PARITY && k <= b.dataCount == |cw.packets|
    requires p < Width(cw.packets)
    ensures var e := Empty(b.data, k);
            Elimination.Dot(CauchyRow(row, e), Sent(cw, e), p, |e|) == MissingAt(b, cw, row, p, k)
  {
    hide Add, Width, Term, CauchyRow, Sent, Elimination.Dot, MissingAt, Empty, Holds, Symbol;
    MissingStep(b, cw, row, p, k);
    if k == 0 {
      DotOfNone(CauchyRow(row, []), Sent(cw, []), p);
    } else {
      MissingIsDot(b, cw, row, p, k - 1);
      if b.data[k - 1] == [] {
        DotAppend(cw, row, Empty(b.data, k - 1), k - 1, p);
      }
    }
  }

  // ----- recovery succeeds -----

  lemma SentSolves(b: Block, cw: Codeword, rows: seq<nat>)
    requires Holds(b, cw) && b.dataCount == |cw.packets|
    requires |rows| == |Empty(b.data, b.dataCount)|
    requires forall j :: 0 <= j < |rows| ==> rows[j] < b.parityCount && b.parity[rows[j]] != []
    ensures var missing, w := Empty(b.data, b.dataCount), Width(cw.packets);
            var sys := Elimination.System(Coefficients(b, missing, rows), Residues(b, rows));
            && Elimination.Shaped(sys, |rows|, w)
            && Elimination.Solves(sys, Sent(cw, missing), |rows|, w)
  {
    hide Width, Symbol, Cauchy, Residue, Add, Mul, Elimination.Dot, MissingAt, Padded;
    var missing, w, n := Empty(b.data, b.dataCount), Width(cw.packets), |rows|;
    var sys := Elimination.System(Coefficients(b, missing, rows), Residues(b, rows));
    forall r | 0 <= r < n
      ensures |Residue(b, rows[r], b.dataCount)| == w
    {
      assert |ParitySymbol(cw, rows[r])| == w;
    }
    forall r, p | 0 <= r < n && 0 <= p < w
      ensures Elimination.Dot(sys.matrix[r], Sent(cw, missing), p, n) == sys.syndrome[r][p]
    {
      assert sys.matrix[r] == CauchyRow(rows[r], missing);
      MissingIsDot(b, cw, rows[r], p, b.dataCount);
      ResidueIsMissing(b, cw, rows[r], p);
    }
  }

  ghost function RowPoints(rows: seq<nat>): (xs: seq<Byte>)
    requires Within(rows, MAXIMUM_PARITY)
    ensures |xs| == |rows|
  {
    seq(|rows|, i requires 0 <= i < |rows| => MAXIMUM_DATA + rows[i])
  }

  ghost function ColumnPoints(columns: seq<nat>): (ys: seq<Byte>)
    requires Within(columns, MAXIMUM_DATA)
    ensures |ys| == |columns|
  {
    seq(|columns|, i requires 0 <= i < |columns| => columns[i])
  }

  ghost predicate Ascending(s: seq<nat>)
  {
    forall i, j :: 0 <= i < j < |s| ==> s[i] < s[j]
  }

  /** Any choice of distinct parity rows and distinct missing columns gives a Cauchy matrix. */
  lemma CoefficientsAreCauchy(b: Block, missing: seq<nat>, rows: seq<nat>)
    requires Usable(b, missing, rows) && Ascending(missing) && Ascending(rows)
    ensures Elimination.Points(RowPoints(rows), ColumnPoints(missing))
    ensures Elimination.IsCauchy(Coefficients(b, missing, rows), RowPoints(rows), ColumnPoints(missing))
  {
    hide Inverse, Add;
  }

  /** The system over the missing packets, with the first present parity rows. */
  ghost function SystemOf(b: Block): (sys: Elimination.System)
    requires WellFormed(b) && |Empty(b.data, b.dataCount)| <= |Filled(b.parity, b.parityCount)|
  {
    var missing := Empty(b.data, b.dataCount);
    var rows := Filled(b.parity, b.parityCount)[..|missing|];
    Elimination.System(Coefficients(b, missing, rows), Residues(b, rows))
  }

  /** Enough parity, in symbols of one size that no data symbol exceeds. */
  ghost predicate Solvable(b: Block)
    requires WellFormed(b)
  {
    var missing, present := Empty(b.data, b.dataCount), Filled(b.parity, b.parityCount);
    0 < |missing| <= |present| && SizesAgree(b, present[..|missing|], |b.parity[present[0]]|)
  }

  /** Whatever symbols a block holds, genuine or not: recovery succeeds exactly when there is enough parity and the
      sizes agree, and then yields the one solution of the system. The elimination never fails. */
  lemma SolveSucceeds(b: Block, v: seq<Bytes>)
    requires WellFormed(b)
    ensures Solve(b).Some? <==> Solvable(b)
    ensures Solvable(b) ==>
              var n, w := |Empty(b.data, b.dataCount)|, |b.parity[Filled(b.parity, b.parityCount)[0]]|;
              && Elimination.Shaped(SystemOf(b), n, w)
              && Elimination.Solves(SystemOf(b), Solve(b).value, n, w)
              && (Elimination.Solves(SystemOf(b), v, n, w) <==> v == Solve(b).value)
  {
    hide Elimination.Eliminate, Residue, Coefficients, RowPoints, ColumnPoints, Elimination.Points,
         Elimination.IsCauchy, Elimination.Solves, Empty, Filled;
    if Solvable(b) {
      var missing := Empty(b.data, b.dataCount);
      var n := |missing|;
      var rows := Filled(b.parity, b.parityCount)[..n];
      var w := |b.parity[rows[0]]|;
      assert forall r :: 0 <= r < n ==> |Residues(b, rows)[r]| == |b.parity[rows[r]]|;
      CoefficientsAreCauchy(b, missing, rows);
      Elimination.CauchySolution(SystemOf(b), RowPoints(rows), ColumnPoints(missing), v, n, w);
    }
  }

  /** The packets at the given indices. */
  function Selected(cw: Codeword, indices: seq<nat>): (r: seq<Bytes>)
    requires Within(indices, |cw.packets|)
    ensures |r| == |indices|
  {
    seq(|indices|, j requires 0 <= j < |indices| => cw.packets[indices[j]])
  }

  /** The packets with at least one byte, in order. */
  function NonEmpty(packets: seq<Bytes>): (r: seq<Bytes>)
  {
    if |packets| == 0 then []
    else
      var last := packets[|packets| - 1];
      NonEmpty(packets[..|packets| - 1]) + if last == [] then [] else [last]
  }

  /** Nothing is dropped exactly when no packet is empty. */
  lemma {:induction false} NonEmptyKeepsAll(packets: seq<Bytes>)
    ensures |NonEmpty(packets)| <= |packets|
    ensures NonEmpty(packets) == packets <==> forall i :: 0 <= i < |packets| ==> packets[i] != []
  {
    if |packets| != 0 {
      var front := packets[..|packets| - 1];
      NonEmptyKeepsAll(front);
      var last := packets[|packets| - 1];
      assert packets == front + [last];
      if last != [] && NonEmpty(packets) == packets {
        assert NonEmpty(front) == NonEmpty(packets)[..|front|] == front;
      }
    }
  }

  lemma {:induction false} SentUnpacks(cw: Codeword, indices: seq<nat>)
    requires Sound(cw) && Within(indices, |cw.packets|)
    ensures Packets(Sent(cw, indices)) == NonEmpty(Selected(cw, indices))
  {
    hide Width, Symbol, Padded, Unpack;
    if |indices| != 0 {
      var k := |indices| - 1;
      SentUnpacks(cw, indices[..k]);
      assert Sent(cw, indices)[..k] == Sent(cw, indices[..k]);
      UnpackPadded(cw.packets[indices[k]], Width(cw.packets));
      assert Selected(cw, indices)[..k] == Selected(cw, indices[..k]);
    }
  }

  /** The erasure code is maximum distance separable: as soon as there are as many parity symbols
      as missing packets, every missing packet comes out, whole and in index order. Only a packet
      of length zero does not, because its length prefix reads as damage. */
  lemma RecoversAllMissing(b: Block, cw: Codeword)
    requires Holds(b, cw) && b.dataCount == |cw.packets|
    requires 0 < |Empty(b.data, b.dataCount)| <= |Filled(b.parity, b.parityCount)|
    ensures Solve(b).Some?
    ensures Packets(Solve(b).value) == NonEmpty(Selected(cw, Empty(b.data, b.dataCount)))
  {
    hide Packets, Sent, Selected, Width, Symbol, Residues, Coefficients, Elimination.Solves, Solve;
    var missing := Empty(b.data, b.dataCount);
    var rows, w, n := Filled(b.parity, b.parityCount)[..|missing|], Width(cw.packets), |missing|;
    SentSolves(b, cw, rows);
    assert forall j :: 0 <= j < n ==> |b.parity[rows[j]]| == w;
    assert SizesAgree(b, rows, w);
    SolveSucceeds(b, Sent(cw, missing));
    SentUnpacks(cw, missing);
  }
}
