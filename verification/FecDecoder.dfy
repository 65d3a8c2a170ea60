/**
 The decoder: outstanding blocks, recently finished block ids, and the handling of one received
 symbol. Every method of the class is tied to a function on decoder states; module FecDelivery
 proves what that function delivers over whole runs.
 */
module FecDecoder {
  import opened Octets
  import opened GaloisField
  import opened GaloisTables
  import Elimination
  import opened FecCode
  import opened FecRecovery

  const MAXIMUM_OUTSTANDING := 128
  const RECOVERY_DEADLINE := 250

  datatype Stats = Stats(symbolsReceived: nat, recovered: nat, unrecoverable: nat, expired: nat)

  datatype State = State(blocks: seq<Block>, finished: seq<nat>, stats: Stats)

  ghost predicate WellFormedState(s: State)
  {
    forall i :: 0 <= i < |s.blocks| ==> WellFormed(s.blocks[i])
  }

  // ----- one symbol -----

  /** The position of the block with this id, or the number of blocks. */
  function IndexOf(blocks: seq<Block>, id: nat): (i: nat)
    ensures i <= |blocks|
    ensures i < |blocks| ==> blocks[i].id == id
    ensures forall j :: 0 <= j < i ==> blocks[j].id != id
  {
    if |blocks| == 0 then 0
    else if blocks[0].id == id then 0
    else 1 + IndexOf(blocks[1..], id)
  }

  function FreshBlock(h: Header, now: int): (b: Block)
  {
    Block(h.blockId, h.blockSize, h.parityCount, 0,
          seq(h.blockSize, _ => []), seq(h.parityCount, _ => []), now)
  }

  /** The state with a block for this header; the oldest block makes room when there are too many. */
  function Opened(s: State, h: Header, now: int): (r: State)
  {
    if IndexOf(s.blocks, h.blockId) < |s.blocks| then s
    else if |s.blocks| >= MAXIMUM_OUTSTANDING then
      s.(blocks := s.blocks[1..] + [FreshBlock(h, now)],
         stats := s.stats.(unrecoverable := s.stats.unrecoverable + 1))
    else s.(blocks := s.blocks + [FreshBlock(h, now)])
  }

  function FilledCount(slots: seq<Bytes>): (n: nat)
  {
    if |slots| == 0 then 0 else (if slots[0] != [] then 1 else 0) + FilledCount(slots[1..])
  }

  /** A parity symbol of a block that was cut short shows how many packets it really has. */
  function Truncated(b: Block, size: nat): (r: Block)
    requires |b.data| == b.dataCount
  {
    if size < b.dataCount then
      b.(dataCount := size, data := b.data[..size],
         dataReceived := b.dataReceived - FilledCount(b.data[size..]))
    else b
  }

  /** The block with the symbol stored, and whether it was new. */
  function Stored(b: Block, h: Header, payload: Bytes): (r: (Block, bool))
    requires |b.data| == b.dataCount && |b.parity| == b.parityCount
    requires Valid(h) && b.parityCount == h.parityCount
  {
    if h.parity then
      var t := Truncated(b, h.blockSize);
      if t.parity[h.index] != [] then (t, false)
      else (t.(parity := t.parity[h.index := payload]), true)
    else if h.index >= b.dataCount || b.data[h.index] != [] then (b, false)
    else (b.(data := b.data[h.index := Symbol(payload)], dataReceived := b.dataReceived + 1), true)
  }

  function Without(blocks: seq<Block>, id: nat): (r: seq<Block>)
  {
    if |blocks| == 0 then []
    else
      var last := blocks[|blocks| - 1];
      Without(blocks[..|blocks| - 1], id) + if last.id == id then [] else [last]
  }

  lemma {:induction false} WithoutContents(blocks: seq<Block>, id: nat)
    ensures forall b :: b in Without(blocks, id) <==> b in blocks && b.id != id
  {
    if |blocks| != 0 {
      var front := blocks[..|blocks| - 1];
      WithoutContents(front, id);
      assert blocks == front + [blocks[|blocks| - 1]];
    }
  }

  /** Only the most recent ids are remembered. */
  function Remembered(ids: seq<nat>): (r: seq<nat>)
  {
    if |ids| > MAXIMUM_OUTSTANDING * 2 then ids[|ids| - MAXIMUM_OUTSTANDING * 2..] else ids
  }

  function Finished(s: State, id: nat): (r: State)
  {
    s.(blocks := Without(s.blocks, id), finished := Remembered(s.finished + [id]))
  }

  lemma FinishedIsWellFormed(s: State, id: nat)
    requires WellFormedState(s)
    ensures WellFormedState(Finished(s, id))
  {
    hide WellFormed, Without;
    WithoutContents(s.blocks, id);
    var r := Without(s.blocks, id);
    forall i | 0 <= i < |r| ensures WellFormed(r[i]) {
      assert r[i] in r;
    }
  }

  /** Solved symbols long enough for a length prefix that still hold no packet. */
  function Rejects(symbols: seq<Bytes>): (n: nat)
  {
    if |symbols| == 0 then 0
    else
      var last := symbols[|symbols| - 1];
      Rejects(symbols[..|symbols| - 1])
      + if |last| >= LENGTH_PREFIX && Unpack(last).None? then 1 else 0
  }

  /** Recovery of a block that is not complete: the state after it and the packets returned. */
  ghost function Recovered(s: State, b: Block): (r: (State, seq<Bytes>))
    requires WellFormed(b)
  {
    match Solve(b)
    case None => (s, [])
    case Some(symbols) =>
      var out := Packets(symbols);
      (Finished(s.(stats := s.stats.(recovered := s.stats.recovered + |out|,
                                     unrecoverable := s.stats.unrecoverable + Rejects(symbols))), b.id),
       out)
  }

  lemma OpenedHasBlock(s: State, h: Header, now: int)
    ensures IndexOf(Opened(s, h, now).blocks, h.blockId) < |Opened(s, h, now).blocks|
  {
    var r := Opened(s, h, now);
    assert IndexOf(s.blocks, h.blockId) == |s.blocks| ==> r.blocks[|r.blocks| - 1].id == h.blockId;
  }

  lemma StoredIsWellFormed(b: Block, h: Header, payload: Bytes)
    requires WellFormed(b) && Valid(h) && b.parityCount == h.parityCount
    ensures WellFormed(Stored(b, h, payload).0)
    ensures Stored(b, h, payload).0.id == b.id && Stored(b, h, payload).0.created == b.created
  {
  }

  ghost function Received(s: State, h: Header, payload: Bytes, now: int): (r: (State, seq<Bytes>))
    requires WellFormedState(s) && Valid(h)
  {
    var s1 := s.(stats := s.stats.(symbolsReceived := s.stats.symbolsReceived + 1));
    if h.blockId in s.finished then (s1, [])
    else
      var s2 := Opened(s1, h, now);
      var i := IndexOf(s2.blocks, h.blockId);
      OpenedHasBlock(s1, h, now);
      if s2.blocks[i].parityCount != h.parityCount then (s2, [])
      else
        var (b, isNew) := Stored(s2.blocks[i], h, payload);
        StoredIsWellFormed(s2.blocks[i], h, payload);
        var s3 := s2.(blocks := s2.blocks[i := b]);
        if !isNew then (s3, [])
        else if b.dataReceived == b.dataCount then (Finished(s3, b.id), [])
        else Recovered(s3, b)
  }

  /** How many blocks at the front have reached their deadline. */
  function Overdue(blocks: seq<Block>, now: int): (n: nat)
    ensures n <= |blocks|
    ensures forall i :: 0 <= i < n ==> now - blocks[i].created >= RECOVERY_DEADLINE
    ensures n < |blocks| ==> now - blocks[n].created < RECOVERY_DEADLINE
  {
    if |blocks| == 0 || now - blocks[0].created < RECOVERY_DEADLINE then 0
    else 1 + Overdue(blocks[1..], now)
  }

  function Ids(blocks: seq<Block>): (ids: seq<nat>)
    ensures |ids| == |blocks|
    ensures forall i :: 0 <= i < |ids| ==> ids[i] == blocks[i].id
  {
    seq(|blocks|, i requires 0 <= i < |blocks| => blocks[i].id)
  }

  function Expired(s: State, now: int): (r: State)
  {
    var n := Overdue(s.blocks, now);
    s.(blocks := s.blocks[n..], finished := Remembered(s.finished + Ids(s.blocks[..n])),
       stats := s.stats.(expired := s.stats.expired + n))
  }

  // ----- the class -----

  class FecDecoder {
    var blocks: seq<Block>
    var finished: seq<nat>
    var stats: Stats
    const tables: Tables
    const stride: nat  // width of the vector unit, 0 without one

    ghost function Model(): (s: State)
      reads this
    {
      State(blocks, finished, stats)
    }

    ghost predicate Valid()
      reads this, tables, tables.exp, tables.log, tables.product, tables.nibbles
    {
      tables.Valid() && WellFormedState(Model())
    }

    constructor (t: Tables, vector: nat)
      requires t.Valid()
      ensures Valid() && tables == t
      ensures Model() == State([], [], Stats(0, 0, 0, 0))
    {
      blocks, finished, stats, tables, stride := [], [], Stats(0, 0, 0, 0), t, vector;
    }

    method Receive(h: Header, payload: Bytes, now: int) returns (out: seq<Bytes>)
      requires Valid() && FecCode.Valid(h)
      modifies this
      ensures Valid()
      ensures (Model(), out) == Received(old(Model()), h, payload, now)
    {
      hide Tables.Valid, Solve, IndexOf, Stored;
      stats := stats.(symbolsReceived := stats.symbolsReceived + 1);
      if h.blockId in finished { return []; }
      ghost var s1 := Model();
      var i := FindOrCreate(h, now);
      if blocks[i].parityCount != h.parityCount { return []; }
      StoredIsWellFormed(blocks[i], h, payload);
      var b, isNew := Store(blocks[i], h, payload);
      blocks := blocks[i := b];
      if !isNew { return []; }
      if b.dataReceived == b.dataCount {
        Finish(b.id);
        return [];
      }
      out := TryRecover(b);
    }

    method FindOrCreate(h: Header, now: int) returns (i: nat)
      requires Valid() && FecCode.Valid(h)
      modifies this
      ensures Valid()
      ensures Model() == Opened(old(Model()), h, now)
      ensures i == IndexOf(blocks, h.blockId) && i < |blocks|
    {
      hide Tables.Valid, IndexOf;
      OpenedHasBlock(Model(), h, now);
      i := Search(h.blockId);
      if i < |blocks| { return; }
      if |blocks| >= MAXIMUM_OUTSTANDING {
        stats := stats.(unrecoverable := stats.unrecoverable + 1);
        blocks := blocks[1..];
      }
      blocks := blocks + [FreshBlock(h, now)];
      i := Search(h.blockId);
    }

    method Search(id: nat) returns (i: nat)
      ensures i == IndexOf(blocks, id)
    {
      i := 0;
      while i < |blocks| && blocks[i].id != id
        invariant i <= |blocks|
        invariant forall j :: 0 <= j < i ==> blocks[j].id != id
      {
        i := i + 1;
      }
    }

    static method Store(b: Block, h: Header, payload: Bytes) returns (r: Block, isNew: bool)
      requires WellFormed(b) && FecCode.Valid(h) && b.parityCount == h.parityCount
      ensures (r, isNew) == Stored(b, h, payload)
    {
      r := b;
      if h.parity {
        if h.blockSize < r.dataCount {
          var received := r.dataReceived;
          for index := h.blockSize to r.dataCount
            invariant received == b.dataReceived - FilledCount(b.data[h.blockSize..])
                                  + FilledCount(b.data[index..])
          {
            assert b.data[index..][1..] == b.data[index + 1..];
            if r.data[index] != [] { received := received - 1; }
          }
          r := r.(dataReceived := received, dataCount := h.blockSize, data := r.data[..h.blockSize]);
        }
        if r.parity[h.index] != [] { return r, false; }
        r := r.(parity := r.parity[h.index := payload]);
      } else {
        if h.index >= r.dataCount { return r, false; }
        if r.data[h.index] != [] { return r, false; }
        r := r.(data := r.data[h.index := Symbol(payload)], dataReceived := r.dataReceived + 1);
      }
      return r, true;
    }

    method Finish(id: nat)
      requires Valid()
      modifies this
      ensures Valid()
      ensures Model() == Finished(old(Model()), id)
    {
      hide Tables.Valid, WellFormedState, Without, Remembered;
      FinishedIsWellFormed(Model(), id);
      blocks := Erase(blocks, id);
      finished := Trim(finished + [id]);
    }

    static method Erase(blocks: seq<Block>, id: nat) returns (kept: seq<Block>)
      ensures kept == Without(blocks, id)
    {
      kept := [];
      for i := 0 to |blocks|
        invariant kept == Without(blocks[..i], id)
      {
        assert blocks[..i + 1][..i] == blocks[..i];
        if blocks[i].id != id { kept := kept + [blocks[i]]; }
      }
      assert blocks[..|blocks|] == blocks;
    }

    static method Trim(ids: seq<nat>) returns (kept: seq<nat>)
      ensures kept == Remembered(ids)
    {
      kept := ids;
      while |kept| > MAXIMUM_OUTSTANDING * 2
        invariant Remembered(kept) == Remembered(ids)
        decreases |kept|
      {
        kept := kept[1..];
      }
    }

    method Expire(now: int) returns (removed: nat)
      requires Valid()
      modifies this
      ensures Valid()
      ensures Model() == Expired(old(Model()), now)
      ensures removed == Overdue(old(blocks), now)
    {
      hide Tables.Valid, WellFormed, Remembered;
      removed := 0;
      ghost var n := Overdue(blocks, now);
      while |blocks| > 0 && now - blocks[0].created >= RECOVERY_DEADLINE
        invariant removed <= n && blocks == old(blocks)[removed..]
        invariant finished == old(finished) + Ids(old(blocks)[..removed])
        invariant stats == old(stats).(expired := old(stats).expired + removed)
        decreases |blocks|
      {
        finished := finished + [blocks[0].id];
        blocks := blocks[1..];
        removed := removed + 1;
        stats := stats.(expired := stats.expired + 1);
      }
      finished := Trim(finished);
    }

    method TryRecover(b: Block) returns (out: seq<Bytes>)
      requires Valid() && WellFormed(b)
      modifies this
      ensures Valid()
      ensures (Model(), out) == Recovered(old(Model()), b)
    {
      hide Tables.Valid, Solve;
      var symbols := SolveBlock(b);
      if symbols.None? { return []; }
      out := [];
      var rejected := 0;
      for c := 0 to |symbols.value|
        invariant out == Packets(symbols.value[..c]) && rejected == Rejects(symbols.value[..c])
      {
        assert symbols.value[..c + 1][..c] == symbols.value[..c];
        var symbol := symbols.value[c];
        if |symbol| < LENGTH_PREFIX { continue; }
        var packet := Unpack(symbol);
        if packet.None? { rejected := rejected + 1; continue; }
        out := out + [packet.value];
      }
      assert symbols.value[..|symbols.value|] == symbols.value;
      stats := stats.(recovered := stats.recovered + |out|, unrecoverable := stats.unrecoverable + rejected);
      Finish(b.id);
    }

    /** Builds the linear system over the missing packets and eliminates it. */
    method SolveBlock(b: Block) returns (r: Option<seq<Bytes>>)
      requires Valid() && WellFormed(b)
      ensures r == Solve(b)
    {
      hide Tables.Valid, Elimination.Eliminate, Residues, Coefficients;
      var missing, present := Scan(b);
      if |missing| == 0 || |present| < |missing| { return None; }
      var rows := present[..|missing|];
      var width := |b.parity[rows[0]]|;
      var agree := CheckSizes(b, rows, width);
      if !agree { return None; }

      var count := |missing|;
      var matrix, syndrome := BuildSystem(b, missing, rows, width);
      ghost var sys := Elimination.System(Elimination.Rows(matrix), Elimination.Rows(syndrome));
      assert sys == Elimination.System(Coefficients(b, missing, rows), Residues(b, rows));
      var solved := Elimination.GaussJordan(tables, matrix, syndrome);
      if !solved { return None; }
      var result := ReadRows(syndrome);
      return Some(result);
    }

    static method ReadRows(m: array2<Byte>) returns (rows: seq<Bytes>)
      ensures rows == Elimination.Rows(m)
    {
      rows := [];
      for i := 0 to m.Length0
        invariant |rows| == i
        invariant forall k :: 0 <= k < i ==> rows[k] == Elimination.Rows(m)[k]
      {
        var row: Bytes := [];
        for j := 0 to m.Length1
          invariant |row| == j && forall k :: 0 <= k < j ==> row[k] == m[i, k]
        {
          row := row + [m[i, j]];
        }
        assert row == Elimination.Rows(m)[i];
        rows := rows + [row];
      }
    }

    static method Scan(b: Block) returns (missing: seq<nat>, present: seq<nat>)
      requires WellFormed(b)
      ensures missing == Empty(b.data, b.dataCount)
      ensures present == Filled(b.parity, b.parityCount)
    {
      hide Empty, Filled;
      missing, present := [], [];
      SlotsStep(b.data, 0);
      SlotsStep(b.parity, 0);
      for index := 0 to b.dataCount
        invariant missing == Empty(b.data, index)
      {
        SlotsStep(b.data, index + 1);
        if b.data[index] == [] { missing := missing + [index]; }
      }
      for index := 0 to b.parityCount
        invariant present == Filled(b.parity, index)
      {
        SlotsStep(b.parity, index + 1);
        if b.parity[index] != [] { present := present + [index]; }
      }
    }

    static method CheckSizes(b: Block, rows: seq<nat>, width: nat) returns (agree: bool)
      requires forall j :: 0 <= j < |rows| ==> rows[j] < |b.parity|
      ensures agree == SizesAgree(b, rows, width)
    {
      for j := 0 to |rows|
        invariant forall k :: 0 <= k < j ==> |b.parity[rows[k]]| == width
      {
        if |b.parity[rows[j]]| != width { return false; }
      }
      for i := 0 to |b.data|
        invariant forall k :: 0 <= k < i ==> |b.data[k]| <= width
      {
        if |b.data[i]| > width { return false; }
      }
      return true;
    }

    method BuildSystem(b: Block, missing: seq<nat>, rows: seq<nat>, width: nat)
      returns (matrix: array2<Byte>, syndrome: array2<Byte>)
      requires Valid() && Usable(b, missing, rows) && SizesAgree(b, rows, width)
      ensures fresh(matrix) && fresh(syndrome) && matrix != syndrome
      ensures matrix.Length0 == matrix.Length1 == syndrome.Length0 == |rows|
      ensures syndrome.Length1 == width
      ensures Elimination.Rows(matrix) == Coefficients(b, missing, rows)
      ensures Elimination.Rows(syndrome) == Residues(b, rows)
    {
      hide Coefficients, Residues, Tables.Valid, Elimination.Rows;
      syndrome := BuildSyndrome(b, rows, width);
      matrix := BuildMatrix(b, missing, rows);
    }

    method BuildMatrix(b: Block, missing: seq<nat>, rows: seq<nat>) returns (matrix: array2<Byte>)
      requires Valid() && Usable(b, missing, rows)
      ensures fresh(matrix) && matrix.Length0 == matrix.Length1 == |rows|
      ensures Elimination.Rows(matrix) == Coefficients(b, missing, rows)
    {
      hide Cauchy, Tables.Valid;
      var count := |rows|;
      matrix := new Byte[count, count];
      for r := 0 to count
        invariant Valid()
        invariant forall i, j :: 0 <= i < r && 0 <= j < count ==> matrix[i, j] == Cauchy(rows[i], missing[j])
      {
        for c := 0 to count
          invariant Valid()
          invariant forall i, j :: 0 <= i < r && 0 <= j < count ==> matrix[i, j] == Cauchy(rows[i], missing[j])
          invariant forall j :: 0 <= j < c ==> matrix[r, j] == Cauchy(rows[r], missing[j])
        {
          var coefficient := tables.Coefficient(rows[r], missing[c]);
          matrix[r, c] := coefficient;
        }
      }
      Elimination.SameRows(Elimination.Rows(matrix), Coefficients(b, missing, rows), count, count);
    }

    method BuildSyndrome(b: Block, rows: seq<nat>, width: nat) returns (syndrome: array2<Byte>)
      requires Valid() && WellFormed(b)
      requires forall j :: 0 <= j < |rows| ==> rows[j] < b.parityCount
      requires SizesAgree(b, rows, width)
      ensures fresh(syndrome) && syndrome.Length0 == |rows| && syndrome.Length1 == width
      ensures Elimination.Rows(syndrome) == Residues(b, rows)
    {
      hide Residue, Tables.Valid;
      var count := |rows|;
      syndrome := new Byte[count, width];
      for r := 0 to count
        invariant Valid()
        invariant forall i, p :: 0 <= i < r && 0 <= p < width ==>
                    syndrome[i, p] == Residue(b, rows[i], b.dataCount)[p]
      {
        var residue := ComputeResidue(b, rows[r]);
        for p := 0 to width
          invariant Valid()
          invariant forall i, k :: 0 <= i < r && 0 <= k < width ==>
                      syndrome[i, k] == Residue(b, rows[i], b.dataCount)[k]
          invariant forall k :: 0 <= k < p ==> syndrome[r, k] == residue[k]
        {
          syndrome[r, p] := residue[p];
        }
      }
      Elimination.SameRows(Elimination.Rows(syndrome), Residues(b, rows), count, width);
    }

    /** A copy of the parity row from which the received symbols are taken out. */
    method ComputeResidue(b: Block, row: nat) returns (r: Bytes)
      requires Valid() && WellFormed(b) && row < b.parityCount
      ensures r == Residue(b, row, b.dataCount)
    {
      hide Tables.Valid, Cauchy, MulAdd;
      var source := b.parity[row];
      var acc := new Byte[|source|](i requires 0 <= i < |source| => source[i]);
      assert acc[..] == source;
      for index := 0 to b.dataCount
        invariant Valid()
        invariant acc[..] == Residue(b, row, index)
      {
        if b.data[index] == [] { continue; }
        var c := tables.Coefficient(row, index);
        tables.MultiplyAdd(acc, b.data[index], c, stride);
      }
      return acc[..];
    }
  }
}
