/**
 The encoder: interleaved lanes that accumulate parity online as packets are added, complete
 blocks emitted by `Add` and blocks cut short emitted by `Flush`.
 */
module FecEncoder {
  import opened Octets
  import opened GaloisField
  import opened GaloisTables
  import opened FecCode

  const MAXIMUM_LANES := 4

  /** `lossy` says whether the plan carries a positive loss estimate. */
  datatype Plan = Plan(data: nat, parity: nat, lanes: nat, lossy: bool)
  {
    predicate Active()
    {
      data > 0 && parity > 0
    }
  }

  datatype Lane = Lane(blockId: nat, index: nat, width: nat, parity: seq<Bytes>)

  function Min(a: nat, b: nat): (r: nat)
  {
    if a <= b then a else b
  }

  /** The plan as the encoder adopts it: clamped, and empty when either count is zero. */
  function Clamped(p: Plan): (r: Plan)
    ensures r.data <= MAXIMUM_DATA && r.parity <= MAXIMUM_PARITY && 1 <= r.lanes <= MAXIMUM_LANES
    ensures r.Active() <==> p.Active()
  {
    var q := Plan(Min(p.data, MAXIMUM_DATA), Min(p.parity, MAXIMUM_PARITY),
                  if p.lanes < 1 then 1 else Min(p.lanes, MAXIMUM_LANES), p.lossy);
    if q.Active() then q else Plan(0, 0, 1, false)
  }

  /** `r` is the plan `p` as asked for, each number cut to its limit; a plan that sends nothing is the empty one. */
  predicate Adopts(r: Plan, p: Plan)
  {
    if p.Active() then
      && (p.data <= 64 ==> r.data == p.data) && (p.data > 64 ==> r.data == 64)
      && (p.parity <= 16 ==> r.parity == p.parity) && (p.parity > 16 ==> r.parity == 16)
      && (1 <= p.lanes <= 4 ==> r.lanes == p.lanes) && (p.lanes > 4 ==> r.lanes == 4) && (p.lanes == 0 ==> r.lanes == 1)
      && r.lossy == p.lossy
    else !r.Active()
  }

  // ----- when parity leaves -----

  /** How many packets lane `l` has been given when `fed` were dealt to the lanes in turn. */
  function Dealt(fed: nat, lanes: nat, l: nat): (n: nat)
    requires lanes > 0
  {
    fed / lanes + if l < fed % lanes then 1 else 0
  }

  lemma DivisionIs(x: nat, d: nat, q: nat, r: nat)
    requires d > 0 && r < d && x == q * d + r
    ensures x / d == q && x % d == r
  {
    assert (q - x / d) * d == x % d - r;
    AtLeastOnce(q - x / d, d);
  }

  lemma AtLeastOnce(k: int, d: int)
    requires d > 0
    ensures (k >= 1 ==> k * d >= d) && (k <= -1 ==> k * d <= -d)
  {
  }

  lemma NextDivision(x: nat, d: nat)
    requires d > 0
    ensures if x % d + 1 < d then (x + 1) / d == x / d && (x + 1) % d == x % d + 1
            else (x + 1) / d == x / d + 1 && (x + 1) % d == 0
  {
    if x % d + 1 < d {
      DivisionIs(x + 1, d, x / d, x % d + 1);
    } else {
      assert x + 1 == (x / d + 1) * d + 0;
      DivisionIs(x + 1, d, x / d + 1, 0);
    }
  }

  /** The next packet goes to the lane after the last one. */
  lemma DealOne(fed: nat, lanes: nat, l: nat)
    requires 0 < lanes && l < lanes
    ensures Dealt(fed + 1, lanes, l) == Dealt(fed, lanes, l) + if l == fed % lanes then 1 else 0
    ensures (fed + 1) % lanes == (fed % lanes + 1) % lanes
    ensures Dealt(fed, lanes, fed % lanes) == fed / lanes
  {
    NextDivision(fed, lanes);
    if fed % lanes + 1 < lanes { DivisionIs(fed % lanes + 1, lanes, 0, fed % lanes + 1); }
  }

  /** With `data` packets to a block, call number `fed` (from zero) is the one that fills a block. */
  predicate FillsBlock(plan: Plan, fed: nat)
    requires plan.Active() && plan.lanes > 0
  {
    fed / plan.lanes % plan.data == plan.data - 1
  }

  /** The first parity leaves with packet number (data - 1) * lanes + 1. */
  lemma FirstParity(plan: Plan, fed: nat)
    requires plan.Active() && plan.lanes > 0
    ensures FillsBlock(plan, (plan.data - 1) * plan.lanes)
    ensures FillsBlock(plan, fed) ==> fed >= (plan.data - 1) * plan.lanes
  {
    var d, n := plan.data, plan.lanes;
    DivisionIs((d - 1) * n, n, d - 1, 0);
    DivisionIs(d - 1, d, 0, d - 1);
    if fed / n < d - 1 {
      DivisionIs(fed / n, d, 0, fed / n);
    } else {
      Times(d - 1, fed / n, n);
    }
  }

  lemma Times(a: nat, b: nat, n: nat)
    requires a <= b
    ensures a * n <= b * n
  {
  }

  /** One more packet in a lane, the lane emptied when it is full. */
  lemma OneMore(dealt: nat, data: nat)
    requires data > 0
    ensures (dealt + 1) % data == if dealt % data + 1 == data then 0 else dealt % data + 1
  {
    NextDivision(dealt, data);
  }

  /** The lanes are filled in turn, `cursor` being next. */
  ghost predicate InTurn(plan: Plan, open: seq<seq<Bytes>>, cursor: nat, fed: nat)
    requires plan.Active()
  {
    && 0 < plan.lanes <= |open| && cursor == fed % plan.lanes
    && forall l :: 0 <= l < plan.lanes ==> |open[l]| == Dealt(fed, plan.lanes, l) % plan.data
  }

  lemma TurnStarts(plan: Plan, open: seq<seq<Bytes>>)
    requires plan.Active() && 0 < plan.lanes <= |open| && forall l :: 0 <= l < plan.lanes ==> open[l] == []
    ensures InTurn(plan, open, 0, 0)
  {
    DivisionIs(0, plan.lanes, 0, 0);
    DivisionIs(0, plan.data, 0, 0);
  }

  lemma TurnTaken(plan: Plan, open: seq<seq<Bytes>>, cursor: nat, fed: nat, packet: Bytes)
    requires plan.Active() && InTurn(plan, open, cursor, fed)
    ensures cursor < plan.lanes && |open[cursor]| < plan.data
    ensures FillsBlock(plan, fed) <==> |open[cursor]| + 1 == plan.data
    ensures var packets := if |open[cursor]| + 1 == plan.data then [] else open[cursor] + [packet];
            InTurn(plan, open[cursor := packets], (cursor + 1) % plan.lanes, fed + 1)
  {
    hide Dealt;
    forall l | 0 <= l < plan.lanes
      ensures Dealt(fed + 1, plan.lanes, l) == Dealt(fed, plan.lanes, l) + if l == cursor then 1 else 0
    {
      DealOne(fed, plan.lanes, l);
    }
    DealOne(fed, plan.lanes, cursor);
    OneMore(Dealt(fed, plan.lanes, cursor), plan.data);
  }

  /** The lane holds the parity of exactly these packets. */
  ghost predicate Accumulates(lane: Lane, packets: seq<Bytes>, plan: Plan)
  {
    && |packets| == lane.index < plan.data <= MAXIMUM_DATA
    && |lane.parity| == plan.parity <= MAXIMUM_PARITY
    && lane.width == Width(packets)
    && lane.blockId < TWO_32
    && (forall i :: 0 <= i < |packets| ==> |packets[i]| <= 65535)
    && forall r :: 0 <= r < plan.parity ==> lane.parity[r] == ParityRow(r, packets, lane.width)
  }

  /** A parity symbol as sent: header, then the parity row. */
  ghost function Datagram(cw: Codeword, row: nat): (d: Bytes)
    requires row < MAXIMUM_PARITY && |cw.packets| <= MAXIMUM_DATA
    requires cw.id < TWO_32 && cw.parityCount <= MAXIMUM_PARITY
  {
    SerializeHeader(ParityHeader(cw, row)) + ParitySymbol(cw, row)
  }

  ghost function Datagrams(cw: Codeword, rows: nat): (ds: seq<Bytes>)
    requires rows <= MAXIMUM_PARITY && |cw.packets| <= MAXIMUM_DATA
    requires cw.id < TWO_32 && cw.parityCount <= MAXIMUM_PARITY
    ensures |ds| == rows
  {
    seq(rows, r requires 0 <= r < rows => Datagram(cw, r))
  }

  /** The receiver reads back the header and the row of every parity symbol of a sound block. */
  lemma DatagramRoundTrip(cw: Codeword, row: nat)
    requires Sound(cw) && row < cw.parityCount
    ensures ParseHeader(Datagram(cw, row)) == Some(ParityHeader(cw, row))
    ensures Datagram(cw, row)[HEADER_SIZE..] == ParitySymbol(cw, row)
  {
    hide ParitySymbol, SerializeHeader, ParseHeader, Width;
    HeaderRoundTrip(ParityHeader(cw, row), ParitySymbol(cw, row));
  }

  /** And the header of every data symbol. */
  lemma DataRoundTrip(cw: Codeword, i: nat)
    requires Sound(cw) && i < |cw.packets|
    ensures ParseHeader(SerializeHeader(DataHeader(cw, i)) + cw.packets[i]) == Some(DataHeader(cw, i))
    ensures (SerializeHeader(DataHeader(cw, i)) + cw.packets[i])[HEADER_SIZE..] == cw.packets[i]
  {
    hide SerializeHeader, ParseHeader;
    HeaderRoundTrip(DataHeader(cw, i), cw.packets[i]);
  }

  // ----- one lane -----

  /** The empty lane a block starts from. */
  function Reset(id: nat, parity: nat): (lane: Lane)
  {
    Lane(id, 0, 0, seq(parity, _ => []))
  }

  lemma ResetAccumulates(id: nat, plan: Plan)
    requires id < TWO_32 && 0 < plan.data <= MAXIMUM_DATA && plan.parity <= MAXIMUM_PARITY
    ensures Accumulates(Reset(id, plan.parity), [], plan)
  {
    forall r | 0 <= r < plan.parity ensures ParityRow(r, [], 0) == [] {
      assert |ParityRow(r, [], 0)| == 0;
    }
  }

  lemma WidthStep(packets: seq<Bytes>, packet: Bytes)
    ensures Width(packets + [packet])
         == if LENGTH_PREFIX + |packet| > Width(packets) then LENGTH_PREFIX + |packet| else Width(packets)
  {
    assert (packets + [packet])[..|packets|] == packets;
  }

  class FecEncoder {
    var plan: Plan
    var lanes: seq<Lane>
    var cursor: nat
    var nextBlock: nat
    var blocksEncoded: nat
    var paritySent: nat
    const tables: Tables
    const stride: nat

    /** The packets of each lane's open block. */
    ghost var open: seq<seq<Bytes>>

    /** How many packets were accepted since the plan was adopted or the lanes were flushed. */
    ghost var fed: nat

    ghost predicate Valid()
      reads this, tables, tables.exp, tables.log, tables.product, tables.nibbles
    {
      Held() && (plan.Active() ==> InTurn(plan, open, cursor, fed))
    }

    /** Every lane holds the parity of its open block. */
    ghost predicate Held()
      reads this, tables, tables.exp, tables.log, tables.product, tables.nibbles
    {
      && tables.Valid()
      && |lanes| == |open| == MAXIMUM_LANES
      && cursor < plan.lanes <= MAXIMUM_LANES
      && nextBlock < TWO_32
      && plan.data <= MAXIMUM_DATA && plan.parity <= MAXIMUM_PARITY
      && (forall l :: plan.lanes <= l < MAXIMUM_LANES ==> open[l] == [])
      && (plan.Active() ==> forall l :: 0 <= l < MAXIMUM_LANES ==> Accumulates(lanes[l], open[l], plan))
    }

    /** The code word of lane `l` with these packets. */
    ghost function Word(l: nat, packets: seq<Bytes>): (cw: Codeword)
      requires l < |lanes|
      reads this
    {
      Codeword(lanes[l].blockId, plan.data, plan.parity, packets)
    }

    constructor (t: Tables, vector: nat, p: Plan)
      requires t.Valid()
      ensures Valid() && plan == Clamped(p) && Adopts(plan, p) && cursor == 0 && fed == 0
      ensures forall l :: 0 <= l < MAXIMUM_LANES ==> open[l] == [] && lanes[l].index == 0 && lanes[l].blockId == l
      ensures nextBlock == MAXIMUM_LANES && tables == t
    {
      tables, stride := t, vector;
      nextBlock, blocksEncoded, paritySent := 0, 0, 0;
      lanes := seq(MAXIMUM_LANES, _ => Lane(0, 0, 0, []));
      plan, cursor, open := Plan(0, 0, 1, false), 0, [];
      new;
      Configure(p);
    }

    method Configure(p: Plan)
      requires tables.Valid() && |lanes| == MAXIMUM_LANES && nextBlock < TWO_32
      modifies this
      ensures Valid() && plan == Clamped(p) && Adopts(plan, p) && cursor == 0 && fed == 0
      ensures forall l :: 0 <= l < MAXIMUM_LANES ==>
                open[l] == [] && lanes[l].index == 0 && lanes[l].blockId == (old(nextBlock) + l) % TWO_32
      ensures nextBlock == (old(nextBlock) + MAXIMUM_LANES) % TWO_32
    {
      hide Tables.Valid, InTurn;
      plan := Clamped(p);
      cursor, fed := 0, 0;
      open := seq(MAXIMUM_LANES, _ => []);
      ghost var first := nextBlock;
      for l := 0 to MAXIMUM_LANES
        invariant |lanes| == |open| == MAXIMUM_LANES && plan == Clamped(p) && cursor == 0 && fed == 0
        invariant forall k :: 0 <= k < MAXIMUM_LANES ==> open[k] == []
        invariant nextBlock == (first + l) % TWO_32
        invariant forall k :: 0 <= k < l ==> lanes[k] == Reset((first + k) % TWO_32, plan.parity)
      {
        lanes := lanes[l := Reset(nextBlock, plan.parity)];
        nextBlock := (nextBlock + 1) % TWO_32;
      }
      if plan.Active() {
        TurnStarts(plan, open);
        forall l | 0 <= l < MAXIMUM_LANES ensures Accumulates(lanes[l], open[l], plan) {
          ResetAccumulates((first + l) % TWO_32, plan);
        }
      }
    }

    /** The header for the next packet: the position it will have in the open block. Without an active plan there is
        a header too, one that every receiver refuses. */
    method NextHeader(sealedLength: nat) returns (h: Header)
      requires Valid()
      ensures FecCode.Valid(h) <==> plan.Active()
      ensures plan.Active() ==> forall packet: Bytes :: |packet| == sealedLength ==>
                h == DataHeader(Word(cursor, open[cursor] + [packet]), |open[cursor]|)
    {
      hide Tables.Valid;
      var lane := lanes[cursor];
      h := Header(lane.blockId, lane.index % 256, plan.data, plan.parity, false, sealedLength % 65536);
    }

    /** Adds one packet to the lane under the cursor; a full block comes back as its parity. */
    method Add(packet: Bytes) returns (out: seq<Bytes>)
      requires Valid()
      modifies this
      ensures Valid() && plan == old(plan)
      ensures paritySent == old(paritySent) + |out|
      ensures blocksEncoded == old(blocksEncoded) + if out == [] then 0 else 1
      ensures plan.Active() && |packet| <= 65535 ==>
                fed == old(fed) + 1 && |out| == if FillsBlock(plan, old(fed)) then plan.parity else 0
      ensures !plan.Active() || |packet| > 65535 ==>
                out == [] && lanes == old(lanes) && open == old(open) && cursor == old(cursor)
                && nextBlock == old(nextBlock)
      ensures plan.Active() && |packet| <= 65535 ==>
                var l, packets := old(cursor), old(open[cursor]) + [packet];
                && cursor == (l + 1) % plan.lanes
                && (forall k :: 0 <= k < MAXIMUM_LANES && k != l ==>
                      lanes[k] == old(lanes)[k] && open[k] == old(open)[k])
                && if |packets| == plan.data then
                     && Sound(old(Word(cursor, open[cursor] + [packet])))
                     && out == Datagrams(old(Word(cursor, open[cursor] + [packet])), plan.parity)
                     && open[l] == [] && lanes[l] == Reset(old(nextBlock), plan.parity)
                     && nextBlock == (old(nextBlock) + 1) % TWO_32
                   else
                     && out == [] && open[l] == packets
                     && lanes[l].blockId == old(lanes)[l].blockId && nextBlock == old(nextBlock)
    {
      hide Tables.Valid, ParityRow, Datagrams, Width, InTurn, FillsBlock;
      if !plan.Active() || |packet| > 65535 { return []; }
      TurnTaken(plan, open, cursor, fed, packet);
      var l := cursor;
      cursor := (cursor + 1) % plan.lanes;
      var lane := Absorb(lanes[l], packet, open[l]);
      ghost var packets := open[l] + [packet];
      if lane.index >= plan.data {
        out := Emit(l, lane, plan.parity, packets);
      } else {
        lanes := lanes[l := lane];
        open := open[l := packets];
        out := [];
      }
      fed := fed + 1;
    }

    /** Widens the lane's parity rows if the packet is the longest so far and adds its symbol. */
    method Absorb(lane: Lane, packet: Bytes, ghost packets: seq<Bytes>) returns (r: Lane)
      requires tables.Valid() && Accumulates(lane, packets, plan) && |packet| <= 65535
      ensures r.index == |packets| + 1 && r.blockId == lane.blockId
      ensures r.width == Width(packets + [packet]) && |r.parity| == plan.parity
      ensures forall k :: 0 <= k < plan.parity ==> r.parity[k] == ParityRow(k, packets + [packet], r.width)
    {
      hide Tables.Valid, ParityRow, Width, Cauchy, MulAdd;
      WidthStep(packets, packet);
      var length := LENGTH_PREFIX + |packet|;
      var width := if length > lane.width then length else lane.width;
      var symbol := Symbol(packet);
      var parity: seq<Bytes> := [];
      for row := 0 to plan.parity
        invariant tables.Valid()
        invariant |parity| == row
        invariant forall k :: 0 <= k < row ==> parity[k] == ParityRow(k, packets + [packet], width)
      {
        var widened := Padded(lane.parity[row], width);
        var acc := new Byte[width](i requires 0 <= i < width => widened[i]);
        assert acc[..] == widened;
        var c := tables.Coefficient(row, lane.index);
        tables.MultiplyAdd(acc, symbol, c, stride);
        ParityStep(row, packets, packet, width);
        parity := parity + [acc[..]];
      }
      r := Lane(lane.blockId, lane.index + 1, width, parity);
    }

    /** Sends the parity of a lane's block and opens the next block in the lane. */
    method Emit(l: nat, lane: Lane, rows: nat, ghost packets: seq<Bytes>) returns (out: seq<Bytes>)
      requires Held() && plan.Active() && l < MAXIMUM_LANES && rows <= plan.parity
      requires lane.blockId == lanes[l].blockId && lane.index == |packets| <= plan.data
      requires lane.width == Width(packets) && |lane.parity| == plan.parity
      requires |packets| > 0 && forall i :: 0 <= i < |packets| ==> |packets[i]| <= 65535
      requires forall k :: 0 <= k < plan.parity ==> lane.parity[k] == ParityRow(k, packets, lane.width)
      modifies this
      ensures Held() && plan == old(plan) && cursor == old(cursor) && fed == old(fed)
      ensures Sound(old(Word(l, packets))) && out == Datagrams(old(Word(l, packets)), rows)
      ensures lanes == old(lanes)[l := Reset(old(nextBlock), plan.parity)]
      ensures open == old(open)[l := []] && nextBlock == (old(nextBlock) + 1) % TWO_32
      ensures blocksEncoded == old(blocksEncoded) + 1 && paritySent == old(paritySent) + rows
    {
      hide Tables.Valid, ParityRow, Width, SerializeHeader;
      ghost var cw := Word(l, packets);
      out := [];
      for row := 0 to rows
        invariant |out| == row && forall k :: 0 <= k < row ==> out[k] == Datagram(cw, k)
      {
        var h := Header(lane.blockId, row, lane.index, plan.parity, true, lane.width % 65536);
        out := out + [SerializeHeader(h) + lane.parity[row]];
      }
      ResetAccumulates(nextBlock, plan);
      lanes := lanes[l := Reset(nextBlock, plan.parity)];
      open := open[l := []];
      nextBlock := (nextBlock + 1) % TWO_32;
      blocksEncoded := blocksEncoded + 1;
      paritySent := paritySent + rows;
    }

    /** Sends the parity of every open block; `needed[l]` rows where the plan has a loss estimate. */
    method Flush(needed: seq<nat>) returns (out: seq<Bytes>)
      requires Valid() && |needed| == MAXIMUM_LANES
      requires forall l :: 0 <= l < MAXIMUM_LANES ==> needed[l] <= plan.parity
      modifies this
      ensures Valid() && plan == old(plan)
      ensures !plan.Active() ==>
                && out == [] && lanes == old(lanes) && open == old(open) && nextBlock == old(nextBlock)
                && cursor == old(cursor) && blocksEncoded == old(blocksEncoded) && paritySent == old(paritySent)
      ensures plan.Active() ==>
                && cursor == 0 && fed == 0
                && (forall l :: 0 <= l < MAXIMUM_LANES ==> open[l] == [])
                && out == Flushed(old(lanes), old(open), plan, needed, plan.lanes)
                && lanes == Reopened(old(lanes), old(nextBlock), plan.parity, plan.lanes)
                && nextBlock == (old(nextBlock) + Busy(old(lanes), plan.lanes)) % TWO_32
                && blocksEncoded == old(blocksEncoded) + Busy(old(lanes), plan.lanes)
                && paritySent == old(paritySent) + |out|
    {
      hide Tables.Valid, ParityRow, Width, Datagrams, Accumulates, Flushed, Reopened, Busy, Sound, InTurn;
      out := [];
      if !plan.Active() { return; }
      FlushStart(lanes, open, plan, needed, nextBlock);
      for l := 0 to plan.lanes
        invariant Held() && plan == old(plan)
        invariant forall k :: 0 <= k < l ==> open[k] == []
        invariant forall k :: l <= k < MAXIMUM_LANES ==> open[k] == old(open)[k]
        invariant out == Flushed(old(lanes), old(open), plan, needed, l)
        invariant lanes == Reopened(old(lanes), old(nextBlock), plan.parity, l)
        invariant nextBlock == (old(nextBlock) + Busy(old(lanes), l)) % TWO_32
        invariant blocksEncoded == old(blocksEncoded) + Busy(old(lanes), l) && paritySent == old(paritySent) + |out|
      {
        NextId(old(nextBlock) + Busy(old(lanes), l));
        FlushStep(old(lanes), old(open), plan, needed, old(nextBlock), l);
        OpenLane(lanes[l], open[l], plan);
        if lanes[l].index == 0 { continue; }
        var rows := if plan.lossy then needed[l] else plan.parity;
        var symbols := Emit(l, lanes[l], rows, open[l]);
        out := out + symbols;
      }
      cursor, fed := 0, 0;
      TurnStarts(plan, open);
    }

    /** Idle lanes take consecutive ids from `blockId`; lanes with an open block keep theirs. */
    method ResumeAt(blockId: nat)
      requires Valid() && blockId < TWO_32
      modifies this
      ensures Valid() && plan == old(plan) && cursor == old(cursor) && open == old(open)
      ensures lanes == Renumbered(old(lanes), blockId, MAXIMUM_LANES)
      ensures nextBlock == (blockId + Idle(old(lanes), MAXIMUM_LANES)) % TWO_32
    {
      hide Tables.Valid, ParityRow, Width, InTurn;
      NextId(blockId);
      nextBlock := blockId;
      for l := 0 to MAXIMUM_LANES
        invariant Valid() && plan == old(plan) && cursor == old(cursor) && open == old(open)
        invariant lanes == Renumbered(old(lanes), blockId, l)
        invariant nextBlock == (blockId + Idle(old(lanes), l)) % TWO_32
      {
        NextId(blockId + Idle(old(lanes), l));
        if lanes[l].index == 0 {
          lanes := lanes[l := lanes[l].(blockId := nextBlock)];
          nextBlock := (nextBlock + 1) % TWO_32;
        }
      }
    }
  }

  /** Counting up and wrapping can be exchanged. */
  lemma NextId(x: nat)
    ensures x % TWO_32 < TWO_32
    ensures (x % TWO_32 + 1) % TWO_32 == (x + 1) % TWO_32
  {
  }

  /** How many of the first `k` lanes have no open block. */
  function Idle(lanes: seq<Lane>, k: nat): (n: nat)
    requires k <= |lanes|
  {
    if k == 0 then 0 else Idle(lanes, k - 1) + if lanes[k - 1].index == 0 then 1 else 0
  }

  /** How many of the first `k` lanes have an open block. */
  function Busy(lanes: seq<Lane>, k: nat): (n: nat)
    requires k <= |lanes|
  {
    if k == 0 then 0 else Busy(lanes, k - 1) + if lanes[k - 1].index == 0 then 0 else 1
  }

  /** The first `k` lanes emptied, those that had an open block with new consecutive ids from `next`. */
  function Reopened(lanes: seq<Lane>, next: nat, parity: nat, k: nat): (r: seq<Lane>)
    requires k <= |lanes|
    ensures |r| == |lanes| && forall l :: k <= l < |lanes| ==> r[l] == lanes[l]
  {
    if k == 0 then lanes
    else
      var r := Reopened(lanes, next, parity, k - 1);
      if lanes[k - 1].index == 0 then r
      else r[k - 1 := Reset((next + Busy(lanes, k - 1)) % TWO_32, parity)]
  }

  /** What an accumulating lane with an open block brings to sending it. */
  lemma OpenLane(lane: Lane, packets: seq<Bytes>, plan: Plan)
    requires Accumulates(lane, packets, plan)
    ensures lane.index == |packets| <= plan.data && lane.width == Width(packets) && |lane.parity| == plan.parity
    ensures forall i :: 0 <= i < |packets| ==> |packets[i]| <= 65535
    ensures forall k :: 0 <= k < plan.parity ==> lane.parity[k] == ParityRow(k, packets, lane.width)
  {
    hide ParityRow, Width;
  }

  function Renumbered(lanes: seq<Lane>, blockId: nat, k: nat): (r: seq<Lane>)
    requires k <= |lanes|
    ensures |r| == |lanes| && forall l :: k <= l < |lanes| ==> r[l] == lanes[l]
  {
    if k == 0 then lanes
    else
      var r := Renumbered(lanes, blockId, k - 1);
      if lanes[k - 1].index != 0 then r
      else r[k - 1 := lanes[k - 1].(blockId := (blockId + Idle(lanes, k - 1)) % TWO_32)]
  }

  lemma FlushStart(lanes: seq<Lane>, open: seq<seq<Bytes>>, plan: Plan, needed: seq<nat>, next: nat)
    requires Flushable(lanes, open, plan, needed) && next < TWO_32
    ensures Flushed(lanes, open, plan, needed, 0) == [] && Busy(lanes, 0) == 0
    ensures Reopened(lanes, next, plan.parity, 0) == lanes && next == (next + 0) % TWO_32
  {
    hide Accumulates;
  }

  lemma FlushStep(lanes: seq<Lane>, open: seq<seq<Bytes>>, plan: Plan, needed: seq<nat>, next: nat, k: nat)
    requires Flushable(lanes, open, plan, needed) && k < |lanes|
    ensures lanes[k].index == |open[k]|
    ensures Busy(lanes, k + 1) == Busy(lanes, k) + if open[k] == [] then 0 else 1
    ensures var cw := Codeword(lanes[k].blockId, plan.data, plan.parity, open[k]);
            Flushed(lanes, open, plan, needed, k + 1)
            == Flushed(lanes, open, plan, needed, k)
               + if open[k] == [] then [] else Datagrams(cw, if plan.lossy then needed[k] else plan.parity)
    ensures Reopened(lanes, next, plan.parity, k + 1)
         == if open[k] == [] then Reopened(lanes, next, plan.parity, k)
            else Reopened(lanes, next, plan.parity, k)
                 [k := Reset((next + Busy(lanes, k)) % TWO_32, plan.parity)]
  {
    hide ParityRow, Width, Datagrams;
    assert Accumulates(lanes[k], open[k], plan);
  }

  ghost predicate Flushable(lanes: seq<Lane>, open: seq<seq<Bytes>>, plan: Plan, needed: seq<nat>)
  {
    && |lanes| == |open| == |needed| && plan.parity <= MAXIMUM_PARITY && plan.data <= MAXIMUM_DATA
    && forall l :: 0 <= l < |lanes| ==> Accumulates(lanes[l], open[l], plan) && needed[l] <= plan.parity
  }

  /** The parity symbols of the first `k` lanes, in lane order; empty lanes send nothing. */
  ghost function Flushed(lanes: seq<Lane>, open: seq<seq<Bytes>>, plan: Plan, needed: seq<nat>, k: nat): (r: seq<Bytes>)
    requires Flushable(lanes, open, plan, needed) && k <= |lanes|
  {
    if k == 0 then []
    else
      var rest := Flushed(lanes, open, plan, needed, k - 1);
      if open[k - 1] == [] then rest
      else rest + Datagrams(Codeword(lanes[k - 1].blockId, plan.data, plan.parity, open[k - 1]),
                            if plan.lossy then needed[k - 1] else plan.parity)
  }
}
