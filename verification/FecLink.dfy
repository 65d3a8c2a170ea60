/**
 From encoder to decoder: the datagrams the encoder sends for a block, in any order and with any of them
 repeated or lost, read back by the decoder.
 */
module FecLink {
  import opened Octets
  import opened GaloisTables
  import opened FecCode
  import opened FecRecovery
  import opened FecDecoder
  import opened FecEncoder
  import opened FecDelivery

  /** A data symbol as sent: its header, then the packet. */
  ghost function DataDatagram(cw: Codeword, i: nat): (d: Bytes)
    requires Sound(cw) && i < |cw.packets|
  {
    SerializeHeader(DataHeader(cw, i)) + cw.packets[i]
  }

  /** One of the datagrams that carry the block. */
  ghost predicate SentFor(cw: Codeword, d: Bytes)
    requires Sound(cw)
  {
    || DataFor(cw, d)
    || (exists row :: 0 <= row < cw.parityCount && d == Datagram(cw, row))
  }

  ghost predicate DataFor(cw: Codeword, d: Bytes)
    requires Sound(cw)
  {
    exists i :: 0 <= i < |cw.packets| && d == DataDatagram(cw, i)
  }

  /** A datagram as the receiver reads it. */
  function Read(d: Bytes, now: int): (e: Event)
    requires ParseHeader(d).Some?
  {
    Event.Symbol(ParseHeader(d).value, d[HEADER_SIZE..], now)
  }

  /** The receiver reads every datagram of a block back as the symbol it is. */
  lemma SentIsGenuine(cw: Codeword, d: Bytes, now: int)
    requires Sound(cw) && SentFor(cw, d)
    ensures ParseHeader(d).Some?
    ensures Genuine(cw, Read(d, now)) && Acceptable(Read(d, now)) && Concerns(cw, Read(d, now))
  {
    hide SerializeHeader, ParseHeader, ParitySymbol;
    if DataFor(cw, d) {
      var i :| 0 <= i < |cw.packets| && d == DataDatagram(cw, i);
      DataRoundTrip(cw, i);
    } else {
      var row :| 0 <= row < cw.parityCount && d == Datagram(cw, row);
      DatagramRoundTrip(cw, row);
    }
  }

  ghost predicate Delivery(cw: Codeword, ds: seq<Bytes>, es: seq<Event>)
    requires Sound(cw)
  {
    && |ds| == |es|
    && forall k :: 0 <= k < |ds| ==>
         && SentFor(cw, ds[k]) && ParseHeader(ds[k]).Some?
         && es[k] == Read(ds[k], es[k].now)
  }

  /** Datagrams of one block, in any order and at any times, reach a fresh decoder. As soon as they hold as
      many different symbols as the block has packets, a parity symbol among them, the decoder returns packets
      exactly once; with exactly that many symbols they are the missing packets, whole and in order. */
  lemma DeliveredBlockIsRecovered(cw: Codeword, ds: seq<Bytes>, es: seq<Event>) returns (k: nat)
    requires Sound(cw) && Delivery(cw, ds, es)
    requires var all := SeenAfter(cw, NOTHING, es, |es|);
             all.parity != {} && |all.data| + |all.parity| >= |cw.packets|
    requires forall i :: 0 <= i < |cw.packets| ==> cw.packets[i] != []
    ensures AllGenuine(cw, es) && k < |es|
    ensures var outputs, all := Outputs(State([], [], Stats(0, 0, 0, 0)), es), SeenAfter(cw, NOTHING, es, |es|);
            && (forall j :: 0 <= j < |es| && j != k ==> outputs[j] == [])
            && outputs[k] == Selected(cw, Absent(SeenAfter(cw, NOTHING, es, k + 1).data, |cw.packets|))
            && (|all.data| + |all.parity| == |cw.packets| ==>
                  outputs[k] == Selected(cw, Absent(all.data, |cw.packets|)))
  {
    hide Outputs, SeenAfter, ParitySymbol, SerializeHeader, ParseHeader, Absent, SentFor, Genuine, Acceptable;
    forall i | 0 <= i < |es| ensures Acceptable(es[i]) && Genuine(cw, es[i]) && Concerns(cw, es[i]) {
      SentIsGenuine(cw, ds[i], es[i].now);
    }
    k := RecoveredExactlyOnce(cw, {cw.id}, es);
    NonEmptyKeepsAll(Selected(cw, Absent(SeenAfter(cw, NOTHING, es, k + 1).data, |cw.packets|)));
    NonEmptyKeepsAll(Selected(cw, Absent(SeenAfter(cw, NOTHING, es, |es|).data, |cw.packets|)));
  }

  // ----- everything sent to one peer -----

  /** The symbols sent so far, the blocks closed, each lane's open block, and how many block ids were given out. */
  datatype Ledger = Ledger(wire: seq<Bytes>, closed: seq<Codeword>, open: seq<Codeword>, issued: nat)

  ghost predicate AllDataSent(wire: seq<Bytes>, cw: Codeword)
    requires Sound(cw)
  {
    forall i :: 0 <= i < |cw.packets| ==> DataDatagram(cw, i) in wire
  }

  /** A symbol of a closed block or a data symbol of an open one. */
  ghost predicate Explained(g: Ledger, d: Bytes)
  {
    || (exists k :: 0 <= k < |g.closed| && Sound(g.closed[k]) && SentFor(g.closed[k], d))
    || (exists l :: 0 <= l < |g.open| && Sound(g.open[l]) && DataFor(g.open[l], d))
  }

  /** Closed blocks are sound and all their packets were sent; so are open ones, unless empty; nothing else was. */
  ghost predicate Balanced(g: Ledger)
  {
    && (forall k :: 0 <= k < |g.closed| ==> Sound(g.closed[k]) && AllDataSent(g.wire, g.closed[k]))
    && (forall l :: 0 <= l < |g.open| && g.open[l].packets != [] ==>
          Sound(g.open[l]) && AllDataSent(g.wire, g.open[l]))
    && (forall d :: d in g.wire ==> Explained(g, d))
  }

  /** Until the ids wrap, no two blocks share one. */
  ghost predicate Numbered(g: Ledger)
  {
    g.issued <= TWO_32 ==>
      && (forall k :: 0 <= k < |g.closed| ==> g.closed[k].id < g.issued)
      && (forall l :: 0 <= l < |g.open| ==> g.open[l].id < g.issued)
      && (forall j, k :: 0 <= j < k < |g.closed| ==> g.closed[j].id != g.closed[k].id)
      && (forall j, k :: 0 <= j < k < |g.open| ==> g.open[j].id != g.open[k].id)
      && (forall k, l :: 0 <= k < |g.closed| && 0 <= l < |g.open| ==> g.closed[k].id != g.open[l].id)
  }

  ghost function Grown(cw: Codeword, packet: Bytes): (r: Codeword)
  {
    cw.(packets := cw.packets + [packet])
  }

  /** A packet is sent as the next data symbol of lane `l`. */
  ghost function DataSent(g: Ledger, l: nat, packet: Bytes): (r: Ledger)
    requires l < |g.open| && Sound(Grown(g.open[l], packet))
  {
    var cw := Grown(g.open[l], packet);
    g.(wire := g.wire + [DataDatagram(cw, |cw.packets| - 1)], open := g.open[l := cw])
  }

  /** The open block of lane `l` is closed with its first parity symbols. */
  ghost function BlockClosed(g: Ledger, l: nat, rows: nat): (r: Ledger)
    requires l < |g.open| && Sound(g.open[l]) && rows <= g.open[l].parityCount
  {
    g.(wire := g.wire + Datagrams(g.open[l], rows), closed := g.closed + [g.open[l]],
       open := g.open[l := g.open[l].(id := g.issued % TWO_32, packets := [])], issued := g.issued + 1)
  }

  /** What was sent for a block stays one of its data symbols as the block grows. */
  lemma DataForGrows(cw: Codeword, packet: Bytes, d: Bytes)
    requires Sound(cw) && Sound(Grown(cw, packet)) && DataFor(cw, d)
    ensures DataFor(Grown(cw, packet), d)
  {
    hide SerializeHeader;
    var i :| 0 <= i < |cw.packets| && d == DataDatagram(cw, i);
    assert d == DataDatagram(Grown(cw, packet), i);
  }

  lemma ExplainedAfterData(g: Ledger, l: nat, packet: Bytes, d: Bytes)
    requires l < |g.open| && Sound(Grown(g.open[l], packet)) && Explained(g, d)
    ensures Explained(DataSent(g, l, packet), d)
  {
    hide SerializeHeader, Sound, DataFor, SentFor;
    var r := DataSent(g, l, packet);
    if k :| 0 <= k < |g.closed| && Sound(g.closed[k]) && SentFor(g.closed[k], d) {
      assert Sound(r.closed[k]) && SentFor(r.closed[k], d);
    } else {
      var m :| 0 <= m < |g.open| && Sound(g.open[m]) && DataFor(g.open[m], d);
      if m == l { DataForGrows(g.open[l], packet, d); }
      assert Sound(r.open[m]) && DataFor(r.open[m], d);
    }
  }

  lemma AllDataStaysSent(wire: seq<Bytes>, more: seq<Bytes>, cw: Codeword)
    requires Sound(cw) && AllDataSent(wire, cw)
    ensures AllDataSent(wire + more, cw)
  {
    hide DataDatagram;
  }

  lemma AllDataGrows(wire: seq<Bytes>, cw: Codeword, packet: Bytes)
    requires Sound(Grown(cw, packet)) && (cw.packets != [] ==> Sound(cw) && AllDataSent(wire, cw))
    ensures AllDataSent(wire + [DataDatagram(Grown(cw, packet), |cw.packets|)], Grown(cw, packet))
  {
    hide SerializeHeader;
    var r := Grown(cw, packet);
    forall i | 0 <= i < |r.packets| ensures DataDatagram(r, i) in wire + [DataDatagram(r, |cw.packets|)] {
      if i < |cw.packets| { assert DataDatagram(r, i) == DataDatagram(cw, i); }
    }
  }

  lemma DataSentKeeps(g: Ledger, l: nat, packet: Bytes)
    requires Balanced(g) && Numbered(g) && l < |g.open| && Sound(Grown(g.open[l], packet))
    ensures Balanced(DataSent(g, l, packet)) && Numbered(DataSent(g, l, packet))
  {
    hide SerializeHeader, Sound, DataFor, SentFor, AllDataSent, Explained, DataDatagram;
    var r := DataSent(g, l, packet);
    var cw := r.open[l];
    var d := DataDatagram(cw, |cw.packets| - 1);
    AllDataGrows(g.wire, g.open[l], packet);
    forall k | 0 <= k < |r.closed| ensures Sound(r.closed[k]) && AllDataSent(r.wire, r.closed[k]) {
      AllDataStaysSent(g.wire, [d], g.closed[k]);
    }
    forall m | 0 <= m < |r.open| && r.open[m].packets != [] ensures Sound(r.open[m]) && AllDataSent(r.wire, r.open[m]) {
      if m != l { AllDataStaysSent(g.wire, [d], g.open[m]); }
    }
    forall x | x in r.wire ensures Explained(r, x) {
      if x in g.wire { ExplainedAfterData(g, l, packet, x); } else { NewIsExplained(g, l, packet); }
    }
  }

  lemma NewIsExplained(g: Ledger, l: nat, packet: Bytes)
    requires l < |g.open| && Sound(Grown(g.open[l], packet))
    ensures Explained(DataSent(g, l, packet), DataDatagram(Grown(g.open[l], packet), |g.open[l].packets|))
  {
    hide Sound, DataDatagram;
    var r := DataSent(g, l, packet);
    assert DataFor(r.open[l], DataDatagram(Grown(g.open[l], packet), |g.open[l].packets|));
  }

  lemma ExplainedAfterClosing(g: Ledger, l: nat, rows: nat, d: Bytes)
    requires l < |g.open| && Sound(g.open[l]) && rows <= g.open[l].parityCount
    requires Explained(g, d) || d in Datagrams(g.open[l], rows)
    ensures Explained(BlockClosed(g, l, rows), d)
  {
    hide DataFor, Datagram;
    var r := BlockClosed(g, l, rows);
    assert r.closed[|g.closed|] == g.open[l];
    if k :| 0 <= k < |g.closed| && Sound(g.closed[k]) && SentFor(g.closed[k], d) {
      assert Sound(r.closed[k]) && SentFor(r.closed[k], d);
    } else if m :| 0 <= m < |g.open| && Sound(g.open[m]) && DataFor(g.open[m], d) {
      if m == l {
        assert SentFor(r.closed[|g.closed|], d);
      } else {
        assert Sound(r.open[m]) && DataFor(r.open[m], d);
      }
    } else {
      var row :| 0 <= row < rows && d == Datagrams(g.open[l], rows)[row];
      assert d == Datagram(g.open[l], row);
      assert SentFor(r.closed[|g.closed|], d);
    }
  }

  lemma BlockClosedKeeps(g: Ledger, l: nat, rows: nat)
    requires Balanced(g) && Numbered(g) && l < |g.open| && g.open[l].packets != []
    requires Sound(g.open[l]) && rows <= g.open[l].parityCount
    ensures Balanced(BlockClosed(g, l, rows)) && Numbered(BlockClosed(g, l, rows))
  {
    hide Sound, SentFor, AllDataSent, Explained, Datagrams;
    var r := BlockClosed(g, l, rows);
    var more := r.wire[|g.wire|..];
    assert r.wire == g.wire + more;
    forall k | 0 <= k < |r.closed| ensures Sound(r.closed[k]) && AllDataSent(r.wire, r.closed[k]) {
      AllDataStaysSent(g.wire, more, r.closed[k]);
    }
    forall m | 0 <= m < |r.open| && r.open[m].packets != [] ensures Sound(r.open[m]) && AllDataSent(r.wire, r.open[m]) {
      AllDataStaysSent(g.wire, more, g.open[m]);
    }
    forall x | x in r.wire ensures Explained(r, x) {
      ExplainedAfterClosing(g, l, rows, x);
    }
    NextId(g.issued);
  }

  /** The open blocks of the first `k` lanes are closed, lane by lane, those without a packet skipped. */
  ghost function AllClosed(g: Ledger, rows: seq<nat>, k: nat): (r: Ledger)
    requires k <= |g.open| == |rows| && Closable(g, rows)
    ensures |r.open| == |g.open| && forall l :: k <= l < |g.open| ==> r.open[l] == g.open[l]
  {
    hide Sound;
    if k == 0 then g
    else
      var r := AllClosed(g, rows, k - 1);
      if g.open[k - 1].packets == [] then r else BlockClosed(r, k - 1, rows[k - 1])
  }

  ghost predicate Closable(g: Ledger, rows: seq<nat>)
  {
    && |g.open| == |rows|
    && forall l :: 0 <= l < |rows| && g.open[l].packets != [] ==> Sound(g.open[l]) && rows[l] <= g.open[l].parityCount
  }

  /** The open blocks of an encoder's lanes. */
  ghost function OpenWords(lanes: seq<Lane>, open: seq<seq<Bytes>>, plan: Plan): (r: seq<Codeword>)
    requires |lanes| == |open|
    ensures |r| == |lanes|
  {
    seq(|lanes|, l requires 0 <= l < |lanes| => Codeword(lanes[l].blockId, plan.data, plan.parity, open[l]))
  }

  /** How many parity symbols each lane sends when it is flushed. */
  function RowsFor(plan: Plan, needed: seq<nat>): (rows: seq<nat>)
    ensures |rows| == |needed|
  {
    seq(|needed|, l requires 0 <= l < |needed| => RowCount(plan, needed[l]))
  }

  function RowCount(plan: Plan, needed: nat): (rows: nat)
  {
    if plan.lossy then needed else plan.parity
  }

  function Emptied(open: seq<seq<Bytes>>, k: nat): (r: seq<seq<Bytes>>)
    requires k <= |open|
    ensures |r| == |open|
  {
    seq(k, _ => []) + open[k..]
  }

  lemma FlushableIsClosable(lanes: seq<Lane>, open: seq<seq<Bytes>>, plan: Plan, needed: seq<nat>, g: Ledger)
    requires Flushable(lanes, open, plan, needed) && plan.Active() && g.open == OpenWords(lanes, open, plan)
    ensures Closable(g, RowsFor(plan, needed))
  {
    hide ParityRow, Width;
    forall l | 0 <= l < |open| && open[l] != [] ensures Sound(g.open[l]) {
      assert Accumulates(lanes[l], open[l], plan);
    }
  }

  /** A flush closes the open blocks of the lanes, one after the other. */
  lemma {:induction false} FlushClosesAll(lanes: seq<Lane>, open: seq<seq<Bytes>>, plan: Plan, needed: seq<nat>,
                                          next: nat, g: Ledger, k: nat)
    requires Flushable(lanes, open, plan, needed) && k <= |lanes|
    requires g.open == OpenWords(lanes, open, plan) && Closable(g, RowsFor(plan, needed)) && next == g.issued % TWO_32
    ensures var r := AllClosed(g, RowsFor(plan, needed), k);
            && r.wire == g.wire + Flushed(lanes, open, plan, needed, k)
            && r.open == OpenWords(Reopened(lanes, next, plan.parity, k), Emptied(open, k), plan)
            && r.issued == g.issued + Busy(lanes, k)
  {
    hide Accumulates, Datagrams, Flushed, Reopened, Busy, OpenWords, Sound, Emptied, BlockClosed;
    var rows := RowsFor(plan, needed);
    if k == 0 {
      FlushStart(lanes, open, plan, needed, next);
      assert Emptied(open, 0) == open by { EmptiedStep(open, 0); }
      assert g.wire + [] == g.wire;
    } else {
      var before := AllClosed(g, rows, k - 1);
      FlushClosesAll(lanes, open, plan, needed, next, g, k - 1);
      FlushStep(lanes, open, plan, needed, next, k - 1);
      WrapLater(g.issued, Busy(lanes, k - 1));
      EmptiedStep(open, k);
      WordAt(lanes, open, plan, k - 1);
      if open[k - 1] == [] {
        assert Flushed(lanes, open, plan, needed, k - 1) + [] == Flushed(lanes, open, plan, needed, k - 1);
      } else {
        assert rows[k - 1] <= plan.parity by { assert needed[k - 1] <= plan.parity; }
        CloseStep(before, Reopened(lanes, next, plan.parity, k - 1), Emptied(open, k - 1), plan, k - 1,
                  (next + Busy(lanes, k - 1)) % TWO_32, rows[k - 1], g.wire, Flushed(lanes, open, plan, needed, k - 1));
      }
    }
  }

  lemma EmptiedStep(open: seq<seq<Bytes>>, k: nat)
    requires k <= |open|
    ensures k == 0 ==> Emptied(open, k) == open
    ensures k > 0 ==> Emptied(open, k) == Emptied(open, k - 1)[k - 1 := []]
    ensures k > 0 && open[k - 1] == [] ==> Emptied(open, k) == Emptied(open, k - 1)
  {
  }

  /** Closing the block of lane `l` is what opening its next block makes of the lanes. */
  lemma CloseStep(g: Ledger, lanes: seq<Lane>, open: seq<seq<Bytes>>, plan: Plan, l: nat, next: nat, rows: nat,
                  a: seq<Bytes>, b: seq<Bytes>)
    requires l < |lanes| == |open| && g.open == OpenWords(lanes, open, plan) && next == g.issued % TWO_32
    requires Sound(g.open[l]) && rows <= plan.parity && g.wire == a + b
    ensures g.open[l].parityCount == plan.parity
    ensures var r := BlockClosed(g, l, rows);
            && r.open == OpenWords(lanes[l := Reset(next, plan.parity)], open[l := []], plan)
            && r.issued == g.issued + 1 && r.wire == a + (b + Datagrams(g.open[l], rows))
  {
    hide Datagrams, OpenWords;
    WordAt(lanes, open, plan, l);
    SetWord(lanes, open, plan, l, Reset(next, plan.parity), []);
    assert (a + b) + Datagrams(g.open[l], rows) == a + (b + Datagrams(g.open[l], rows));
  }

  /** Sending a packet is what adding it makes of its lane. */
  lemma DataStep(g: Ledger, lanes: seq<Lane>, open: seq<seq<Bytes>>, plan: Plan, l: nat, lane: Lane, packet: Bytes)
    requires l < |lanes| == |open| && g.open == OpenWords(lanes, open, plan) && lane.blockId == lanes[l].blockId
    requires Sound(Grown(g.open[l], packet))
    ensures DataSent(g, l, packet).open == OpenWords(lanes[l := lane], open[l := open[l] + [packet]], plan)
  {
    hide OpenWords;
    WordAt(lanes, open, plan, l);
    SetWord(lanes, open, plan, l, lane, open[l] + [packet]);
  }

  lemma WrapLater(x: nat, y: nat)
    ensures (x % TWO_32 + y) % TWO_32 == (x + y) % TWO_32
  {
  }

  lemma SetWord(lanes: seq<Lane>, open: seq<seq<Bytes>>, plan: Plan, l: nat, lane: Lane, packets: seq<Bytes>)
    requires l < |lanes| == |open|
    ensures OpenWords(lanes[l := lane], open[l := packets], plan)
         == OpenWords(lanes, open, plan)[l := Codeword(lane.blockId, plan.data, plan.parity, packets)]
  {
  }

  lemma {:induction false} AllClosedKeeps(g: Ledger, rows: seq<nat>, k: nat)
    requires k <= |g.open| == |rows| && Closable(g, rows) && Balanced(g) && Numbered(g)
    ensures Balanced(AllClosed(g, rows, k)) && Numbered(AllClosed(g, rows, k))
  {
    hide Sound, Balanced, Numbered;
    if k > 0 {
      AllClosedKeeps(g, rows, k - 1);
      if g.open[k - 1].packets != [] { BlockClosedKeeps(AllClosed(g, rows, k - 1), k - 1, rows[k - 1]); }
    }
  }

  lemma GrownIsSound(lane: Lane, packets: seq<Bytes>, plan: Plan, packet: Bytes)
    requires Accumulates(lane, packets, plan) && plan.Active() && |packet| <= 65535
    ensures Sound(Codeword(lane.blockId, plan.data, plan.parity, packets + [packet]))
  {
    hide ParityRow, Width;
  }

  /** The sending side of one peer: every sealed packet goes out behind its header, every block's parity behind the
      packet that fills it or when the lanes are flushed. */
  class Sender {
    var encoder: FecEncoder
    ghost var ledger: Ledger

    ghost predicate Valid()
      reads this, encoder, encoder.tables, encoder.tables.exp, encoder.tables.log, encoder.tables.product,
            encoder.tables.nibbles
    {
      && encoder.Valid() && Balanced(ledger) && Numbered(ledger)
      && ledger.open == OpenWords(encoder.lanes, encoder.open, encoder.plan)
      && encoder.nextBlock == ledger.issued % TWO_32
      && (!encoder.plan.Active() ==> forall l :: 0 <= l < MAXIMUM_LANES ==> encoder.open[l] == [])
    }

    constructor (t: Tables, vector: nat, p: Plan)
      requires t.Valid()
      ensures Valid() && encoder.plan == Clamped(p) && ledger.wire == [] && ledger.closed == []
      ensures fresh(encoder) && encoder.tables == t
    {
      encoder := new FecEncoder(t, vector, p);
      new;
      ledger := Ledger([], [], OpenWords(encoder.lanes, encoder.open, encoder.plan), MAXIMUM_LANES);
    }

    /** Sends a sealed packet. With an active plan it goes out as the next data symbol of the lane under the cursor,
        followed by the parity of the block if it fills it. */
    method Transmit(sealed: Bytes) returns (sent: seq<Bytes>)
      requires Valid() && |sealed| <= 65535
      modifies this`ledger, encoder
      ensures Valid() && encoder == old(encoder) && encoder.plan == old(encoder.plan)
      ensures !encoder.plan.Active() ==> sent == [sealed] && ledger == old(ledger)
      ensures encoder.plan.Active() ==>
                var g, l := old(ledger), old(encoder.cursor);
                && Sound(Grown(g.open[l], sealed)) && ledger.wire == g.wire + sent
                && ledger == if |g.open[l].packets| + 1 < encoder.plan.data then DataSent(g, l, sealed)
                             else BlockClosed(DataSent(g, l, sealed), l, encoder.plan.parity)
    {
      hide Tables.Valid, Accumulates, Balanced, Numbered, DataDatagram, Datagrams, OpenWords, Sound;
      if !encoder.plan.Active() { return [sealed]; }
      ghost var g, l := ledger, encoder.cursor;
      ghost var lanes, open, plan := encoder.lanes, encoder.open, encoder.plan;
      WordAt(lanes, open, plan, l);
      GrownIsSound(lanes[l], open[l], plan, sealed);
      ghost var lane;
      sent, lane := Encode(sealed);
      ledger := AfterAdding(g, lanes, open, plan, l, sealed, lane);
      WrapLater(g.issued, 1);
    }

    /** The header and the packet, then whatever the encoder answers. */
    method Encode(sealed: Bytes) returns (sent: seq<Bytes>, ghost lane: Lane)
      requires encoder.Valid() && encoder.plan.Active() && |sealed| <= 65535
      modifies encoder
      ensures encoder.Valid() && encoder.plan == old(encoder.plan)
      ensures var l, lanes, open := old(encoder.cursor), old(encoder.lanes), old(encoder.open);
              var cw := Codeword(lanes[l].blockId, encoder.plan.data, encoder.plan.parity, open[l] + [sealed]);
              && Sound(cw) && encoder.lanes == lanes[l := lane]
              && if |open[l]| + 1 < encoder.plan.data then
                   && encoder.open == open[l := open[l] + [sealed]] && lane.blockId == lanes[l].blockId
                   && encoder.nextBlock == old(encoder.nextBlock) && sent == [DataDatagram(cw, |open[l]|)]
                 else
                   && |open[l]| + 1 == encoder.plan.data
                   && encoder.open == open[l := []] && lane == Reset(old(encoder.nextBlock), encoder.plan.parity)
                   && encoder.nextBlock == (old(encoder.nextBlock) + 1) % TWO_32
                   && sent == [DataDatagram(cw, |open[l]|)] + Datagrams(cw, encoder.plan.parity)
    {
      hide Tables.Valid, SerializeHeader, DataDatagram, Datagrams, ParityRow, Width;
      ghost var l, lanes, open, plan := encoder.cursor, encoder.lanes, encoder.open, encoder.plan;
      GrownIsSound(lanes[l], open[l], plan, sealed);
      var h := encoder.NextHeader(|sealed|);
      DatagramIs(encoder.Word(l, open[l]), sealed, h);
      var parity := encoder.Add(sealed);
      lane := encoder.lanes[l];
      assert encoder.lanes == lanes[l := lane] && encoder.open == open[l := encoder.open[l]];
      sent := [SerializeHeader(h) + sealed] + parity;
    }

    /** Closes every open block; `needed[l]` parity symbols of lane `l` where the plan has a loss estimate. */
    method Flush(needed: seq<nat>) returns (sent: seq<Bytes>)
      requires Valid() && |needed| == MAXIMUM_LANES
      requires forall l :: 0 <= l < MAXIMUM_LANES ==> needed[l] <= encoder.plan.parity
      modifies this`ledger, encoder
      ensures Valid() && encoder == old(encoder) && encoder.plan == old(encoder.plan)
      ensures forall l :: 0 <= l < MAXIMUM_LANES ==> encoder.open[l] == []
      ensures ledger.wire == old(ledger.wire) + sent
      ensures !encoder.plan.Active() ==> ledger == old(ledger)
      ensures encoder.plan.Active() ==>
                && Closable(old(ledger), RowsFor(encoder.plan, needed))
                && ledger == AllClosed(old(ledger), RowsFor(encoder.plan, needed), encoder.plan.lanes)
    {
      hide Tables.Valid, Accumulates, Balanced, Numbered, OpenWords, Sound, Flushed, Reopened, Busy, AllClosed,
        Closable, RowsFor;
      ghost var g := ledger;
      ghost var lanes, open, plan, next := encoder.lanes, encoder.open, encoder.plan, encoder.nextBlock;
      sent := encoder.Flush(needed);
      if !encoder.plan.Active() {
        assert g.wire + [] == g.wire;
        return;
      }
      FlushableIsClosable(lanes, open, plan, needed, g);
      FlushClosesAll(lanes, open, plan, needed, next, g, plan.lanes);
      ledger := AllClosed(g, RowsFor(plan, needed), plan.lanes);
      AllClosedKeeps(g, RowsFor(plan, needed), plan.lanes);
      WrapLater(g.issued, Busy(lanes, plan.lanes));
      assert Emptied(open, plan.lanes) == encoder.open;
    }

    /** Adopts a new plan: the open blocks are closed and a new encoder goes on with the ids after theirs. */
    method Replan(vector: nat, p: Plan, needed: seq<nat>) returns (sent: seq<Bytes>)
      requires Valid() && |needed| == MAXIMUM_LANES
      requires forall l :: 0 <= l < MAXIMUM_LANES ==> needed[l] <= encoder.plan.parity
      modifies this, encoder
      ensures Valid() && fresh(encoder) && encoder.plan == Clamped(p) && encoder.tables == old(encoder.tables)
      ensures ledger.wire == old(ledger.wire) + sent
      ensures old(encoder.plan.Active()) ==>
                && Closable(old(ledger), RowsFor(old(encoder.plan), needed))
                && var rows, lanes := RowsFor(old(encoder.plan), needed), old(encoder.plan.lanes);
                   ledger.closed == AllClosed(old(ledger), rows, lanes).closed
      ensures !old(encoder.plan.Active()) ==> ledger.closed == old(ledger.closed)
    {
      hide Tables.Valid, Accumulates, Balanced, Numbered, OpenWords, Sound, AllClosed, Closable, RowsFor, Renumbered,
        Idle;
      sent := Flush(needed);
      ghost var g := ledger;
      var next := encoder.nextBlock;
      EmptyWords(encoder.lanes, encoder.open, encoder.plan);
      encoder := new FecEncoder(encoder.tables, vector, p);
      ghost var lanes := encoder.lanes;
      encoder.ResumeAt(next);
      AllIdle(lanes, next, MAXIMUM_LANES);
      ledger := g.(open := OpenWords(encoder.lanes, encoder.open, encoder.plan), issued := g.issued + MAXIMUM_LANES);
      Renewed(g, encoder.lanes, encoder.open, encoder.plan);
      WrapLater(g.issued, MAXIMUM_LANES);
    }
  }

  lemma EmptyWords(lanes: seq<Lane>, open: seq<seq<Bytes>>, plan: Plan)
    requires |lanes| == |open| && forall l :: 0 <= l < |open| ==> open[l] == []
    ensures forall l :: 0 <= l < |open| ==> OpenWords(lanes, open, plan)[l].packets == []
  {
  }

  lemma {:induction false} AllIdle(lanes: seq<Lane>, next: nat, k: nat)
    requires k <= |lanes| && forall l :: 0 <= l < |lanes| ==> lanes[l].index == 0
    ensures Idle(lanes, k) == k
    ensures forall l :: 0 <= l < k ==> Renumbered(lanes, next, k)[l].blockId == (next + l) % TWO_32
  {
    if k > 0 { AllIdle(lanes, next, k - 1); }
  }

  /** Giving empty lanes new ids keeps the ledger. */
  lemma Renewed(g: Ledger, lanes: seq<Lane>, open: seq<seq<Bytes>>, plan: Plan)
    requires Balanced(g) && Numbered(g) && forall l :: 0 <= l < |g.open| ==> g.open[l].packets == []
    requires |lanes| == |open| && forall l :: 0 <= l < |open| ==> open[l] == []
    requires forall l :: 0 <= l < |lanes| ==> lanes[l].blockId == (g.issued % TWO_32 + l) % TWO_32
    ensures var r := g.(open := OpenWords(lanes, open, plan), issued := g.issued + |lanes|);
            Balanced(r) && Numbered(r)
  {
    hide Sound, SentFor, AllDataSent;
    var r := g.(open := OpenWords(lanes, open, plan), issued := g.issued + |lanes|);
    forall d | d in r.wire ensures Explained(r, d) {
      assert Explained(g, d);
      NoDataWithoutPackets(g, d);
      var k :| 0 <= k < |g.closed| && Sound(g.closed[k]) && SentFor(g.closed[k], d);
      assert Sound(r.closed[k]) && SentFor(r.closed[k], d);
    }
    if r.issued <= TWO_32 {
      forall l | 0 <= l < |lanes| ensures r.open[l].id == g.issued + l {
        IdBelow(g.issued, l);
      }
    }
  }

  lemma IdBelow(issued: nat, l: nat)
    requires issued + l < TWO_32
    ensures (issued % TWO_32 + l) % TWO_32 == issued + l
  {
  }

  lemma NoDataWithoutPackets(g: Ledger, d: Bytes)
    requires Explained(g, d) && forall l :: 0 <= l < |g.open| ==> g.open[l].packets == []
    ensures exists k :: 0 <= k < |g.closed| && Sound(g.closed[k]) && SentFor(g.closed[k], d)
  {
  }

  /** What adding a packet to lane `l` makes of the ledger. */
  lemma AfterAdding(g: Ledger, lanes: seq<Lane>, open: seq<seq<Bytes>>, plan: Plan, l: nat, packet: Bytes, lane: Lane)
      returns (r: Ledger)
    requires Balanced(g) && Numbered(g) && l < |lanes| == |open| && g.open == OpenWords(lanes, open, plan)
    requires Sound(Grown(g.open[l], packet)) && Accumulates(lanes[l], open[l], plan) && plan.Active()
    requires |open[l]| + 1 < plan.data ==> lane.blockId == lanes[l].blockId
    requires |open[l]| + 1 == plan.data ==> lane == Reset(g.issued % TWO_32, plan.parity)
    ensures Balanced(r) && Numbered(r) && |g.open[l].packets| == |open[l]|
    ensures var d := DataDatagram(Grown(g.open[l], packet), |open[l]|);
            if |open[l]| + 1 < plan.data then
              && r == DataSent(g, l, packet) && r.wire == g.wire + [d] && r.issued == g.issued
              && r.open == OpenWords(lanes[l := lane], open[l := open[l] + [packet]], plan)
            else
              && |open[l]| + 1 == plan.data && r.issued == g.issued + 1
              && plan.parity == DataSent(g, l, packet).open[l].parityCount <= MAXIMUM_PARITY
              && r == BlockClosed(DataSent(g, l, packet), l, plan.parity)
              && r.wire == g.wire + ([d] + Datagrams(Grown(g.open[l], packet), plan.parity))
              && r.open == OpenWords(lanes[l := lane], open[l := []], plan)
  {
    hide Balanced, Numbered, DataDatagram, Datagrams, OpenWords, ParityRow, Width;
    WordAt(lanes, open, plan, l);
    DataSentKeeps(g, l, packet);
    DataStep(g, lanes, open, plan, l, lanes[l], packet);
    DataStep(g, lanes, open, plan, l, lane.(blockId := lanes[l].blockId), packet);
    r := DataSent(g, l, packet);
    var d := DataDatagram(Grown(g.open[l], packet), |open[l]|);
    if |open[l]| + 1 == plan.data {
      var packets := open[l := open[l] + [packet]];
      assert lanes[l := lanes[l]] == lanes && packets[l := []] == open[l := []];
      CloseStep(r, lanes, packets, plan, l, g.issued % TWO_32, plan.parity, g.wire, [d]);
      BlockClosedKeeps(r, l, plan.parity);
      r := BlockClosed(r, l, plan.parity);
    }
  }

  lemma WordAt(lanes: seq<Lane>, open: seq<seq<Bytes>>, plan: Plan, l: nat)
    requires l < |lanes| == |open|
    ensures OpenWords(lanes, open, plan)[l] == Codeword(lanes[l].blockId, plan.data, plan.parity, open[l])
  {
  }

  lemma DatagramIs(cw: Codeword, packet: Bytes, h: Header)
    requires Sound(Grown(cw, packet)) && h == DataHeader(Grown(cw, packet), |cw.packets|)
    ensures Encodable(h) && DataDatagram(Grown(cw, packet), |cw.packets|) == SerializeHeader(h) + packet
  {
    hide SerializeHeader;
  }

  // ----- from end to end -----

  /** Any of the symbols sent to a peer, in any order, any of them lost or repeated, as the peer's decoder reads them,
      with expiry passes in between. */
  ghost predicate Received(wire: seq<Bytes>, ds: seq<Bytes>, es: seq<Event>)
  {
    && |ds| == |es|
    && forall k :: 0 <= k < |ds| ==>
         es[k].Expire? || (ds[k] in wire && ParseHeader(ds[k]).Some? && es[k] == Read(ds[k], es[k].now))
  }

  /** Everything sent is read as a symbol, and a symbol with a closed block's id is one of that block. */
  lemma SymbolOfItsBlock(g: Ledger, b: nat, d: Bytes, now: int)
    requires Balanced(g) && Numbered(g) && g.issued <= TWO_32 && b < |g.closed| && d in g.wire
    ensures ParseHeader(d).Some? && Acceptable(Read(d, now)) && Genuine(g.closed[b], Read(d, now))
  {
    hide Sound, SentFor, Genuine, Acceptable, AllDataSent, ParseHeader, DataFor;
    assert Explained(g, d);
    if k :| 0 <= k < |g.closed| && Sound(g.closed[k]) && SentFor(g.closed[k], d) {
      SentIsGenuine(g.closed[k], d, now);
      if k != b { OtherIsGenuine(g.closed[b], g.closed[k], Read(d, now)); }
    } else {
      var l :| 0 <= l < |g.open| && Sound(g.open[l]) && DataFor(g.open[l], d);
      assert SentFor(g.open[l], d) by { DataIsSent(g.open[l], d); }
      SentIsGenuine(g.open[l], d, now);
      OtherIsGenuine(g.closed[b], g.open[l], Read(d, now));
    }
  }

  lemma DataIsSent(cw: Codeword, d: Bytes)
    requires Sound(cw) && DataFor(cw, d)
    ensures SentFor(cw, d)
  {
    hide Sound, DataFor;
  }

  lemma OtherIsGenuine(cw: Codeword, other: Codeword, e: Event)
    requires Sound(cw) && Concerns(other, e) && cw.id != other.id
    ensures Genuine(cw, e)
  {
  }

  /** Whatever a sender has sent by any run of packets, flushes and changes of plan reaches a fresh decoder somehow. If,
      from a block's first symbol to its last, symbols of at most 127 other blocks arrive and no expiry pass comes a
      deadline after the first, then once there are as many different symbols of the block as it has packets, a parity
      symbol among them, the decoder returns packets of it exactly once; with exactly that many symbols they are the
      packets that did not arrive, whole and in order. */
  lemma SentBlockIsRecovered(s: Sender, b: nat, ds: seq<Bytes>, es: seq<Event>, universe: set<nat>)
      returns (k: nat)
    requires s.Valid() && s.ledger.issued <= TWO_32 && b < |s.ledger.closed|
    requires Received(s.ledger.wire, ds, es)
    requires var cw := s.ledger.closed[b];
             forall i :: 0 <= i < |es| && Concerns(cw, es[i]) ==> Steady(cw, universe, es, i)
    requires var cw := s.ledger.closed[b];
             var all := SeenAfter(cw, NOTHING, es, |es|);
             all.parity != {} && |all.data| + |all.parity| >= |cw.packets|
    ensures var cw := s.ledger.closed[b];
            var outputs, all := Outputs(State([], [], Stats(0, 0, 0, 0)), es), SeenAfter(cw, NOTHING, es, |es|);
            && Sound(cw) && AllGenuine(cw, es) && k < |es| && Concerns(cw, es[k])
            && (forall j :: 0 <= j < |es| && j != k && Concerns(cw, es[j]) ==> outputs[j] == [])
            && outputs[k] == NonEmpty(Selected(cw, Absent(SeenAfter(cw, NOTHING, es, k + 1).data, |cw.packets|)))
            && (|all.data| + |all.parity| == |cw.packets| ==>
                  outputs[k] == NonEmpty(Selected(cw, Absent(all.data, |cw.packets|))))
  {
    hide Outputs, SeenAfter, Genuine, Acceptable, ParseHeader, Absent, FecEncoder.Valid, OpenWords, Steady;
    var cw := s.ledger.closed[b];
    forall i | 0 <= i < |es| ensures Acceptable(es[i]) && Genuine(cw, es[i]) {
      if es[i].Expire? {
        ExpiryIsGenuine(cw, es[i]);
      } else {
        SymbolOfItsBlock(s.ledger, b, ds[i], es[i].now);
      }
    }
    k := RecoveredExactlyOnce(cw, universe, es);
  }

  lemma ExpiryIsGenuine(cw: Codeword, e: Event)
    requires Sound(cw) && e.Expire?
    ensures Acceptable(e) && Genuine(cw, e)
  {
  }
}
