/**
 What the decoder delivers over whole runs. For any sent block, whatever order its symbols arrive
 in and whatever symbols of other blocks are mixed in, the decoder returns the missing packets at
 the first moment enough symbols have arrived, exactly once, and nothing at any other moment.
 */
module FecDelivery {
  import opened Octets
  import opened GaloisField
  import opened GaloisTables
  import opened FecCode
  import opened FecRecovery
  import opened FecDecoder

  datatype Event = Symbol(h: Header, payload: Bytes, now: int) | Expire(now: int)

  ghost predicate Acceptable(e: Event)
  {
    e.Symbol? ==> Valid(e.h)
  }

  ghost function Step(s: State, e: Event): (r: (State, seq<Bytes>))
    requires WellFormedState(s) && Acceptable(e)
  {
    match e
    case Symbol(h, payload, now) => Received(s, h, payload, now)
    case Expire(now) => (Expired(s, now), [])
  }

  // ----- the reference behaviour -----

  /** Which symbols of one block have arrived. */
  datatype Seen = Seen(data: set<nat>, parity: set<nat>)

  const NOTHING := Seen({}, {})

  predicate Concerns(cw: Codeword, e: Event)
  {
    e.Symbol? && e.h.blockId == cw.id
  }

  /** Every symbol with the block's id is one the encoder sent for it. */
  ghost predicate Genuine(cw: Codeword, e: Event)
    requires Sound(cw)
  {
    Concerns(cw, e) ==>
      if e.h.parity then
        && e.h.index < cw.parityCount
        && e.h == ParityHeader(cw, e.h.index) && e.payload == ParitySymbol(cw, e.h.index)
      else
        && e.h.index < |cw.packets|
        && e.h == DataHeader(cw, e.h.index) && e.payload == cw.packets[e.h.index]
  }

  function See(cw: Codeword, seen: Seen, e: Event): (r: Seen)
  {
    if !Concerns(cw, e) then seen
    else if e.h.parity then seen.(parity := seen.parity + {e.h.index})
    else seen.(data := seen.data + {e.h.index})
  }

  /** Enough symbols to know every packet: as many symbols as packets, at least one of them parity
      to tell the true size, or simply all packets of a block that was not cut short. */
  predicate Sufficient(cw: Codeword, seen: Seen)
  {
    || (seen.parity != {} && |seen.data| + |seen.parity| >= |cw.packets|)
    || (cw.planned == |cw.packets| && |seen.data| == |cw.packets|)
  }

  /** The indices below `k` that did not arrive, ascending. */
  function Absent(data: set<nat>, k: nat): (r: seq<nat>)
    ensures Within(r, k)
  {
    if k == 0 then [] else Absent(data, k - 1) + if k - 1 in data then [] else [k - 1]
  }

  lemma {:induction false} AbsentIsExact(data: set<nat>, k: nat)
    ensures forall i :: i in Absent(data, k) <==> 0 <= i < k && i !in data
    ensures Ascending(Absent(data, k))
  {
    if k != 0 { AbsentIsExact(data, k - 1); }
  }

  /** What an ideal erasure decoder returns when one more symbol arrives. */
  ghost function Ideal(cw: Codeword, before: Seen, after: Seen): (r: seq<Bytes>)
  {
    if !Sufficient(cw, before) && Sufficient(cw, after)
    then NonEmpty(Selected(cw, Absent(after.data, |cw.packets|))) else []
  }

  // ----- invariants of the decoder -----

  ghost predicate UniqueIds(blocks: seq<Block>)
  {
    forall i, j :: 0 <= i < j < |blocks| ==> blocks[i].id != blocks[j].id
  }

  ghost predicate Consistent(s: State)
  {
    && WellFormedState(s)
    && UniqueIds(s.blocks) && |s.blocks| <= MAXIMUM_OUTSTANDING
    && forall i :: 0 <= i < |s.blocks| ==> s.blocks[i].id !in s.finished
  }

  /** The block mirrors exactly the symbols seen so far. */
  ghost predicate MirrorsSlots(b: Block, cw: Codeword, seen: Seen)
  {
    && Holds(b, cw)
    && (forall i :: i in seen.data ==> i < |cw.packets|)
    && (forall r :: r in seen.parity ==> r < cw.parityCount)
    && (forall i :: 0 <= i < b.dataCount ==> (b.data[i] != [] <==> i in seen.data))
    && (forall r :: 0 <= r < b.parityCount ==> (b.parity[r] != [] <==> r in seen.parity))
    && b.dataReceived == |seen.data|
  }

  function KnownSize(cw: Codeword, seen: Seen): (n: nat)
  {
    if seen.parity == {} then cw.planned else |cw.packets|
  }

  ghost predicate Mirrors(b: Block, cw: Codeword, seen: Seen)
  {
    MirrorsSlots(b, cw, seen) && b.dataCount == KnownSize(cw, seen)
  }

  ghost predicate Tracks(s: State, cw: Codeword, seen: Seen)
  {
    if Sufficient(cw, seen) then cw.id in s.finished
    else
      && cw.id !in s.finished
      && var i := IndexOf(s.blocks, cw.id);
         if seen == NOTHING then i == |s.blocks|
         else i < |s.blocks| && Mirrors(s.blocks[i], cw, seen)
  }

  // ----- counting slots -----

  ghost function Below(s: set<nat>, k: nat): (r: set<nat>)
  {
    set i | i in s && i < k
  }

  lemma {:induction false} SlotCounts(slots: seq<Bytes>, s: set<nat>, k: nat)
    requires k <= |slots|
    requires forall i :: 0 <= i < |slots| ==> (slots[i] != [] <==> i in s)
    ensures |Filled(slots, k)| == |Below(s, k)|
    ensures |Empty(slots, k)| == k - |Below(s, k)|
    ensures Empty(slots, k) == Absent(s, k)
  {
    hide Below;
    BelowStep(s, k);
    if k > 0 { SlotCounts(slots, s, k - 1); }
  }

  lemma BelowStep(s: set<nat>, k: nat)
    ensures k == 0 ==> Below(s, k) == {}
    ensures k > 0 ==> |Below(s, k)| == |Below(s, k - 1)| + if k - 1 in s then 1 else 0
  {
    if k > 0 {
      if k - 1 in s {
        assert Below(s, k) == Below(s, k - 1) + {k - 1};
      } else {
        assert Below(s, k) == Below(s, k - 1);
      }
    }
  }

  lemma BelowAll(s: set<nat>, k: nat)
    requires forall i :: i in s ==> i < k
    ensures Below(s, k) == s
  {
  }

  lemma {:induction false} BoundedSet(s: set<nat>, k: nat)
    requires forall i :: i in s ==> i < k
    ensures |s| <= k
    ensures |s| == k ==> forall i :: 0 <= i < k ==> i in s
  {
    if k == 0 {
      assert s == {};
    } else if k - 1 in s {
      BoundedSet(s - {k - 1}, k - 1);
    } else {
      BoundedSet(s, k - 1);
    }
  }

  lemma {:induction false} NoneFilled(slots: seq<Bytes>)
    requires forall i :: 0 <= i < |slots| ==> slots[i] == []
    ensures FilledCount(slots) == 0
  {
    if |slots| != 0 { NoneFilled(slots[1..]); }
  }

  lemma {:induction false} AbsentOfAll(data: set<nat>, k: nat)
    requires forall i :: 0 <= i < k ==> i in data
    ensures Absent(data, k) == []
  {
    if k != 0 { AbsentOfAll(data, k - 1); }
  }

  // ----- one symbol of the block -----

  lemma AddedElement(s: set<nat>, x: nat)
    ensures |s + {x}| == |s| + if x in s then 0 else 1
  {
    if x in s { assert s + {x} == s; }
  }

  lemma SeenGrows(cw: Codeword, seen: Seen, e: Event)
    requires Sufficient(cw, seen)
    requires Sound(cw) && Genuine(cw, e) && forall i :: i in seen.data ==> i < |cw.packets|
    ensures Sufficient(cw, See(cw, seen, e))
  {
    hide ParitySymbol, ParityHeader, DataHeader;
    if Concerns(cw, e) {
      AddedElement(seen.data, e.h.index);
      AddedElement(seen.parity, e.h.index);
      if !e.h.parity { BoundedSet(seen.data + {e.h.index}, |cw.packets|); }
    }
  }

  lemma ParityIsNonempty(cw: Codeword, row: nat)
    requires Sound(cw) && row < MAXIMUM_PARITY
    ensures ParitySymbol(cw, row) != []
  {
    assert |cw.packets[0]| >= 0;
    assert |ParitySymbol(cw, row)| == Width(cw.packets) > 0;
  }

  lemma TruncateMirrors(b: Block, cw: Codeword, seen: Seen)
    requires Sound(cw) && MirrorsSlots(b, cw, seen) && |cw.packets| <= b.dataCount
    ensures MirrorsSlots(Truncated(b, |cw.packets|), cw, seen)
    ensures Truncated(b, |cw.packets|).dataCount == |cw.packets|
    ensures Truncated(b, |cw.packets|).parity == b.parity
  {
    hide FecCode.Symbol, ParitySymbol;
    if |cw.packets| < b.dataCount { NoneFilled(b.data[|cw.packets|..]); }
  }

  lemma StoreParityMirrors(b: Block, cw: Codeword, seen: Seen, row: nat)
    requires Sound(cw) && MirrorsSlots(b, cw, seen) && b.dataCount == |cw.packets|
    requires row < cw.parityCount && row !in seen.parity
    ensures Mirrors(b.(parity := b.parity[row := ParitySymbol(cw, row)]), cw,
                    seen.(parity := seen.parity + {row}))
  {
    hide FecCode.Symbol, ParitySymbol;
    ParityIsNonempty(cw, row);
  }

  lemma StoreDataMirrors(b: Block, cw: Codeword, seen: Seen, i: nat)
    requires Sound(cw) && Mirrors(b, cw, seen) && i < |cw.packets| && i !in seen.data
    ensures i < b.dataCount
    ensures Mirrors(b.(data := b.data[i := FecCode.Symbol(cw.packets[i])], dataReceived := b.dataReceived + 1),
                    cw, seen.(data := seen.data + {i}))
  {
    hide ParitySymbol;
    AddedElement(seen.data, i);
  }

  lemma ParityMirrors(b: Block, cw: Codeword, seen: Seen, e: Event)
    requires Sound(cw) && Genuine(cw, e) && Concerns(cw, e) && Valid(e.h)
    requires MirrorsSlots(b, cw, seen)
    requires e.h.parity && (b.dataCount == KnownSize(cw, seen) || b.dataCount == |cw.packets|)
    ensures b.parityCount == e.h.parityCount
    ensures Mirrors(Stored(b, e.h, e.payload).0, cw, See(cw, seen, e))
    ensures !Stored(b, e.h, e.payload).1 ==> See(cw, seen, e) == seen
  {
    hide FecCode.Symbol, ParitySymbol, Truncated;
    TruncateMirrors(b, cw, seen);
    if e.h.index !in seen.parity {
      StoreParityMirrors(Truncated(b, |cw.packets|), cw, seen, e.h.index);
    } else {
      assert seen.parity + {e.h.index} == seen.parity;
    }
  }

  lemma DataMirrors(b: Block, cw: Codeword, seen: Seen, e: Event)
    requires Sound(cw) && Genuine(cw, e) && Concerns(cw, e) && Valid(e.h)
    requires MirrorsSlots(b, cw, seen)
    requires !e.h.parity && b.dataCount == KnownSize(cw, seen)
    ensures b.parityCount == e.h.parityCount
    ensures Mirrors(Stored(b, e.h, e.payload).0, cw, See(cw, seen, e))
    ensures !Stored(b, e.h, e.payload).1 ==> See(cw, seen, e) == seen
  {
    hide FecCode.Symbol, ParitySymbol, Truncated;
    if e.h.index !in seen.data {
      StoreDataMirrors(b, cw, seen, e.h.index);
    } else {
      assert seen.data + {e.h.index} == seen.data;
    }
  }

  /** Storing a symbol keeps the mirror; a parity symbol may also fix the size. */
  lemma StoreMirrors(b: Block, cw: Codeword, seen: Seen, e: Event)
    requires Sound(cw) && Genuine(cw, e) && Concerns(cw, e) && Valid(e.h)
    requires MirrorsSlots(b, cw, seen)
    requires b.dataCount == KnownSize(cw, seen) || (e.h.parity && b.dataCount == |cw.packets|)
    ensures b.parityCount == e.h.parityCount
    ensures Mirrors(Stored(b, e.h, e.payload).0, cw, See(cw, seen, e))
    ensures !Stored(b, e.h, e.payload).1 ==> See(cw, seen, e) == seen
  {
    hide Sound, Genuine, Valid, Mirrors, Stored, See;
    if e.h.parity { ParityMirrors(b, cw, seen, e); } else { DataMirrors(b, cw, seen, e); }
  }

  /** The counts the recovery code compares, in terms of the symbols seen. */
  lemma MirrorCounts(b: Block, cw: Codeword, seen: Seen)
    requires Sound(cw) && Mirrors(b, cw, seen)
    ensures |seen.data| <= |cw.packets| <= b.dataCount
    ensures |Filled(b.parity, b.parityCount)| == |seen.parity|
    ensures |Empty(b.data, b.dataCount)| == b.dataCount - |seen.data|
    ensures Empty(b.data, b.dataCount) == Absent(seen.data, b.dataCount)
  {
    hide FecCode.Symbol, ParitySymbol, Filled, Empty;
    BoundedSet(seen.data, |cw.packets|);
    SlotCounts(b.data, seen.data, b.dataCount);
    SlotCounts(b.parity, seen.parity, b.parityCount);
    BelowAll(seen.data, b.dataCount);
    BelowAll(seen.parity, b.parityCount);
  }

  /** What the decoder does with a block after storing a symbol is what the ideal decoder does. */
  lemma OutcomeIsIdeal(s: State, b: Block, cw: Codeword, before: Seen, after: Seen)
    requires Sound(cw) && Mirrors(b, cw, after) && !Sufficient(cw, before)
    ensures b.dataReceived == b.dataCount ==> Sufficient(cw, after) && Ideal(cw, before, after) == []
    ensures b.dataReceived != b.dataCount ==>
              && (Solve(b).Some? <==> Sufficient(cw, after))
              && Recovered(s, b).1 == Ideal(cw, before, after)
  {
    hide FecCode.Symbol, ParitySymbol, Packets, Rejects, Filled, Empty, Absent, Holds;
    MirrorCounts(b, cw, after);
    if b.dataReceived == b.dataCount {
      BoundedSet(after.data, |cw.packets|);
      AbsentOfAll(after.data, |cw.packets|);
    } else if Sufficient(cw, after) {
      hide Solve;
      RecoversAllMissing(b, cw);
    }
  }

  lemma FreshMirrors(cw: Codeword, e: Event)
    requires Sound(cw) && Genuine(cw, e) && Concerns(cw, e) && Valid(e.h)
    ensures MirrorsSlots(FreshBlock(e.h, e.now), cw, NOTHING)
    ensures FreshBlock(e.h, e.now).dataCount == if e.h.parity then |cw.packets| else cw.planned
  {
    hide FecCode.Symbol, ParitySymbol;
  }

  lemma IndexIsUnique(blocks: seq<Block>, i: nat, id: nat)
    requires i < |blocks| && blocks[i].id == id
    requires forall j :: 0 <= j < i ==> blocks[j].id != id
    ensures IndexOf(blocks, id) == i
  {
    hide IndexOf;
    var k := IndexOf(blocks, id);
    if k < i {} else if k > i {}
  }

  /** The block the decoder stores the symbol in, for a block that is still being tracked. */
  lemma OpenedMirrors(s: State, cw: Codeword, seen: Seen, e: Event)
    requires Sound(cw) && Genuine(cw, e) && Concerns(cw, e) && Valid(e.h)
    requires Tracks(s, cw, seen) && !Sufficient(cw, seen)
    ensures var o := Opened(s, e.h, e.now); var i := IndexOf(o.blocks, cw.id);
            && i < |o.blocks| && o.finished == s.finished
            && MirrorsSlots(o.blocks[i], cw, seen)
            && (o.blocks[i].dataCount == KnownSize(cw, seen)
                || (e.h.parity && o.blocks[i].dataCount == |cw.packets|))
  {
    hide FecCode.Symbol, ParitySymbol, IndexOf, MirrorsSlots;
    if seen == NOTHING {
      var o := Opened(s, e.h, e.now);
      assert o.blocks[|o.blocks| - 1] == FreshBlock(e.h, e.now);
      IndexIsUnique(o.blocks, |o.blocks| - 1, cw.id);
      FreshMirrors(cw, e);
    }
  }

  /** On the block's own symbols the decoder is the ideal erasure decoder. */
  lemma OwnStep(s: State, cw: Codeword, seen: Seen, e: Event)
    requires Sound(cw) && Genuine(cw, e) && Concerns(cw, e) && Acceptable(e)
    requires Consistent(s) && Tracks(s, cw, seen)
    requires forall i :: i in seen.data ==> i < |cw.packets|
    ensures var (s', out) := Step(s, e);
            && Tracks(s', cw, See(cw, seen, e))
            && out == Ideal(cw, seen, See(cw, seen, e))
  {
    hide FecCode.Symbol, ParitySymbol, IndexOf, Mirrors, MirrorsSlots, Solve, Packets, Rejects,
         Stored, Ideal, Sufficient, Without;
    var after := See(cw, seen, e);
    if Sufficient(cw, seen) {
      SeenGrows(cw, seen, e);
      IdealIsSilent(cw, seen, after);
    } else {
      var s1 := s.(stats := s.stats.(symbolsReceived := s.stats.symbolsReceived + 1));
      OpenedMirrors(s1, cw, seen, e);
      var o := Opened(s1, e.h, e.now);
      var i := IndexOf(o.blocks, cw.id);
      assert o.blocks[i].parityCount == e.h.parityCount by { StoreMirrors(o.blocks[i], cw, seen, e); }
      assert WellFormed(o.blocks[i]) by { MirrorIsWellFormed(o.blocks[i], cw, seen); }
      StoreMirrors(o.blocks[i], cw, seen, e);
      StoredIsWellFormed(o.blocks[i], e.h, e.payload);
      var (b, isNew) := Stored(o.blocks[i], e.h, e.payload);
      var s3 := o.(blocks := o.blocks[i := b]);
      IndexIsUnique(s3.blocks, i, cw.id);
      OutcomeIsIdeal(s3, b, cw, seen, after);
      IdealIsSilent(cw, seen, after);
      FinishedRemembers(s3, cw.id);
      SeenIsSomething(cw, seen, e);
    }
  }

  lemma MirrorIsWellFormed(b: Block, cw: Codeword, seen: Seen)
    requires MirrorsSlots(b, cw, seen)
    ensures WellFormed(b) && b.id == cw.id
  {
  }

  lemma IdealIsSilent(cw: Codeword, before: Seen, after: Seen)
    ensures Sufficient(cw, before) || !Sufficient(cw, after) ==> Ideal(cw, before, after) == []
  {
  }

  lemma SeenIsSomething(cw: Codeword, seen: Seen, e: Event)
    requires Concerns(cw, e)
    ensures See(cw, seen, e) != NOTHING
  {
    assert e.h.index in See(cw, seen, e).data + See(cw, seen, e).parity;
  }

  lemma FinishedRemembers(s: State, id: nat)
    ensures id in Finished(s, id).finished
  {
    var ids := s.finished + [id];
    assert ids[|ids| - 1] == id;
    assert Remembered(ids)[|Remembered(ids)| - 1] == id;
  }

  // ----- any symbol -----

  /** The blocks after storing into one of them: the one with the header's id is replaced. */
  ghost predicate Touched(s: State, h: Header, now: int, b: Block, blocks: seq<Block>)
  {
    var o := Opened(s, h, now).blocks;
    var i := IndexOf(o, h.blockId);
    && i < |o| && blocks == o[i := b]
    && b.id == h.blockId && b.created == o[i].created && WellFormed(b)
  }

  /** All that a received symbol can do to the lists of blocks and finished ids. */
  lemma ReceivedShape(s: State, h: Header, payload: Bytes, now: int) returns (b: Block, blocks: seq<Block>)
    requires WellFormedState(s) && Valid(h) && h.blockId !in s.finished
    ensures Touched(s, h, now, b, blocks)
    ensures var r := Received(s, h, payload, now).0;
            || (r.blocks == blocks && r.finished == s.finished)
            || (r.blocks == Without(blocks, h.blockId) && r.finished == Remembered(s.finished + [h.blockId]))
  {
    hide Stored, Solve, Packets, Rejects, Without, Remembered, IndexOf;
    var s1 := s.(stats := s.stats.(symbolsReceived := s.stats.symbolsReceived + 1));
    var o := Opened(s1, h, now);
    OpenedHasBlock(s1, h, now);
    assert o.blocks == Opened(s, h, now).blocks;
    var i := IndexOf(o.blocks, h.blockId);
    OpenedIsWellFormed(s1, h, now);
    if o.blocks[i].parityCount != h.parityCount {
      b, blocks := o.blocks[i], o.blocks;
      assert o.blocks[i := b] == o.blocks;
    } else {
      StoredIsWellFormed(o.blocks[i], h, payload);
      b := Stored(o.blocks[i], h, payload).0;
      blocks := o.blocks[i := b];
    }
  }

  lemma OpenedIsWellFormed(s: State, h: Header, now: int)
    requires WellFormedState(s) && Valid(h)
    ensures WellFormedState(Opened(s, h, now))
  {
    hide IndexOf;
  }

  lemma {:induction false} WithoutKeepsOrder(blocks: seq<Block>, id: nat)
    requires UniqueIds(blocks)
    ensures UniqueIds(Without(blocks, id)) && |Without(blocks, id)| <= |blocks|
  {
    if |blocks| != 0 {
      var front := blocks[..|blocks| - 1];
      WithoutKeepsOrder(front, id);
      WithoutContents(front, id);
      var kept, last := Without(front, id), blocks[|blocks| - 1];
      forall i | 0 <= i < |kept| ensures kept[i].id != last.id {
        assert kept[i] in kept;
      }
    }
  }

  lemma RememberedIsSuffix(ids: seq<nat>)
    ensures exists k :: 0 <= k <= |ids| && Remembered(ids) == ids[k..]
  {
    if |ids| > MAXIMUM_OUTSTANDING * 2 {
      assert Remembered(ids) == ids[|ids| - MAXIMUM_OUTSTANDING * 2..];
    } else {
      assert Remembered(ids) == ids[0..];
    }
  }

  lemma TouchedIsConsistent(s: State, h: Header, now: int, b: Block, blocks: seq<Block>)
    requires Consistent(s) && Valid(h) && h.blockId !in s.finished
    requires Touched(s, h, now, b, blocks)
    ensures Consistent(s.(blocks := blocks))
  {
    hide IndexOf, WellFormed;
    assert WellFormedState(Opened(s, h, now)) by { OpenedIsWellFormed(s, h, now); }
  }

  lemma FinishingIsConsistent(s: State, id: nat)
    requires Consistent(s)
    ensures Consistent(Finished(s, id))
  {
    hide WellFormed, Without, Remembered;
    FinishedIsWellFormed(s, id);
    WithoutKeepsOrder(s.blocks, id);
    WithoutContents(s.blocks, id);
    var kept := Without(s.blocks, id);
    RememberedIsSuffix(s.finished + [id]);
    forall i | 0 <= i < |kept| ensures kept[i].id !in Remembered(s.finished + [id]) {
      assert kept[i] in kept;
    }
  }

  lemma ReceivedIsConsistent(s: State, h: Header, payload: Bytes, now: int)
    requires Consistent(s) && Valid(h)
    ensures Consistent(Received(s, h, payload, now).0)
  {
    if h.blockId !in s.finished {
      var b, blocks := ReceivedShape(s, h, payload, now);
      TouchedIsConsistent(s, h, now, b, blocks);
      FinishingIsConsistent(s.(blocks := blocks), h.blockId);
      hide Received, WellFormed, Without, Remembered;
    }
  }

  lemma ExpiredIsConsistent(s: State, now: int)
    requires Consistent(s)
    ensures Consistent(Expired(s, now))
  {
    hide WellFormed, Remembered;
    var n := Overdue(s.blocks, now);
    RememberedIsSuffix(s.finished + Ids(s.blocks[..n]));
  }

  lemma StepIsConsistent(s: State, e: Event)
    requires Consistent(s) && Acceptable(e)
    ensures Consistent(Step(s, e).0)
  {
    hide Received, Expired;
    match e
    case Symbol(h, payload, now) => ReceivedIsConsistent(s, h, payload, now);
    case Expire(now) => ExpiredIsConsistent(s, now);
  }

  // ----- symbols of other blocks -----

  ghost predicate Distinct(ids: seq<nat>)
  {
    forall i, j :: 0 <= i < j < |ids| ==> ids[i] != ids[j]
  }

  /** `id` was finished, and since then only other, distinct members of `universe`. */
  ghost predicate FinishedAt(finished: seq<nat>, id: nat, universe: set<nat>, k: nat)
  {
    && k < |finished| && finished[k] == id
    && Distinct(finished[k..])
    && forall i :: k <= i < |finished| ==> finished[i] in universe
  }

  /** Every block is in `memory`, every block behind that of `cw` in `universe`; that block is no older than `start`. */
  ghost predicate Fits(blocks: seq<Block>, cw: Codeword, universe: set<nat>, memory: set<nat>, start: int)
  {
    && (forall i :: 0 <= i < |blocks| ==> blocks[i].id in memory)
    && (forall i, j :: 0 <= i < j < |blocks| && blocks[i].id == cw.id ==> blocks[j].id in universe)
    && (forall i :: 0 <= i < |blocks| && blocks[i].id == cw.id ==> blocks[i].created >= start)
  }

  /** Few enough blocks came after this one that it is neither evicted nor forgotten. */
  ghost predicate Roomy(s: State, cw: Codeword, universe: set<nat>, memory: set<nat>, start: int)
  {
    && cw.id in universe && universe <= memory
    && |universe| <= MAXIMUM_OUTSTANDING && |memory| <= MAXIMUM_OUTSTANDING * 2
    && Fits(s.blocks, cw, universe, memory, start)
    && (cw.id in s.finished ==> exists k :: FinishedAt(s.finished, cw.id, memory, k))
  }

  /** A symbol of one of these blocks, or an expiry pass before the deadline of a block opened at `start`. */
  predicate Admissible(universe: set<nat>, start: int, e: Event)
  {
    match e
    case Symbol(h, _, _) => h.blockId in universe
    case Expire(now) => now < start + RECOVERY_DEADLINE
  }

  lemma {:induction false} DistinctFit(ids: seq<nat>, universe: set<nat>)
    requires Distinct(ids) && forall i :: 0 <= i < |ids| ==> ids[i] in universe
    ensures |ids| <= |universe|
  {
    if |ids| != 0 {
      var last := ids[|ids| - 1];
      DistinctFit(ids[..|ids| - 1], universe - {last});
    }
  }

  /** With room, a new block never evicts this one. */
  lemma NoEviction(s: State, h: Header, cw: Codeword, universe: set<nat>, memory: set<nat>, start: int)
    requires Consistent(s) && Roomy(s, cw, universe, memory, start) && h.blockId in universe
    requires IndexOf(s.blocks, h.blockId) == |s.blocks| >= MAXIMUM_OUTSTANDING
    ensures s.blocks[0].id != cw.id
  {
    hide IndexOf, WellFormed, FinishedAt;
    if s.blocks[0].id == cw.id {
      DistinctFit(Ids(s.blocks[1..]), universe - {h.blockId, cw.id});
    }
  }

  /** What opening a block for a header does to the list: perhaps the first one goes, perhaps a new one comes. */
  lemma OpenedFits(s: State, h: Header, now: int, cw: Codeword, universe: set<nat>, memory: set<nat>, start: int)
    requires Consistent(s) && Roomy(s, cw, universe, memory, start) && h.blockId in universe
    requires h.blockId == cw.id && IndexOf(s.blocks, cw.id) == |s.blocks| ==> start <= now
    ensures Fits(Opened(s, h, now).blocks, cw, universe, memory, start)
    ensures h.blockId != cw.id ==> SameFor(Opened(s, h, now).blocks, s.blocks, cw.id)
  {
    hide IndexOf, WellFormed, FinishedAt;
    if IndexOf(s.blocks, h.blockId) == |s.blocks| {
      var kept := s.blocks;
      if |s.blocks| >= MAXIMUM_OUTSTANDING {
        NoEviction(s, h, cw, universe, memory, start);
        kept := s.blocks[1..];
        OthersDropped(s.blocks, 1, cw.id);
      }
      assert Fits(kept, cw, universe, memory, start);
      assert FreshBlock(h, now).id == h.blockId && FreshBlock(h, now).created == now;
      FitsMore(kept, FreshBlock(h, now), cw, universe, memory, start);
    }
  }

  lemma FitsMore(blocks: seq<Block>, b: Block, cw: Codeword, universe: set<nat>, memory: set<nat>, start: int)
    requires Fits(blocks, cw, universe, memory, start) && b.id in memory && (b.id == cw.id ==> b.created >= start)
    requires b.id in universe || forall i :: 0 <= i < |blocks| ==> blocks[i].id != cw.id
    ensures Fits(blocks + [b], cw, universe, memory, start)
  {
  }

  lemma {:induction false} FitsWithout(blocks: seq<Block>, id: nat, cw: Codeword,
                                       universe: set<nat>, memory: set<nat>, start: int)
    requires Fits(blocks, cw, universe, memory, start)
    ensures Fits(Without(blocks, id), cw, universe, memory, start)
  {
    if |blocks| > 0 {
      var front, last := blocks[..|blocks| - 1], blocks[|blocks| - 1];
      FitsWithout(front, id, cw, universe, memory, start);
      if last.id != id {
        WithoutContents(front, id);
        var kept := Without(front, id);
        if last.id !in universe {
          forall i | 0 <= i < |kept| ensures kept[i].id != cw.id {
            assert kept[i] in kept;
          }
        }
        FitsMore(kept, last, cw, universe, memory, start);
      }
    }
  }

  /** With room, finishing other blocks never pushes this one out of memory. */
  lemma FinishedStays(finished: seq<nat>, more: seq<nat>, id: nat, universe: set<nat>, k: nat)
    requires |universe| <= MAXIMUM_OUTSTANDING * 2
    requires FinishedAt(finished + more, id, universe, k)
    ensures exists j :: FinishedAt(Remembered(finished + more), id, universe, j)
  {
    var ids := finished + more;
    DistinctFit(ids[k..], universe);
    var cut := if |ids| > MAXIMUM_OUTSTANDING * 2 then |ids| - MAXIMUM_OUTSTANDING * 2 else 0;
    assert Remembered(ids) == ids[cut..];
    assert ids[cut..][k - cut..] == ids[k..];
    assert FinishedAt(Remembered(ids), id, universe, k - cut);
  }

  lemma FinishedExtends(finished: seq<nat>, more: seq<nat>, id: nat, universe: set<nat>, k: nat)
    requires FinishedAt(finished, id, universe, k)
    requires Distinct(more)
    requires forall i :: 0 <= i < |more| ==> more[i] in universe && more[i] !in finished
    ensures FinishedAt(finished + more, id, universe, k)
  {
    var all := (finished + more)[k..];
    assert all == finished[k..] + more;
    forall i, j | 0 <= i < j < |all| ensures all[i] != all[j] {
      assert i < |finished[k..]| ==> all[i] in finished;
    }
  }

  /** How a step changes the finished ids: some of the outstanding ones are appended. */
  ghost predicate Appends(s: State, r: State, more: seq<nat>)
  {
    && r.finished == Remembered(s.finished + more)
    && Distinct(more)
    && forall i :: 0 <= i < |more| ==> more[i] !in s.finished
  }

  lemma AppendsKeeps(s: State, r: State, more: seq<nat>, cw: Codeword, universe: set<nat>)
    requires Appends(s, r, more)
    requires |universe| <= MAXIMUM_OUTSTANDING * 2
    requires forall i :: 0 <= i < |more| ==> more[i] in universe
    requires cw.id in s.finished ==> exists k :: FinishedAt(s.finished, cw.id, universe, k)
    requires cw.id in more ==> more == [cw.id]
    ensures cw.id in r.finished <==> cw.id in s.finished || cw.id in more
    ensures cw.id in r.finished ==> exists k :: FinishedAt(r.finished, cw.id, universe, k)
  {
    hide Remembered, FinishedAt;
    RememberedIsSuffix(s.finished + more);
    if cw.id in s.finished {
      var k :| FinishedAt(s.finished, cw.id, universe, k);
      FinishedExtends(s.finished, more, cw.id, universe, k);
      FinishedStays(s.finished, more, cw.id, universe, k);
      var j :| FinishedAt(r.finished, cw.id, universe, j);
      FinishedIsMember(r.finished, cw.id, universe, j);
    } else if cw.id in more {
      LastIsFinished(s.finished, cw.id, universe);
      FinishedStays(s.finished, more, cw.id, universe, |s.finished|);
      var j :| FinishedAt(r.finished, cw.id, universe, j);
      FinishedIsMember(r.finished, cw.id, universe, j);
    }
  }

  lemma FinishedIsMember(finished: seq<nat>, id: nat, universe: set<nat>, k: nat)
    requires FinishedAt(finished, id, universe, k)
    ensures id in finished
  {
  }

  lemma LastIsFinished(finished: seq<nat>, id: nat, universe: set<nat>)
    requires id in universe
    ensures FinishedAt(finished + [id], id, universe, |finished|)
  {
  }

  lemma MemberIsIndexed(blocks: seq<Block>, b: Block)
    requires UniqueIds(blocks) && b in blocks
    ensures IndexOf(blocks, b.id) < |blocks| && blocks[IndexOf(blocks, b.id)] == b
  {
    hide IndexOf;
    var i :| 0 <= i < |blocks| && blocks[i] == b;
    IndexIsUnique(blocks, i, b.id);
  }

  ghost predicate SameFor(a: seq<Block>, b: seq<Block>, id: nat)
  {
    forall c: Block :: c.id == id ==> (c in a <==> c in b)
  }

  lemma TouchedKeeps(s: State, h: Header, now: int, b: Block, blocks: seq<Block>, cw: Codeword,
                     universe: set<nat>, memory: set<nat>, start: int)
    requires Consistent(s) && Roomy(s, cw, universe, memory, start) && Touched(s, h, now, b, blocks)
    requires h.blockId in universe
    requires h.blockId == cw.id && IndexOf(s.blocks, cw.id) == |s.blocks| ==> start <= now
    ensures Fits(blocks, cw, universe, memory, start)
    ensures Fits(Without(blocks, h.blockId), cw, universe, memory, start)
    ensures h.blockId != cw.id ==> SameFor(blocks, s.blocks, cw.id)
    ensures h.blockId != cw.id ==> SameFor(Without(blocks, h.blockId), s.blocks, cw.id)
  {
    hide Opened, IndexOf, WellFormed, Without, FinishedAt;
    OpenedFits(s, h, now, cw, universe, memory, start);
    var o := Opened(s, h, now).blocks;
    var i := IndexOf(o, h.blockId);
    FitsReplaced(o, i, b, cw, universe, memory, start);
    ReplacedMembers(o, i, b);
    WithoutContents(blocks, h.blockId);
    FitsWithout(blocks, h.blockId, cw, universe, memory, start);
  }

  lemma FitsReplaced(o: seq<Block>, i: nat, b: Block, cw: Codeword, universe: set<nat>, memory: set<nat>, start: int)
    requires Fits(o, cw, universe, memory, start)
    requires i < |o| && b.id == o[i].id && b.created == o[i].created
    ensures Fits(o[i := b], cw, universe, memory, start)
  {
    var r := o[i := b];
    assert forall k :: 0 <= k < |r| ==> r[k].id == o[k].id && r[k].created == o[k].created;
  }

  /** A received symbol changes no block but its own, and keeps the room. */
  lemma ReceivedKeeps(s: State, h: Header, payload: Bytes, now: int, cw: Codeword,
                      universe: set<nat>, memory: set<nat>, start: int)
    requires Consistent(s) && Valid(h) && Roomy(s, cw, universe, memory, start)
    requires h.blockId in universe
    requires h.blockId == cw.id && cw.id !in s.finished && IndexOf(s.blocks, cw.id) == |s.blocks| ==> start <= now
    ensures Roomy(Received(s, h, payload, now).0, cw, universe, memory, start)
    ensures h.blockId != cw.id ==>
              && (cw.id in Received(s, h, payload, now).0.finished <==> cw.id in s.finished)
              && SameFor(Received(s, h, payload, now).0.blocks, s.blocks, cw.id)
  {
    hide Received, Touched, WellFormed, Without, FinishedAt, Remembered, SameFor, Valid, Fits, IndexOf;
    var r := Received(s, h, payload, now).0;
    if h.blockId in s.finished {
      FinishedIsIgnored(s, h, payload, now, cw.id);
    } else {
      var b, blocks := ReceivedShape(s, h, payload, now);
      TouchedKeeps(s, h, now, b, blocks, cw, universe, memory, start);
      if r.finished != s.finished {
        AppendsKeeps(s, r, [h.blockId], cw, memory);
      }
    }
  }

  lemma FinishedIsIgnored(s: State, h: Header, payload: Bytes, now: int, id: nat)
    requires WellFormedState(s) && Valid(h) && h.blockId in s.finished
    ensures Received(s, h, payload, now).0.blocks == s.blocks && Received(s, h, payload, now).0.finished == s.finished
    ensures SameFor(Received(s, h, payload, now).0.blocks, s.blocks, id)
  {
  }

  lemma ReplacedMembers(o: seq<Block>, i: nat, b: Block)
    requires i < |o| && o[i].id == b.id
    ensures forall c: Block :: c.id != b.id ==> (c in o[i := b] <==> c in o)
  {
    forall c: Block | c.id != b.id ensures c in o[i := b] <==> c in o {
      if c in o {
        var k :| 0 <= k < |o| && o[k] == c;
        assert o[i := b][k] == c;
      }
    }
  }

  lemma ExpiredKeeps(s: State, now: int, cw: Codeword, universe: set<nat>, memory: set<nat>, start: int)
    requires Consistent(s) && Roomy(s, cw, universe, memory, start)
    requires now < start + RECOVERY_DEADLINE
    ensures Roomy(Expired(s, now), cw, universe, memory, start)
    ensures cw.id in Expired(s, now).finished <==> cw.id in s.finished
    ensures SameFor(Expired(s, now).blocks, s.blocks, cw.id)
  {
    hide WellFormed, FinishedAt, Remembered, Ids, SameFor, Appends;
    var n := Overdue(s.blocks, now);
    OverdueAreOthers(s, now, cw, universe, memory, start);
    AppendsKeeps(s, Expired(s, now), Ids(s.blocks[..n]), cw, memory);
    OthersDropped(s.blocks, n, cw.id);
  }

  /** Before its deadline the block itself is not overdue. */
  lemma OverdueAreOthers(s: State, now: int, cw: Codeword, universe: set<nat>, memory: set<nat>, start: int)
    requires Consistent(s) && Roomy(s, cw, universe, memory, start) && now < start + RECOVERY_DEADLINE
    ensures var n := Overdue(s.blocks, now);
            var more := Ids(s.blocks[..n]);
            && cw.id !in more && Appends(s, Expired(s, now), more)
            && (forall i :: 0 <= i < |more| ==> more[i] in memory)
            && forall i :: 0 <= i < n ==> s.blocks[i].id != cw.id
  {
    hide WellFormed, FinishedAt, Remembered;
  }

  lemma OthersDropped(blocks: seq<Block>, n: nat, id: nat)
    requires n <= |blocks| && forall i :: 0 <= i < n ==> blocks[i].id != id
    ensures SameFor(blocks[n..], blocks, id)
  {
    assert blocks == blocks[..n] + blocks[n..];
  }

  /** Everything the tracking of a block needs survives every admissible event. */
  lemma StepKeeps(s: State, cw: Codeword, seen: Seen, universe: set<nat>, memory: set<nat>, start: int, e: Event)
    requires Sound(cw) && Consistent(s) && Roomy(s, cw, universe, memory, start) && Tracks(s, cw, seen)
    requires Acceptable(e) && Genuine(cw, e) && Admissible(universe, start, e)
    requires seen == NOTHING && Concerns(cw, e) ==> start <= e.now
    requires forall i :: i in seen.data ==> i < |cw.packets|
    ensures var (s', out) := Step(s, e);
            && Consistent(s') && Roomy(s', cw, universe, memory, start)
            && Tracks(s', cw, See(cw, seen, e))
            && (Concerns(cw, e) ==> out == Ideal(cw, seen, See(cw, seen, e)))
  {
    hide Received, Expired, Mirrors, Sufficient, Ideal, IndexOf, WellFormed, FinishedAt, Fits,
         ParitySymbol, ParityHeader, DataHeader;
    StepIsConsistent(s, e);
    match e {
      case Symbol(h, payload, now) => ReceivedKeeps(s, h, payload, now, cw, universe, memory, start);
      case Expire(now) => ExpiredKeeps(s, now, cw, universe, memory, start);
    }
    if Concerns(cw, e) {
      OwnStep(s, cw, seen, e);
    } else {
      OtherStepTracks(s, Step(s, e).0, cw, seen);
    }
  }

  lemma OtherStepTracks(s: State, r: State, cw: Codeword, seen: Seen)
    requires Consistent(s) && Consistent(r) && Tracks(s, cw, seen)
    requires cw.id in r.finished <==> cw.id in s.finished
    requires SameFor(r.blocks, s.blocks, cw.id)
    ensures Tracks(r, cw, seen)
  {
    hide Mirrors, Sufficient, IndexOf, WellFormed;
    if !Sufficient(cw, seen) {
      var i := IndexOf(s.blocks, cw.id);
      if seen == NOTHING {
        assert forall c: Block :: c in s.blocks ==> c.id != cw.id;
        assert forall c: Block :: c in r.blocks ==> c.id != cw.id;
        forall k | 0 <= k < |r.blocks| ensures r.blocks[k].id != cw.id {
          assert r.blocks[k] in r.blocks;
        }
      } else {
        MemberIsIndexed(r.blocks, s.blocks[i]);
      }
    }
  }

  // ----- whole runs -----

  ghost function Outputs(s: State, es: seq<Event>): (r: seq<seq<Bytes>>)
    requires WellFormedState(s) && forall i :: 0 <= i < |es| ==> Acceptable(es[i])
    requires Consistent(s)
    ensures |r| == |es|
    decreases |es|
  {
    if |es| == 0 then []
    else
      StepIsConsistent(s, es[0]);
      var (s', out) := Step(s, es[0]);
      [out] + Outputs(s', es[1..])
  }

  /** The symbols seen after the first `k` events. */
  function SeenAfter(cw: Codeword, seen: Seen, es: seq<Event>, k: nat): (r: Seen)
    requires k <= |es|
    decreases k
  {
    if k == 0 then seen else SeenAfter(cw, See(cw, seen, es[0]), es[1..], k - 1)
  }

  ghost predicate AllGenuine(cw: Codeword, es: seq<Event>)
    requires Sound(cw)
  {
    forall i :: 0 <= i < |es| ==> Acceptable(es[i]) && Genuine(cw, es[i])
  }

  lemma {:induction false} RunIsIdeal(s: State, cw: Codeword, seen: Seen, universe: set<nat>, memory: set<nat>,
                                      start: int, es: seq<Event>, k: nat)
    requires Sound(cw) && Consistent(s) && Roomy(s, cw, universe, memory, start) && Tracks(s, cw, seen)
    requires forall i :: i in seen.data ==> i < |cw.packets|
    requires AllGenuine(cw, es) && k < |es| && Concerns(cw, es[k])
    requires forall i :: 0 <= i <= k ==> Admissible(universe, start, es[i])
    requires seen == NOTHING ==> Concerns(cw, es[0]) && start <= es[0].now
    ensures Outputs(s, es)[k]
         == Ideal(cw, SeenAfter(cw, seen, es, k), SeenAfter(cw, seen, es, k + 1))
    decreases k
  {
    hide Step, Tracks, Roomy, WellFormed, Ideal, Admissible, Acceptable, Genuine;
    assert Genuine(cw, es[0]);
    StepKeeps(s, cw, seen, universe, memory, start, es[0]);
    var after := See(cw, seen, es[0]);
    if k == 0 {
      assert SeenAfter(cw, seen, es, 1) == after;
    } else {
      if seen == NOTHING { SeenIsSomething(cw, seen, es[0]); }
      SeenIsGenuine(cw, seen, es, 1);
      assert SeenAfter(cw, seen, es, 1) == after;
      RunIsIdeal(Step(s, es[0]).0, cw, after, universe, memory, start, es[1..], k - 1);
    }
  }

  // ----- after expiry -----

  /** Exactly the blocks at the front that are a deadline old leave by an expiry pass, and they stay away: their ids
      are remembered, and while they are, their symbols yield nothing and open nothing. */
  lemma ExpiredIsFinal(s: State, now: int, i: nat, h: Header, payload: Bytes, later: int)
    requires Consistent(s) && Valid(h) && i < |s.blocks| && h.blockId == s.blocks[i].id
    requires forall j :: 0 <= j <= i ==> now - s.blocks[j].created >= RECOVERY_DEADLINE
    ensures var r := Expired(s, now);
            && Consistent(r) && h.blockId in r.finished && (forall b :: b in r.blocks ==> b.id != h.blockId)
            && Received(r, h, payload, later).1 == [] && Received(r, h, payload, later).0.blocks == r.blocks
  {
    hide WellFormed, Stored, Solve;
    ExpiredIsConsistent(s, now);
    var n := Overdue(s.blocks, now);
    assert i < n by { OverdueReaches(s.blocks, now, i); }
    var more := Ids(s.blocks[..n]);
    assert more[i] == h.blockId;
    RememberedHolds(s.finished, more, i);
  }

  lemma OverdueReaches(blocks: seq<Block>, now: int, i: nat)
    requires i < |blocks| && forall j :: 0 <= j <= i ==> now - blocks[j].created >= RECOVERY_DEADLINE
    ensures i < Overdue(blocks, now)
  {
    hide Overdue;
  }

  lemma RememberedHolds(finished: seq<nat>, more: seq<nat>, i: nat)
    requires i < |more| <= MAXIMUM_OUTSTANDING
    ensures more[i] in Remembered(finished + more)
  {
    var ids := finished + more;
    assert ids[|finished| + i] == more[i];
    var cut := if |ids| > MAXIMUM_OUTSTANDING * 2 then |ids| - MAXIMUM_OUTSTANDING * 2 else 0;
    assert Remembered(ids)[|finished| + i - cut] == more[i];
  }

  // ----- before the block's first symbol -----

  ghost predicate Unknown(s: State, id: nat)
  {
    id !in s.finished && IndexOf(s.blocks, id) == |s.blocks|
  }

  lemma UnknownStays(s: State, cw: Codeword, e: Event)
    requires Consistent(s) && Acceptable(e) && !Concerns(cw, e) && Unknown(s, cw.id)
    ensures Unknown(Step(s, e).0, cw.id)
  {
    hide WellFormed, Received, IndexOf, Without, Remembered;
    match e
    case Symbol(h, payload, now) =>
      if h.blockId in s.finished {
        FinishedIsIgnored(s, h, payload, now, cw.id);
      } else {
        var b, blocks := ReceivedShape(s, h, payload, now);
        RememberedIsSuffix(s.finished + [h.blockId]);
        WithoutContents(blocks, h.blockId);
        assert forall i :: 0 <= i < |blocks| ==> blocks[i].id != cw.id;
        var r := Received(s, h, payload, now).0;
        forall i | 0 <= i < |r.blocks| ensures r.blocks[i].id != cw.id {
          assert r.blocks[i] in r.blocks;
        }
      }
    case Expire(now) =>
      RememberedIsSuffix(s.finished + Ids(s.blocks[..Overdue(s.blocks, now)]));
  }

  ghost function IdSet(blocks: seq<Block>): (r: set<nat>)
    ensures forall i :: 0 <= i < |blocks| ==> blocks[i].id in r
    ensures |r| <= |blocks|
  {
    if |blocks| == 0 then {} else {blocks[|blocks| - 1].id} + IdSet(blocks[..|blocks| - 1])
  }

  /** When the block's first symbol arrives there is room, whatever the decoder holds. */
  lemma FirstHasRoom(s: State, cw: Codeword, universe: set<nat>, start: int)
    requires Sound(cw) && Consistent(s) && Unknown(s, cw.id) && cw.id in universe && |universe| <= MAXIMUM_OUTSTANDING
    ensures Roomy(s, cw, universe, universe + IdSet(s.blocks), start) && Tracks(s, cw, NOTHING)
  {
    hide WellFormed, IdSet;
  }

  lemma OwnIdIsIn(cw: Codeword, universe: set<nat>, start: int, e: Event)
    requires Concerns(cw, e) && Admissible(universe, start, e)
    ensures cw.id in universe
  {
  }

  /** The place of the block's first symbol. */
  function FirstOf(cw: Codeword, es: seq<Event>): (i: nat)
    ensures i <= |es| && (i < |es| ==> Concerns(cw, es[i]))
    ensures forall j :: 0 <= j < i ==> !Concerns(cw, es[j])
  {
    if |es| == 0 || Concerns(cw, es[0]) then 0 else 1 + FirstOf(cw, es[1..])
  }

  /** From the block's first symbol to event `k` there are only symbols of these blocks, and no expiry pass a
      recovery deadline after that first symbol. What came before is not restricted. */
  ghost predicate Steady(cw: Codeword, universe: set<nat>, es: seq<Event>, k: nat)
  {
    var first := FirstOf(cw, es);
    && |universe| <= MAXIMUM_OUTSTANDING
    && forall i :: first <= i <= k && i < |es| ==> Admissible(universe, es[first].now, es[i])
  }

  lemma {:induction false} RunFromUnknown(s: State, cw: Codeword, universe: set<nat>, es: seq<Event>, k: nat)
    requires Sound(cw) && Consistent(s) && Unknown(s, cw.id)
    requires AllGenuine(cw, es) && k < |es| && Concerns(cw, es[k]) && Steady(cw, universe, es, k)
    ensures Outputs(s, es)[k]
         == Ideal(cw, SeenAfter(cw, NOTHING, es, k), SeenAfter(cw, NOTHING, es, k + 1))
    decreases k
  {
    hide Step, Tracks, Roomy, WellFormed, Ideal, Unknown, Admissible, Acceptable, Genuine, IdSet;
    if Concerns(cw, es[0]) {
      assert cw.id in universe by { OwnIdIsIn(cw, universe, es[0].now, es[0]); }
      FirstHasRoom(s, cw, universe, es[0].now);
      RunIsIdeal(s, cw, NOTHING, universe, universe + IdSet(s.blocks), es[0].now, es, k);
    } else {
      StepIsConsistent(s, es[0]);
      UnknownStays(s, cw, es[0]);
      assert forall i :: 0 <= i < |es[1..]| ==> es[1..][i] == es[i + 1];
      RunFromUnknown(Step(s, es[0]).0, cw, universe, es[1..], k - 1);
    }
  }

  /** The main theorem, from a fresh decoder. Every time a symbol of the block arrives, the decoder
      returns nothing, except at the one moment the symbols become sufficient: then it returns
      every packet that has not arrived, whole and in order (packets of length zero excepted). */
  lemma DecoderIsIdeal(cw: Codeword, universe: set<nat>, es: seq<Event>, k: nat)
    requires Sound(cw) && AllGenuine(cw, es) && k < |es| && Concerns(cw, es[k]) && Steady(cw, universe, es, k)
    ensures var before, after := SeenAfter(cw, NOTHING, es, k), SeenAfter(cw, NOTHING, es, k + 1);
            Outputs(State([], [], Stats(0, 0, 0, 0)), es)[k]
            == if !Sufficient(cw, before) && Sufficient(cw, after)
               then NonEmpty(Selected(cw, Absent(after.data, |cw.packets|))) else []
  {
    hide Outputs, SeenAfter, Steady, Genuine, Acceptable;
    RunFromUnknown(State([], [], Stats(0, 0, 0, 0)), cw, universe, es, k);
  }

  /** Sufficient symbols stay sufficient, so the packets are returned at most once. */
  lemma {:induction false} SufficientStays(cw: Codeword, seen: Seen, es: seq<Event>, j: nat, k: nat)
    requires Sound(cw) && j <= k <= |es|
    requires forall i :: 0 <= i < |es| ==> Genuine(cw, es[i])
    requires forall i :: i in seen.data ==> i < |cw.packets|
    requires Sufficient(cw, SeenAfter(cw, seen, es, j))
    ensures Sufficient(cw, SeenAfter(cw, seen, es, k))
    decreases k
  {
    hide ParitySymbol, ParityHeader, DataHeader, Sufficient;
    if k != 0 {
      var after := See(cw, seen, es[0]);
      assert Genuine(cw, es[0]);
      if j == 0 {
        SeenGrows(cw, seen, es[0]);
        SufficientStays(cw, after, es[1..], 0, k - 1);
      } else {
        SufficientStays(cw, after, es[1..], j - 1, k - 1);
      }
    }
  }

  /** The event at which the symbols first become sufficient. */
  lemma {:induction false} FirstSufficient(cw: Codeword, seen: Seen, es: seq<Event>) returns (k: nat)
    requires Sound(cw) && !Sufficient(cw, seen) && Sufficient(cw, SeenAfter(cw, seen, es, |es|))
    ensures k < |es| && Concerns(cw, es[k])
    ensures !Sufficient(cw, SeenAfter(cw, seen, es, k)) && Sufficient(cw, SeenAfter(cw, seen, es, k + 1))
    decreases |es|
  {
    hide Sufficient;
    var after := See(cw, seen, es[0]);
    if Sufficient(cw, after) {
      k := 0;
      assert SeenAfter(cw, seen, es, 1) == after;
    } else {
      var j := FirstSufficient(cw, after, es[1..]);
      k := j + 1;
    }
  }

  lemma {:induction false} SeenIsMonotone(cw: Codeword, seen: Seen, es: seq<Event>, j: nat, k: nat)
    requires j <= k <= |es|
    ensures SeenAfter(cw, seen, es, j).data <= SeenAfter(cw, seen, es, k).data
    ensures SeenAfter(cw, seen, es, j).parity <= SeenAfter(cw, seen, es, k).parity
    decreases k
  {
    if k != 0 {
      var after := See(cw, seen, es[0]);
      if j == 0 {
        SeenIsMonotone(cw, after, es[1..], 0, k - 1);
      } else {
        SeenIsMonotone(cw, after, es[1..], j - 1, k - 1);
      }
    }
  }

  lemma {:induction false} SeenIsGenuine(cw: Codeword, seen: Seen, es: seq<Event>, k: nat)
    requires Sound(cw) && k <= |es| && forall i :: 0 <= i < |es| ==> Genuine(cw, es[i])
    requires forall i :: i in seen.data ==> i < |cw.packets|
    ensures forall i :: i in SeenAfter(cw, seen, es, k).data ==> i < |cw.packets|
    decreases k
  {
    hide ParitySymbol, ParityHeader, DataHeader;
    if k != 0 {
      assert Genuine(cw, es[0]);
      SeenIsGenuine(cw, See(cw, seen, es[0]), es[1..], k - 1);
    }
  }

  /** Any k data symbols and n - k or more parity symbols, in any order and mixed with other
      traffic, make the decoder return packets exactly once; and when exactly n symbols arrive in
      all, those are precisely the packets that never arrived. */
  lemma RecoveredExactlyOnce(cw: Codeword, universe: set<nat>, es: seq<Event>) returns (k: nat)
    requires Sound(cw) && AllGenuine(cw, es)
    requires forall i :: 0 <= i < |es| && Concerns(cw, es[i]) ==> Steady(cw, universe, es, i)
    requires var all := SeenAfter(cw, NOTHING, es, |es|);
             all.parity != {} && |all.data| + |all.parity| >= |cw.packets|
    ensures k < |es| && Concerns(cw, es[k])
    ensures var outputs, all := Outputs(State([], [], Stats(0, 0, 0, 0)), es), SeenAfter(cw, NOTHING, es, |es|);
            && outputs[k] == NonEmpty(Selected(cw, Absent(SeenAfter(cw, NOTHING, es, k + 1).data, |cw.packets|)))
            && (forall j :: 0 <= j < |es| && j != k && Concerns(cw, es[j]) ==> outputs[j] == [])
            && (|all.data| + |all.parity| == |cw.packets| ==>
                  outputs[k] == NonEmpty(Selected(cw, Absent(all.data, |cw.packets|))))
  {
    hide Outputs, SeenAfter, Genuine, Acceptable, Absent, Steady;
    var n := |cw.packets|;
    SeenStart(cw, es);
    k := FirstSufficient(cw, NOTHING, es);
    DecoderIsIdeal(cw, universe, es, k);
    var outputs := Outputs(State([], [], Stats(0, 0, 0, 0)), es);
    forall j | 0 <= j < |es| && j != k && Concerns(cw, es[j]) ensures outputs[j] == [] {
      DecoderIsIdeal(cw, universe, es, j);
      if j < k {
        if Sufficient(cw, SeenAfter(cw, NOTHING, es, j + 1)) {
          SufficientStays(cw, NOTHING, es, j + 1, k);
        }
      } else {
        SufficientStays(cw, NOTHING, es, k + 1, j);
      }
    }
    var then', all := SeenAfter(cw, NOTHING, es, k + 1), SeenAfter(cw, NOTHING, es, |es|);
    SeenIsMonotone(cw, NOTHING, es, k + 1, |es|);
    SeenIsGenuine(cw, NOTHING, es, |es|);
    SubsetSize(then'.data, all.data);
    SubsetSize(then'.parity, all.parity);
    BoundedSet(all.data, n);
  }

  lemma SeenStart(cw: Codeword, es: seq<Event>)
    requires Sound(cw)
    ensures SeenAfter(cw, NOTHING, es, 0) == NOTHING && !Sufficient(cw, NOTHING)
  {
  }
}
