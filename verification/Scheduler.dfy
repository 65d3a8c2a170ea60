/**
 The send scheduler: one queue per traffic class, realtime first, normal and bulk in the ratio three to
 one, and bulk shed when memory runs out.
 */
module Scheduler {
  import opened Octets

  const NORMAL_WEIGHT := 3
  const BULK_WEIGHT := 1

  datatype Class = Realtime | Normal | Bulk

  datatype Packet = Packet(bytes: Bytes, kind: Class, enqueuedAt: int, destination: nat)

  type Queue = seq<Packet>

  /** One value per traffic class. */
  datatype Each<T> = Each(realtime: T, normal: T, bulk: T) {
    function Get(c: Class): (v: T)
    {
      match c
      case Realtime => realtime
      case Normal => normal
      case Bulk => bulk
    }

    function Set(c: Class, v: T): (r: Each<T>)
      ensures r.Get(c) == v && forall d :: d != c ==> r.Get(d) == Get(d)
    {
      match c
      case Realtime => this.(realtime := v)
      case Normal => this.(normal := v)
      case Bulk => this.(bulk := v)
    }
  }

  datatype Limits = Limits(capacity: Each<nat>, totalBytes: nat)

  datatype State = State(queues: Each<Queue>, queuedBytes: int, normalDeficit: nat, bulkDeficit: nat,
                         enqueued: Each<nat>, dequeued: Each<nat>, dropped: Each<nat>, shed: nat)

  // ----- the invariant -----

  function Size(q: Queue): (n: nat)
  {
    if |q| == 0 then 0 else |q[0].bytes| + Size(q[1..])
  }

  lemma {:induction false} SizeAppend(q: Queue, p: Packet)
    ensures Size(q + [p]) == Size(q) + |p.bytes|
  {
    if |q| > 0 {
      SizeAppend(q[1..], p);
      assert (q + [p])[1..] == q[1..] + [p];
    } else {
      assert (q + [p])[1..] == [];
    }
  }

  function TotalSize(queues: Each<Queue>): (n: nat)
  {
    Size(queues.realtime) + Size(queues.normal) + Size(queues.bulk)
  }

  /** Queues hold packets of their own class. */
  ghost predicate Sorted(queues: Each<Queue>)
  {
    forall c: Class, p :: p in queues.Get(c) ==> p.kind == c
  }

  /** The byte count is exact and within the limit, no queue is over its capacity, and every packet ever
      enqueued was dequeued, shed, or is still queued. */
  ghost predicate Inv(l: Limits, s: State)
  {
    && Sorted(s.queues)
    && s.queuedBytes == TotalSize(s.queues) && s.queuedBytes <= l.totalBytes
    && (forall c: Class :: |s.queues.Get(c)| <= l.capacity.Get(c))
    && s.normalDeficit <= NORMAL_WEIGHT && s.bulkDeficit <= BULK_WEIGHT
    && (forall c: Class :: s.enqueued.Get(c) == s.dequeued.Get(c) + |s.queues.Get(c)| + if c == Bulk then s.shed else 0)
    && s.shed <= s.dropped.bulk
  }

  // ----- operations -----

  predicate HasRoom(l: Limits, s: State, c: Class, bytes: nat)
  {
    |s.queues.Get(c)| < l.capacity.Get(c) && s.queuedBytes + bytes <= l.totalBytes
  }

  function DropOneBulk(s: State): (r: State)
    requires |s.queues.bulk| > 0
  {
    s.(queuedBytes := s.queuedBytes - |s.queues.bulk[0].bytes|,
       queues := s.queues.Set(Bulk, s.queues.bulk[1..]),
       dropped := s.dropped.Set(Bulk, s.dropped.bulk + 1), shed := s.shed + 1)
  }

  function ShedBulk(l: Limits, s: State, needed: nat): (r: State)
    decreases |s.queues.bulk|
  {
    if |s.queues.bulk| > 0 && s.queuedBytes + needed > l.totalBytes then ShedBulk(l, DropOneBulk(s), needed) else s
  }

  /** The state an arriving packet finds once memory has been made for it. */
  function MadeRoom(l: Limits, s: State, p: Packet): (r: State)
  {
    if !HasRoom(l, s, p.kind, |p.bytes|) && p.kind != Bulk && s.queuedBytes + |p.bytes| > l.totalBytes
    then ShedBulk(l, s, |p.bytes|) else s
  }

  function Pushed(s: State, p: Packet): (r: State)
  {
    var c := p.kind;
    s.(queues := s.queues.Set(c, s.queues.Get(c) + [p]), queuedBytes := s.queuedBytes + |p.bytes|,
       enqueued := s.enqueued.Set(c, s.enqueued.Get(c) + 1))
  }

  function Enqueued(l: Limits, s: State, p: Packet): (r: (State, bool))
  {
    var s, c := MadeRoom(l, s, p), p.kind;
    if HasRoom(l, s, c, |p.bytes|) then (Pushed(s, p), true)
    else (s.(dropped := s.dropped.Set(c, s.dropped.Get(c) + 1)), false)
  }

  function Took(s: State, c: Class): (r: State)
    requires |s.queues.Get(c)| > 0
  {
    s.(queues := s.queues.Set(c, s.queues.Get(c)[1..]), queuedBytes := s.queuedBytes - |s.queues.Get(c)[0].bytes|,
       dequeued := s.dequeued.Set(c, s.dequeued.Get(c) + 1))
  }

  /** Which class is served next, and the deficits after the choice. */
  datatype Choice = Choice(served: Class, normalDeficit: nat, bulkDeficit: nat)

  function Choose(s: State): (r: Option<Choice>)
    ensures r.Some? ==> |s.queues.Get(r.value.served)| > 0
    ensures r.None? <==> |s.queues.realtime| == |s.queues.normal| == |s.queues.bulk| == 0
  {
    var n, b := s.normalDeficit, s.bulkDeficit;
    if |s.queues.realtime| > 0 then Some(Choice(Realtime, n, b))
    else if |s.queues.normal| == 0 && |s.queues.bulk| == 0 then None
    else if |s.queues.normal| == 0 then Some(Choice(Bulk, n, 0))
    else if |s.queues.bulk| == 0 then Some(Choice(Normal, 0, b))
    else if n < NORMAL_WEIGHT then Some(Choice(Normal, n + 1, b))
    else if b < BULK_WEIGHT then Some(Choice(Bulk, n, b + 1))
    else Some(Choice(Normal, 1, 0))
  }

  function Dequeued(s: State): (r: (State, Option<Packet>))
  {
    match Choose(s)
    case None => (s, None)
    case Some(Choice(c, n, b)) =>
      (Took(s.(normalDeficit := n, bulkDeficit := b), c), Some(s.queues.Get(c)[0]))
  }

  function Restored(s: State, p: Packet): (r: State)
  {
    var c := p.kind;
    s.(queues := s.queues.Set(c, [p] + s.queues.Get(c)), queuedBytes := s.queuedBytes + |p.bytes|,
       dequeued := s.dequeued.Set(c, if s.dequeued.Get(c) > 0 then s.dequeued.Get(c) - 1 else 0),
       normalDeficit := if c == Normal && s.normalDeficit > 0 then s.normalDeficit - 1 else s.normalDeficit,
       bulkDeficit := if c == Bulk && s.bulkDeficit > 0 then s.bulkDeficit - 1 else s.bulkDeficit)
  }

  /** A packet is dequeued and put back at once. */
  function Bounced(s: State): (r: State)
  {
    match Dequeued(s)
    case (t, None) => t
    case (t, Some(p)) => Restored(t, p)
  }

  // ----- every operation keeps the invariant -----

  lemma {:induction false} ShedKeepsInv(l: Limits, s: State, needed: nat)
    requires Inv(l, s)
    ensures var r := ShedBulk(l, s, needed);
            && Inv(l, r) && r.queues.realtime == s.queues.realtime && r.queues.normal == s.queues.normal
            && |r.queues.bulk| <= |s.queues.bulk| && r.queues.bulk == s.queues.bulk[|s.queues.bulk| - |r.queues.bulk|..]
            && r.shed - s.shed == |s.queues.bulk| - |r.queues.bulk|
            && (r.queuedBytes + needed <= l.totalBytes || r.queues.bulk == [])
            && r.normalDeficit == s.normalDeficit && r.bulkDeficit == s.bulkDeficit
    decreases |s.queues.bulk|
  {
    if |s.queues.bulk| > 0 && s.queuedBytes + needed > l.totalBytes {
      DropKeepsInv(l, s);
      ShedKeepsInv(l, DropOneBulk(s), needed);
    }
  }

  lemma DropKeepsInv(l: Limits, s: State)
    requires Inv(l, s) && |s.queues.bulk| > 0
    ensures Inv(l, DropOneBulk(s))
  {
    var r := DropOneBulk(s);
    forall c: Class, p | p in r.queues.Get(c) ensures p.kind == c {
      assert p in s.queues.Get(c);
    }
  }

  lemma PushKeepsInv(l: Limits, s: State, p: Packet)
    requires Inv(l, s) && HasRoom(l, s, p.kind, |p.bytes|)
    ensures Inv(l, Pushed(s, p))
  {
    SizeAppend(s.queues.Get(p.kind), p);
  }

  lemma RefusalKeepsInv(l: Limits, s: State, c: Class)
    requires Inv(l, s)
    ensures Inv(l, s.(dropped := s.dropped.Set(c, s.dropped.Get(c) + 1)))
  {
    hide Size;
  }

  /** Only bulk packets are ever evicted, oldest first; a refused packet leaves the rest as it was. */
  lemma EnqueuedKeepsInv(l: Limits, s: State, p: Packet)
    requires Inv(l, s)
    ensures var (r, ok) := Enqueued(l, s, p);
            && Inv(l, r)
            && (forall c: Class :: c != Bulk ==>
                  r.queues.Get(c) == s.queues.Get(c) + if ok && c == p.kind then [p] else [])
            && (p.kind == Bulk ==> r.queues.bulk == s.queues.bulk + if ok then [p] else [])
            && (p.kind != Bulk ==> |r.queues.bulk| <= |s.queues.bulk|
                                     && r.queues.bulk == s.queues.bulk[|s.queues.bulk| - |r.queues.bulk|..])
            && r.normalDeficit == s.normalDeficit && r.bulkDeficit == s.bulkDeficit
  {
    hide ShedBulk, Inv;
    ShedKeepsInv(l, s, |p.bytes|);
    var m := MadeRoom(l, s, p);
    if HasRoom(l, m, p.kind, |p.bytes|) { PushKeepsInv(l, m, p); } else { RefusalKeepsInv(l, m, p.kind); }
  }

  lemma TookKeepsInv(l: Limits, s: State, c: Class)
    requires Inv(l, s) && |s.queues.Get(c)| > 0
    ensures Inv(l, Took(s, c)) && s.queues.Get(c)[0].kind == c
  {
    var r := Took(s, c);
    forall d: Class, p | p in r.queues.Get(d) ensures p.kind == d {
      assert p in s.queues.Get(d);
    }
  }

  lemma DequeuedKeepsInv(l: Limits, s: State)
    requires Inv(l, s)
    ensures Inv(l, Dequeued(s).0)
  {
    hide Size;
    match Choose(s)
    case None =>
    case Some(Choice(c, n, b)) => TookKeepsInv(l, s.(normalDeficit := n, bulkDeficit := b), c);
  }

  /** Dequeuing and restoring at once puts every queue and count back; only the deficits may end up different. */
  lemma BounceChangesDeficitsOnly(l: Limits, s: State)
    requires Inv(l, s)
    ensures Bounced(s) == s.(normalDeficit := Bounced(s).normalDeficit, bulkDeficit := Bounced(s).bulkDeficit)
    ensures Inv(l, Bounced(s))
  {
    hide Size;
    match Choose(s)
    case None =>
    case Some(Choice(c, n, b)) =>
      var q := s.queues.Get(c);
      assert q[0] in s.queues.Get(c);
      assert [q[0]] + q[1..] == q;
      assert Bounced(s).queues == s.queues;
  }

  // ----- runs -----

  /** A packet arrives, one is sent, or one is taken and put back because it may not be sent yet. */
  datatype Op = Arrive(packet: Packet) | Serve | Bounce

  function Next(l: Limits, s: State, op: Op): (r: State)
  {
    match op
    case Arrive(p) => Enqueued(l, s, p).0
    case Serve => Dequeued(s).0
    case Bounce => Bounced(s)
  }

  function After(l: Limits, s: State, ops: seq<Op>): (r: State)
    decreases |ops|
  {
    if |ops| == 0 then s else After(l, Next(l, s, ops[0]), ops[1..])
  }

  /** What each service of the run sends, if anything. */
  function Outputs(l: Limits, s: State, ops: seq<Op>): (r: seq<Option<Packet>>)
    decreases |ops|
  {
    if |ops| == 0 then []
    else (if ops[0].Serve? then [Dequeued(s).1] else []) + Outputs(l, Next(l, s, ops[0]), ops[1..])
  }

  lemma NextKeepsInv(l: Limits, s: State, op: Op)
    requires Inv(l, s)
    ensures Inv(l, Next(l, s, op))
  {
    hide Inv, Enqueued, Dequeued, Bounced;
    match op
    case Arrive(p) => EnqueuedKeepsInv(l, s, p);
    case Serve => DequeuedKeepsInv(l, s);
    case Bounce => BounceChangesDeficitsOnly(l, s);
  }

  /** The accounting is exact after every run of arrivals, services and bounces. */
  lemma {:induction false} RunKeepsInv(l: Limits, s: State, ops: seq<Op>)
    requires Inv(l, s)
    ensures Inv(l, After(l, s, ops))
    decreases |ops|
  {
    hide Inv, Next;
    if |ops| > 0 {
      NextKeepsInv(l, s, ops[0]);
      RunKeepsInv(l, Next(l, s, ops[0]), ops[1..]);
    }
  }

  /** The state a scheduler starts in. */
  const START := State(Each([], [], []), 0, 0, 0, Each(0, 0, 0), Each(0, 0, 0), Each(0, 0, 0), 0)

  // ----- first come, first served -----

  function Services(ops: seq<Op>): (n: nat)
  {
    if |ops| == 0 then 0 else (if ops[0].Serve? then 1 else 0) + Services(ops[1..])
  }

  /** The output of a service is what the state before it dequeues. */
  lemma {:induction false} OutputAt(l: Limits, s: State, ops: seq<Op>, i: nat)
    requires i < |ops| && ops[i].Serve?
    ensures Services(ops[..i]) < |Outputs(l, s, ops)|
    ensures Outputs(l, s, ops)[Services(ops[..i])] == Dequeued(After(l, s, ops[..i])).1
    decreases |ops|
  {
    hide Next, Dequeued;
    if i == 0 {
      assert ops[..0] == [];
    } else {
      assert ops[..i][1..] == ops[1..][..i - 1] && ops[..i][0] == ops[0];
      OutputAt(l, Next(l, s, ops[0]), ops[1..], i - 1);
    }
  }

  /** In every run, a service sends the first realtime packet if one waits, and sends nothing only if nothing waits. */
  lemma RealtimeFirst(l: Limits, s: State, ops: seq<Op>, i: nat)
    requires i < |ops| && ops[i].Serve?
    ensures Services(ops[..i]) < |Outputs(l, s, ops)|
    ensures var q, sent := After(l, s, ops[..i]).queues, Outputs(l, s, ops)[Services(ops[..i])];
            && (q.realtime != [] ==> sent == Some(q.realtime[0]))
            && (sent.None? <==> q == Each([], [], []))
  {
    hide After, Outputs, Next;
    OutputAt(l, s, ops, i);
  }

  /** What leaves the front of the queue of class `c` in one step: what is sent, or, from bulk, what is shed. */
  ghost function Leaves(l: Limits, s: State, op: Op, c: Class): (q: Queue)
  {
    match op
    case Arrive(p) =>
      var kept := |Next(l, s, op).queues.bulk|;
      if c == Bulk && p.kind != Bulk && kept <= |s.queues.bulk| then s.queues.bulk[..|s.queues.bulk| - kept] else []
    case Serve => if Dequeued(s).1.Some? && Dequeued(s).1.value.kind == c then [Dequeued(s).1.value] else []
    case Bounce => []
  }

  /** What enters the end of that queue: an arriving packet of the class that is not refused. */
  ghost function Enters(l: Limits, s: State, op: Op, c: Class): (q: Queue)
  {
    if op.Arrive? && op.packet.kind == c && Enqueued(l, s, op.packet).1 then [op.packet] else []
  }

  lemma StepIsFifo(l: Limits, s: State, op: Op, c: Class)
    requires Inv(l, s)
    ensures s.queues.Get(c) + Enters(l, s, op, c) == Leaves(l, s, op, c) + Next(l, s, op).queues.Get(c)
  {
    hide Enqueued, Size, TotalSize, Bounced;
    match op
    case Arrive(p) =>
      EnqueuedKeepsInv(l, s, p);
      hide Inv;
      assert s.queues.Get(c) + [] == s.queues.Get(c);
    case Serve => ServeIsFifo(l, s, c);
    case Bounce =>
      BounceChangesDeficitsOnly(l, s);
      assert s.queues.Get(c) + [] == s.queues.Get(c);
  }

  lemma ServeIsFifo(l: Limits, s: State, c: Class)
    requires Inv(l, s)
    ensures s.queues.Get(c) == Leaves(l, s, Serve, c) + Dequeued(s).0.queues.Get(c)
    ensures s.queues.Get(c) + [] == s.queues.Get(c)
  {
    hide Size, TotalSize;
    if Choose(s).Some? {
      var d := Choose(s).value.served;
      var q := s.queues.Get(d);
      assert q[0] in q && q == [q[0]] + q[1..];
    }
  }

  ghost function Left(l: Limits, s: State, ops: seq<Op>, c: Class): (q: Queue)
    decreases |ops|
  {
    if |ops| == 0 then [] else Leaves(l, s, ops[0], c) + Left(l, Next(l, s, ops[0]), ops[1..], c)
  }

  ghost function Entered(l: Limits, s: State, ops: seq<Op>, c: Class): (q: Queue)
    decreases |ops|
  {
    if |ops| == 0 then [] else Enters(l, s, ops[0], c) + Entered(l, Next(l, s, ops[0]), ops[1..], c)
  }

  /** Over every run each class leaves its queue in the order in which it joined it; nothing is lost, repeated or
      overtaken within a class. */
  lemma {:induction false} RunIsFifo(l: Limits, s: State, ops: seq<Op>, c: Class)
    requires Inv(l, s)
    ensures s.queues.Get(c) + Entered(l, s, ops, c) == Left(l, s, ops, c) + After(l, s, ops).queues.Get(c)
    decreases |ops|
  {
    hide Inv, Next, Enters, Leaves;
    if |ops| == 0 {
      assert s.queues.Get(c) + [] == [] + s.queues.Get(c);
    } else {
      var r := Next(l, s, ops[0]);
      StepIsFifo(l, s, ops[0], c);
      NextKeepsInv(l, s, ops[0]);
      RunIsFifo(l, r, ops[1..], c);
      var q, enters, more := s.queues.Get(c), Enters(l, s, ops[0], c), Entered(l, r, ops[1..], c);
      var leaves, left, rest := Leaves(l, s, ops[0], c), Left(l, r, ops[1..], c), After(l, r, ops[1..]).queues.Get(c);
      assert q + (enters + more) == (q + enters) + more == (leaves + r.queues.Get(c)) + more;
      assert (leaves + r.queues.Get(c)) + more == leaves + (r.queues.Get(c) + more) == leaves + (left + rest);
      assert leaves + (left + rest) == (leaves + left) + rest;
    }
  }

  /** The packets of a class among what was sent. */
  function OfClass(sent: seq<Option<Packet>>, c: Class): (q: Queue)
  {
    if |sent| == 0 then []
    else (if sent[0].Some? && sent[0].value.kind == c then [sent[0].value] else []) + OfClass(sent[1..], c)
  }

  /** Realtime and normal packets leave only by being sent. */
  lemma {:induction false} LeftIsSent(l: Limits, s: State, ops: seq<Op>, c: Class)
    requires c != Bulk
    ensures Left(l, s, ops, c) == OfClass(Outputs(l, s, ops), c)
    decreases |ops|
  {
    hide Next, Dequeued;
    if |ops| > 0 {
      var rest := Outputs(l, Next(l, s, ops[0]), ops[1..]);
      LeftIsSent(l, Next(l, s, ops[0]), ops[1..], c);
      if ops[0].Serve? {
        assert ([Dequeued(s).1] + rest)[1..] == rest;
      } else {
        assert [] + rest == rest;
      }
    }
  }

  // ----- what is accepted and what is shed -----

  /** A packet is accepted exactly when its class has a place and its octets fit beside all others, or, for a packet
      that is not bulk, beside those that are not bulk. */
  lemma AcceptedExactly(l: Limits, s: State, p: Packet)
    requires Inv(l, s)
    ensures Enqueued(l, s, p).1 <==>
              && |s.queues.Get(p.kind)| < l.capacity.Get(p.kind)
              && |p.bytes| + Size(s.queues.realtime) + Size(s.queues.normal)
                 + (if p.kind == Bulk then Size(s.queues.bulk) else 0) <= l.totalBytes
  {
    hide Size, ShedBulk;
    ShedKeepsInv(l, s, |p.bytes|);
    NothingHasNoSize();
  }

  lemma NothingHasNoSize()
    ensures Size([]) == 0
  {
  }

  /** No more bulk is shed than needed: with one packet less the arriving one would not fit. */
  lemma {:induction false} ShedIsLeast(l: Limits, s: State, needed: nat, j: nat)
    requires Inv(l, s) && j < |s.queues.bulk| - |ShedBulk(l, s, needed).queues.bulk|
    ensures needed + Size(s.queues.realtime) + Size(s.queues.normal) + Size(s.queues.bulk[j..]) > l.totalBytes
    decreases |s.queues.bulk|
  {
    hide Size;
    ShedKeepsInv(l, s, needed);
    if j == 0 {
      assert s.queues.bulk[0..] == s.queues.bulk;
    } else {
      DropKeepsInv(l, s);
      ShedIsLeast(l, DropOneBulk(s), needed, j - 1);
      assert s.queues.bulk[1..][j - 1..] == s.queues.bulk[j..];
    }
  }

  // ----- the order of service -----

  /** How many normal packets precede the next bulk packet while both queues stay filled. */
  function Lead(s: State): (n: int)
  {
    NORMAL_WEIGHT - s.normalDeficit + if s.bulkDeficit == 0 then 0 else 3
  }

  /** No realtime packet, and both other queues filled. */
  predicate BothWaiting(s: State)
  {
    |s.queues.realtime| == 0 && |s.queues.normal| > 0 && |s.queues.bulk| > 0
  }

  /** Both queues are filled whenever the run takes a packet. */
  ghost predicate Backlogged(l: Limits, s: State, ops: seq<Op>)
    decreases |ops|
  {
    |ops| > 0 ==> (!ops[0].Arrive? ==> BothWaiting(s)) && Backlogged(l, Next(l, s, ops[0]), ops[1..])
  }

  lemma ServeLead(l: Limits, s: State)
    requires Inv(l, s) && BothWaiting(s)
    ensures 0 <= Lead(s) <= 6
    ensures var (r, p) := Dequeued(s);
            && p.Some? && p.value.kind == (if Lead(s) == 0 then Bulk else Normal)
            && Lead(r) == if Lead(s) == 0 then 3 else Lead(s) - 1
  {
    hide Size;
    assert s.queues.normal[0] in s.queues.Get(Normal) && s.queues.bulk[0] in s.queues.Get(Bulk);
  }

  /** While both queues are filled, putting a packet back does not change what is served next. */
  lemma BounceKeepsLead(l: Limits, s: State)
    requires Inv(l, s) && BothWaiting(s)
    ensures Lead(Bounced(s)) == Lead(s)
  {
    hide Size, TotalSize;
    assert s.queues.normal[0] in s.queues.Get(Normal) && s.queues.bulk[0] in s.queues.Get(Bulk);
  }

  /** With no realtime traffic and both other classes backlogged, at most six normal packets precede a bulk
      packet, and from then on every bulk packet is followed by exactly three normal ones, however often a packet
      is put back in between. */
  lemma {:induction false} ServicePattern(l: Limits, s: State, ops: seq<Op>, i: nat)
    requires Inv(l, s) && Backlogged(l, s, ops) && i < |Outputs(l, s, ops)|
    ensures 0 <= Lead(s) <= 6
    ensures var o := Outputs(l, s, ops)[i];
            o.Some? && o.value.kind == if i >= Lead(s) && (i - Lead(s)) % 4 == 0 then Bulk else Normal
    decreases |ops|
  {
    hide Enqueued, Dequeued, Bounced, Lead, Inv;
    LeadBound(l, s);
    var next := Next(l, s, ops[0]);
    NextKeepsInv(l, s, ops[0]);
    if ops[0].Serve? {
      ServeLead(l, s);
      if i > 0 { ServicePattern(l, next, ops[1..], i - 1); }
    } else if ops[0].Bounce? {
      BounceKeepsLead(l, s);
      ServicePattern(l, next, ops[1..], i);
    } else {
      EnqueuedKeepsInv(l, s, ops[0].packet);
      SameLead(s, next);
      ServicePattern(l, next, ops[1..], i);
    }
  }

  lemma LeadBound(l: Limits, s: State)
    requires Inv(l, s)
    ensures 0 <= Lead(s) <= 6
  {
    hide Size;
  }

  lemma SameLead(s: State, t: State)
    requires s.normalDeficit == t.normalDeficit && s.bulkDeficit == t.bulkDeficit
    ensures Lead(s) == Lead(t)
  {
  }

  // ----- putting a packet back -----

  /** When a bounce leaves the deficits alone: a realtime packet or none was taken, both other queues were
      filled and no new round began, or a lone queue's own count was already at rest. */
  predicate BounceIsExact(s: State)
  {
    || |s.queues.realtime| > 0
    || (|s.queues.normal| == 0 && |s.queues.bulk| == 0)
    || (|s.queues.normal| == 0 && |s.queues.bulk| > 0 && s.bulkDeficit == 0)
    || (|s.queues.bulk| == 0 && |s.queues.normal| > 0 && s.normalDeficit == 0)
    || (BothWaiting(s) && !(s.normalDeficit == NORMAL_WEIGHT && s.bulkDeficit == BULK_WEIGHT))
  }

  /** What the deficits become. */
  lemma BounceDeficits(l: Limits, s: State)
    requires Inv(l, s)
    ensures BounceIsExact(s) <==> Bounced(s) == s
    ensures !BounceIsExact(s) && |s.queues.normal| == 0 ==>
              Bounced(s).normalDeficit == s.normalDeficit && s.bulkDeficit == 1 && Bounced(s).bulkDeficit == 0
    ensures !BounceIsExact(s) && |s.queues.bulk| == 0 && |s.queues.normal| > 0 ==>
              Bounced(s).normalDeficit == 0 && Bounced(s).bulkDeficit == s.bulkDeficit && s.normalDeficit > 0
    ensures !BounceIsExact(s) && BothWaiting(s) ==>
              && s.normalDeficit == NORMAL_WEIGHT && s.bulkDeficit == BULK_WEIGHT
              && Bounced(s).normalDeficit == 0 && Bounced(s).bulkDeficit == 0
  {
    hide Size, TotalSize;
    BounceChangesDeficitsOnly(l, s);
    if Choose(s).Some? {
      var c := Choose(s).value.served;
      assert s.queues.Get(c)[0] in s.queues.Get(c);
    }
  }

  /** Two states that differ only in their deficits. */
  ghost predicate Twins(l: Limits, s: State, t: State)
  {
    Inv(l, s) && Inv(l, t) && t == s.(normalDeficit := t.normalDeficit, bulkDeficit := t.bulkDeficit)
  }

  lemma ArriveTwins(l: Limits, s: State, t: State, p: Packet)
    requires Twins(l, s, t)
    ensures Twins(l, Next(l, s, Arrive(p)), Next(l, t, Arrive(p)))
  {
    hide Inv, Enqueued;
    EnqueuedKeepsInv(l, s, p);
    EnqueuedKeepsInv(l, t, p);
    EnqueuedTwins(l, s, t, p);
  }

  lemma EnqueuedTwins(l: Limits, s: State, t: State, p: Packet)
    requires t == s.(normalDeficit := t.normalDeficit, bulkDeficit := t.bulkDeficit)
    ensures Enqueued(l, t, p).0 == Enqueued(l, s, p).0.(normalDeficit := t.normalDeficit, bulkDeficit := t.bulkDeficit)
  {
    hide MadeRoom, ShedBulk;
    MadeRoomTwins(l, s, t, p);
  }

  lemma MadeRoomTwins(l: Limits, s: State, t: State, p: Packet)
    requires t == s.(normalDeficit := t.normalDeficit, bulkDeficit := t.bulkDeficit)
    ensures MadeRoom(l, t, p) == MadeRoom(l, s, p).(normalDeficit := t.normalDeficit, bulkDeficit := t.bulkDeficit)
  {
    hide ShedBulk;
    ShedTwins(l, s, t, |p.bytes|);
  }

  lemma {:induction false} ShedTwins(l: Limits, s: State, t: State, needed: nat)
    requires t == s.(normalDeficit := t.normalDeficit, bulkDeficit := t.bulkDeficit)
    ensures ShedBulk(l, t, needed)
         == ShedBulk(l, s, needed).(normalDeficit := t.normalDeficit, bulkDeficit := t.bulkDeficit)
    decreases |s.queues.bulk|
  {
    if |s.queues.bulk| > 0 && s.queuedBytes + needed > l.totalBytes {
      ShedTwins(l, DropOneBulk(s), DropOneBulk(t), needed);
    }
  }

  ghost predicate TellsApart(l: Limits, s: State, t: State, ops: seq<Op>)
  {
    Outputs(l, s, ops) != Outputs(l, t, ops)
  }

  lemma TellsApartLater(l: Limits, s: State, t: State, op: Op, ops: seq<Op>)
    requires TellsApart(l, Next(l, s, op), Next(l, t, op), ops)
    ensures TellsApart(l, s, t, [op] + ops)
  {
    hide Next, Dequeued;
    assert ([op] + ops)[1..] == ops;
    if op.Serve? {
      var a, b := Outputs(l, s, [op] + ops), Outputs(l, t, [op] + ops);
      assert a[1..] == Outputs(l, Next(l, s, op), ops) && b[1..] == Outputs(l, Next(l, t, op), ops);
    } else {
      assert [] + Outputs(l, Next(l, s, op), ops) == Outputs(l, Next(l, s, op), ops);
      assert [] + Outputs(l, Next(l, t, op), ops) == Outputs(l, Next(l, t, op), ops);
    }
  }

  predicate Roomy(l: Limits)
  {
    l.capacity.normal > 0 && l.capacity.bulk > 0
  }

  /** A packet without payload always fits into a queue that is not full. */
  lemma EmptyPacketFits(l: Limits, s: State, c: Class)
    requires Inv(l, s) && |s.queues.Get(c)| < l.capacity.Get(c)
    ensures var r := Next(l, s, Arrive(Packet([], c, 0, 0)));
            && Inv(l, r) && r.normalDeficit == s.normalDeficit && r.bulkDeficit == s.bulkDeficit
            && |r.queues.Get(c)| == |s.queues.Get(c)| + 1
            && forall d: Class :: d != c ==> r.queues.Get(d) == s.queues.Get(d)
  {
    hide Size;
    EnqueuedKeepsInv(l, s, Packet([], c, 0, 0));
  }

  /** A service of the normal queue. */
  lemma ServeTwins(l: Limits, s: State, t: State)
    requires Twins(l, s, t) && BothWaiting(s) && Lead(s) > 0 && Lead(t) > 0
    ensures Twins(l, Next(l, s, Serve), Next(l, t, Serve))
    ensures Lead(Next(l, s, Serve)) == Lead(s) - 1 && Lead(Next(l, t, Serve)) == Lead(t) - 1
    ensures |Next(l, s, Serve).queues.realtime| == 0 && |Next(l, s, Serve).queues.bulk| > 0
    ensures |Next(l, s, Serve).queues.normal| < l.capacity.normal
  {
    hide Size, TotalSize;
    DequeuedKeepsInv(l, s);
    DequeuedKeepsInv(l, t);
    ServeLead(l, s);
    ServeLead(l, t);
  }

  /** Different leads show as soon as the shorter one runs out. */
  lemma {:induction false} LeadsTellApart(l: Limits, s: State, t: State) returns (ops: seq<Op>)
    requires Twins(l, s, t) && BothWaiting(s) && Roomy(l) && Lead(s) < Lead(t)
    ensures TellsApart(l, s, t, ops)
    decreases Lead(s), 0
  {
    hide Inv, Next, Dequeued, Lead;
    LeadBound(l, s);
    if Lead(s) == 0 {
      ops := [Serve];
      ServeLead(l, s);
      ServeLead(l, t);
      assert Outputs(l, s, ops)[0] == Dequeued(s).1 && Outputs(l, t, ops)[0] == Dequeued(t).1;
    } else {
      ServeTwins(l, s, t);
      var s', t' := Next(l, s, Serve), Next(l, t, Serve);
      ops := RefillThenTellApart(l, s', t', Normal);
      TellsApartLater(l, s, t, Serve, ops);
      ops := [Serve] + ops;
    }
  }

  /** A packet arrives in a queue that has room, so that both queues are filled. */
  lemma {:induction false} RefillThenTellApart(l: Limits, s: State, t: State, c: Class) returns (ops: seq<Op>)
    requires Twins(l, s, t) && Roomy(l) && Lead(s) < Lead(t) && |s.queues.realtime| == 0
    requires c != Realtime && |s.queues.Get(c)| < l.capacity.Get(c)
    requires c == Normal ==> |s.queues.bulk| > 0
    requires c == Bulk ==> |s.queues.normal| > 0
    ensures TellsApart(l, s, t, ops)
    decreases Lead(s), 1
  {
    hide Inv, Next, Lead;
    LeadBound(l, s);
    var p := Packet([], c, 0, 0);
    var s', t' := Next(l, s, Arrive(p)), Next(l, t, Arrive(p));
    TwinsInv(l, s, t);
    EmptyPacketFits(l, s, c);
    EmptyPacketFits(l, t, c);
    ArriveTwins(l, s, t, p);
    SameLead(s, s');
    SameLead(t, t');
    assert |s'.queues.Get(Realtime)| == 0 && |s'.queues.Get(Normal)| > 0 && |s'.queues.Get(Bulk)| > 0;
    ops := LeadsTellApart(l, s', t');
    TellsApartLater(l, s, t, Arrive(p), ops);
    ops := [Arrive(p)] + ops;
  }

  lemma TwinsInv(l: Limits, s: State, t: State)
    requires Twins(l, s, t)
    ensures Inv(l, s) && Inv(l, t) && s.queues == t.queues
  {
  }

  /** A packet that can never fit empties the bulk queue and is refused. */
  lemma GiantShedsAllBulk(l: Limits, s: State, giant: Packet)
    requires Inv(l, s) && giant.kind == Realtime && |giant.bytes| == l.totalBytes + 1
    ensures var r := Next(l, s, Arrive(giant));
            && Inv(l, r) && r.queues == Each(s.queues.realtime, s.queues.normal, [])
            && r.normalDeficit == s.normalDeficit && r.bulkDeficit == s.bulkDeficit
  {
    hide Size, ShedBulk;
    EnqueuedKeepsInv(l, s, giant);
    ShedKeepsInv(l, s, |giant.bytes|);
    assert TotalSize(ShedBulk(l, s, |giant.bytes|).queues) >= 0;
  }

  /** Serving the only filled queue, the normal one, resets its deficit and keeps the other. */
  lemma LoneNormalServed(l: Limits, s: State, t: State)
    requires Twins(l, s, t) && |s.queues.realtime| == 0 && s.queues.bulk == [] && |s.queues.normal| > 0
    ensures var r, u := Next(l, s, Serve), Next(l, t, Serve);
            && Twins(l, r, u) && r.normalDeficit == 0 == u.normalDeficit
            && r.bulkDeficit == s.bulkDeficit && u.bulkDeficit == t.bulkDeficit
            && |r.queues.realtime| == 0 && |r.queues.bulk| == 0 && |r.queues.normal| < l.capacity.normal
  {
    hide Size, TotalSize;
    DequeuedKeepsInv(l, s);
    DequeuedKeepsInv(l, t);
  }

  /** A shed that empties the bulk queue tells the end of a round from the start of one. */
  lemma {:induction false} RoundsTellApart(l: Limits, s: State, t: State) returns (ops: seq<Op>)
    requires Twins(l, s, t) && Roomy(l) && BothWaiting(s) && s.bulkDeficit == 0 && t.bulkDeficit == 1
    ensures TellsApart(l, s, t, ops)
  {
    hide Inv, Next;
    var giant := Packet(seq(l.totalBytes + 1, _ => 0), Realtime, 0, 0);
    TwinsInv(l, s, t);
    GiantShedsAllBulk(l, s, giant);
    GiantShedsAllBulk(l, t, giant);
    ArriveTwins(l, s, t, giant);
    var s1, t1 := Next(l, s, Arrive(giant)), Next(l, t, Arrive(giant));
    LoneNormalServed(l, s1, t1);
    var s2, t2 := Next(l, s1, Serve), Next(l, t1, Serve);
    var p := Packet([], Normal, 0, 0);
    TwinsInv(l, s2, t2);
    EmptyPacketFits(l, s2, Normal);
    EmptyPacketFits(l, t2, Normal);
    ArriveTwins(l, s2, t2, p);
    var s3, t3 := Next(l, s2, Arrive(p)), Next(l, t2, Arrive(p));
    assert |s3.queues.Get(Realtime)| == 0 && |s3.queues.Get(Normal)| > 0 && |s3.queues.Get(Bulk)| == 0;
    ops := RefillThenTellApart(l, s3, t3, Bulk);
    TellsApartLater(l, s2, t2, Arrive(p), ops);
    ops := [Arrive(p)] + ops;
    TellsApartLater(l, s1, t1, Serve, ops);
    ops := [Serve] + ops;
    TellsApartLater(l, s, t, Arrive(giant), ops);
    ops := [Arrive(giant)] + ops;
  }

  lemma {:induction false} BounceTellsApart(l: Limits, s: State) returns (ops: seq<Op>)
    requires Inv(l, s) && Roomy(l) && !BounceIsExact(s)
    ensures TellsApart(l, Bounced(s), s, ops)
  {
    hide Inv, Next, Bounced, Outputs;
    BounceChangesDeficitsOnly(l, s);
    BounceDeficits(l, s);
    var t := Bounced(s);
    assert Twins(l, t, s) && Twins(l, s, t);
    if |s.queues.normal| == 0 {
      ops := RefillThenTellApart(l, t, s, Normal);
    } else if |s.queues.bulk| == 0 {
      ops := RefillThenTellApart(l, s, t, Bulk);
    } else {
      ops := RoundsTellApart(l, t, s);
    }
  }

  /** With the normal or the bulk queue empty the deficits decide nothing. */
  lemma OneClassTwins(l: Limits, s: State, t: State, op: Op)
    requires Twins(l, s, t) && (|s.queues.normal| == 0 || |s.queues.bulk| == 0)
    ensures Twins(l, Next(l, s, op), Next(l, t, op)) && Dequeued(s).1 == Dequeued(t).1
  {
    hide Size, TotalSize, Enqueued, Inv, Bounced;
    match op
    case Arrive(p) => ArriveTwins(l, s, t, p);
    case Serve =>
      DequeuedKeepsInv(l, s);
      DequeuedKeepsInv(l, t);
    case Bounce =>
      BounceChangesDeficitsOnly(l, s);
      BounceChangesDeficitsOnly(l, t);
  }

  /** Where a class has no capacity, its queue stays empty and deficits never show. */
  lemma {:induction false} NoRoomHidesDeficits(l: Limits, s: State, t: State, ops: seq<Op>)
    requires Twins(l, s, t) && !Roomy(l)
    ensures Outputs(l, s, ops) == Outputs(l, t, ops)
    decreases |ops|
  {
    hide Next, Dequeued;
    assert |s.queues.Get(Normal)| <= l.capacity.Get(Normal) && |s.queues.Get(Bulk)| <= l.capacity.Get(Bulk);
    hide Inv;
    if |ops| > 0 {
      OneClassTwins(l, s, t, ops[0]);
      NoRoomHidesDeficits(l, Next(l, s, ops[0]), Next(l, t, ops[0]), ops[1..]);
    }
  }

  /** Dequeuing a packet and restoring it goes unnoticed by every later service, whatever arrives, exactly when
      the bounce leaves the deficits alone or one of the two classes has no capacity at all. */
  lemma BounceIsInvisible(l: Limits, s: State)
    requires Inv(l, s)
    ensures BounceIsExact(s) || !Roomy(l) <==> forall ops :: Outputs(l, Bounced(s), ops) == Outputs(l, s, ops)
  {
    hide Inv, Outputs, Bounced, BounceIsExact;
    BounceDeficits(l, s);
    if !Roomy(l) {
      BounceChangesDeficitsOnly(l, s);
      forall ops ensures Outputs(l, Bounced(s), ops) == Outputs(l, s, ops) {
        NoRoomHidesDeficits(l, Bounced(s), s, ops);
      }
    } else if !BounceIsExact(s) {
      var ops := BounceTellsApart(l, s);
      assert Outputs(l, Bounced(s), ops) != Outputs(l, s, ops);
    }
  }

  const DEFAULT_LIMITS := Limits(Each(256, 1024, 4096), 16 * 1024 * 1024)

  const NORMAL := Packet([], Normal, 0, 0)
  const BULK := Packet([], Bulk, 0, 0)

  function Copies(p: Packet, n: nat): (q: Queue)
    ensures |q| == n && (n > 0 ==> q[0] == p && q[1..] == Copies(p, n - 1))
  {
    if n == 0 then [] else [p] + Copies(p, n - 1)
  }

  lemma {:induction false} OneMoreCopy(p: Packet, n: nat)
    ensures Copies(p, n) + [p] == Copies(p, n + 1)
  {
    if n > 0 { OneMoreCopy(p, n - 1); }
  }

  /** A state in which only those two packets have come and gone: `n` and `b` of them queued, `u` and `v` sent. */
  function Plain(n: nat, b: nat, d: nat, e: nat, u: nat, v: nat): (s: State)
  {
    State(Each([], Copies(NORMAL, n), Copies(BULK, b)), 0, d, e, Each(0, n + u, b + v), Each(0, u, v), Each(0, 0, 0), 0)
  }

  lemma EmptyIsPushed(s: State, c: Class)
    requires |s.queues.Get(c)| < DEFAULT_LIMITS.capacity.Get(c) && s.queuedBytes == 0
    ensures Next(DEFAULT_LIMITS, s, Arrive(Packet([], c, 0, 0))) == Pushed(s, Packet([], c, 0, 0))
  {
    hide Pushed, ShedBulk;
  }

  lemma PlainArrive(n: nat, b: nat, d: nat, e: nat, u: nat, v: nat)
    requires n < 1024 && b < 4096
    ensures Next(DEFAULT_LIMITS, Plain(n, b, d, e, u, v), Arrive(NORMAL)) == Plain(n + 1, b, d, e, u, v)
    ensures Next(DEFAULT_LIMITS, Plain(n, b, d, e, u, v), Arrive(BULK)) == Plain(n, b + 1, d, e, u, v)
  {
    hide Copies, ShedBulk, Enqueued, Next;
    OneMoreCopy(NORMAL, n);
    OneMoreCopy(BULK, b);
    EmptyIsPushed(Plain(n, b, d, e, u, v), Normal);
    EmptyIsPushed(Plain(n, b, d, e, u, v), Bulk);
  }

  lemma PlainServe(n: nat, b: nat, d: nat, e: nat, u: nat, v: nat)
    requires n > 0 && b > 0
    ensures var r := Dequeued(Plain(n, b, d, e, u, v));
            if d < 3 then r == (Plain(n - 1, b, d + 1, e, u + 1, v), Some(NORMAL))
            else if e == 0 then r == (Plain(n, b - 1, d, 1, u, v + 1), Some(BULK))
            else r == (Plain(n - 1, b, 1, 0, u + 1, v), Some(NORMAL))
  {
    hide Copies;
  }

  lemma Step(s: State, op: Op, ops: seq<Op>)
    ensures After(DEFAULT_LIMITS, s, [op] + ops) == After(DEFAULT_LIMITS, Next(DEFAULT_LIMITS, s, op), ops)
    ensures Outputs(DEFAULT_LIMITS, s, [op] + ops)
         == (if op.Serve? then [Dequeued(s).1] else []) + Outputs(DEFAULT_LIMITS, Next(DEFAULT_LIMITS, s, op), ops)
  {
    hide Inv, Enqueued, Dequeued, Bounced;
    assert ([op] + ops)[1..] == ops;
  }

  /** `n` further normal packets arrive, and the run goes on. */
  lemma {:induction false} PlainArrivals(n: nat, k: nat, b: nat, d: nat, e: nat, u: nat, v: nat, ops: seq<Op>)
    requires n + k <= 1024 && b < 4096
    ensures After(DEFAULT_LIMITS, Plain(k, b, d, e, u, v), seq(n, _ => Arrive(NORMAL)) + ops)
         == After(DEFAULT_LIMITS, Plain(k + n, b, d, e, u, v), ops)
    ensures Outputs(DEFAULT_LIMITS, Plain(k, b, d, e, u, v), seq(n, _ => Arrive(NORMAL)) + ops)
         == Outputs(DEFAULT_LIMITS, Plain(k + n, b, d, e, u, v), ops)
  {
    hide Plain, After, Outputs, Next, Dequeued;
    var rest := seq(if n == 0 then 0 else n - 1, _ => Arrive(NORMAL)) + ops;
    if n == 0 {
      assert seq(n, _ => Arrive(NORMAL)) + ops == ops;
    } else {
      assert seq(n, _ => Arrive(NORMAL)) + ops == [Arrive(NORMAL)] + rest;
      Step(Plain(k, b, d, e, u, v), Arrive(NORMAL), rest);
      PlainArrive(k, b, d, e, u, v);
      PlainArrivals(n - 1, k + 1, b, d, e, u, v, ops);
    }
  }

  const SERVE_FOUR := [Serve, Serve, Serve, Serve]

  /** Four services where the round stands at (0, 0) or (3, 1), and where it stands at (0, 1). */
  lemma FourServices(d: nat, e: nat, u: nat, v: nat)
    requires (d, e) in {(0, 0), (3, 1), (0, 1)}
    ensures var s := Plain(4, 1, d, e, u, v);
            if (d, e) == (0, 1) then
              Outputs(DEFAULT_LIMITS, s, SERVE_FOUR) == [Some(NORMAL), Some(NORMAL), Some(NORMAL), Some(NORMAL)]
            else
              && After(DEFAULT_LIMITS, s, SERVE_FOUR) == Plain(1, 0, 3, 1, u + 3, v + 1)
              && Outputs(DEFAULT_LIMITS, s, SERVE_FOUR) == [Some(NORMAL), Some(NORMAL), Some(NORMAL), Some(BULK)]
  {
    hide Plain, Dequeued;
    var s := Plain(4, 1, d, e, u, v);
    PlainServe(4, 1, d, e, u, v);
    if (d, e) == (0, 1) {
      PlainServe(3, 1, 1, 1, u + 1, v);
      PlainServe(2, 1, 2, 1, u + 2, v);
      PlainServe(1, 1, 3, 1, u + 3, v);
    } else {
      PlainServe(3, 1, 1, 0, u + 1, v);
      PlainServe(2, 1, 2, 0, u + 2, v);
      PlainServe(1, 1, 3, 0, u + 3, v);
    }
    FourSteps(s);
  }

  lemma FourSteps(s: State)
    ensures var s1 := Dequeued(s).0;
            var s2 := Dequeued(s1).0;
            var s3 := Dequeued(s2).0;
            && After(DEFAULT_LIMITS, s, SERVE_FOUR) == Dequeued(s3).0
            && Outputs(DEFAULT_LIMITS, s, SERVE_FOUR)
            == [Dequeued(s).1, Dequeued(s1).1, Dequeued(s2).1, Dequeued(s3).1]
  {
    hide Dequeued, Inv;
    var s1 := Dequeued(s).0;
    var s2 := Dequeued(s1).0;
    var s3 := Dequeued(s2).0;
    assert SERVE_FOUR == [Serve] + ([Serve] + ([Serve] + ([Serve] + [])));
    Step(s, Serve, [Serve] + ([Serve] + ([Serve] + [])));
    Step(s1, Serve, [Serve] + ([Serve] + []));
    Step(s2, Serve, [Serve] + []);
    Step(s3, Serve, []);
  }

  /** Four normal packets and a bulk one arrive; four packets are sent. */
  const BEFORE_BOUNCE := seq(4, _ => Arrive(NORMAL)) + ([Arrive(BULK)] + SERVE_FOUR)

  /** Three normal packets and a bulk one arrive; four packets are sent. */
  const AFTER_BOUNCE := seq(3, _ => Arrive(NORMAL)) + ([Arrive(BULK)] + SERVE_FOUR)

  /** A bounce that shows, reached by a scheduler with the default limits: the one packet left is normal, and it is
      taken and put back. Without that the last of the next four packets sent is the bulk one; with it, a normal one:
      the lone normal packet's round was started afresh, the bulk share of the old round stays used. */
  lemma BounceCanShow()
    ensures var s := After(DEFAULT_LIMITS, START, BEFORE_BOUNCE);
            && Outputs(DEFAULT_LIMITS, s, AFTER_BOUNCE) == [Some(NORMAL), Some(NORMAL), Some(NORMAL), Some(BULK)]
            && Outputs(DEFAULT_LIMITS, s, [Bounce] + AFTER_BOUNCE)
            == [Some(NORMAL), Some(NORMAL), Some(NORMAL), Some(NORMAL)]
  {
    hide Next, Dequeued, Plain, After, Outputs;
    var s := Plain(1, 0, 3, 1, 3, 1);
    assert START == Plain(0, 0, 0, 0, 0, 0) by { StartIsPlain(); }
    PlainArrivals(4, 0, 0, 0, 0, 0, 0, [Arrive(BULK)] + SERVE_FOUR);
    BulkThenFour(0, 0, 0, 0);
    assert After(DEFAULT_LIMITS, START, BEFORE_BOUNCE) == s;
    PlainArrivals(3, 1, 0, 3, 1, 3, 1, [Arrive(BULK)] + SERVE_FOUR);
    BulkThenFour(3, 1, 3, 1);
    Step(s, Bounce, AFTER_BOUNCE);
    BouncedPlain();
    PlainArrivals(3, 1, 0, 0, 1, 3, 1, [Arrive(BULK)] + SERVE_FOUR);
    BulkThenFour(0, 1, 3, 1);
  }

  lemma StartIsPlain()
    ensures START == Plain(0, 0, 0, 0, 0, 0)
  {
  }

  lemma BouncedPlain()
    ensures Next(DEFAULT_LIMITS, Plain(1, 0, 3, 1, 3, 1), Bounce) == Plain(1, 0, 0, 1, 3, 1)
  {
  }

  lemma BulkThenFour(d: nat, e: nat, u: nat, v: nat)
    requires (d, e) in {(0, 0), (3, 1), (0, 1)}
    ensures var s, ops := Plain(4, 0, d, e, u, v), [Arrive(BULK)] + SERVE_FOUR;
            if (d, e) == (0, 1) then
              Outputs(DEFAULT_LIMITS, s, ops) == [Some(NORMAL), Some(NORMAL), Some(NORMAL), Some(NORMAL)]
            else
              && After(DEFAULT_LIMITS, s, ops) == Plain(1, 0, 3, 1, u + 3, v + 1)
              && Outputs(DEFAULT_LIMITS, s, ops) == [Some(NORMAL), Some(NORMAL), Some(NORMAL), Some(BULK)]
  {
    hide Plain, After, Outputs, Next, Dequeued;
    Step(Plain(4, 0, d, e, u, v), Arrive(BULK), SERVE_FOUR);
    PlainArrive(4, 0, d, e, u, v);
    FourServices(d, e, u, v);
  }

  // ----- the class -----

  class Scheduler {
    const limits: Limits
    var queues: Each<Queue>
    var queuedBytes: int
    var normalDeficit: nat
    var bulkDeficit: nat
    var enqueued: Each<nat>
    var dequeued: Each<nat>
    var dropped: Each<nat>
    var shed: nat

    ghost function Model(): (s: State)
      reads this
    {
      State(queues, queuedBytes, normalDeficit, bulkDeficit, enqueued, dequeued, dropped, shed)
    }

    ghost predicate Valid()
      reads this
    {
      Inv(limits, Model())
    }

    constructor (limits: Limits)
      ensures Valid() && this.limits == limits && Model() == START
    {
      this.limits := limits;
      queues, queuedBytes, normalDeficit, bulkDeficit := Each([], [], []), 0, 0, 0;
      enqueued, dequeued, dropped, shed := Each(0, 0, 0), Each(0, 0, 0), Each(0, 0, 0), 0;
    }

    predicate Room(c: Class, bytes: nat)
      reads this
      ensures Room(c, bytes) <==> HasRoom(limits, Model(), c, bytes)
    {
      |queues.Get(c)| < limits.capacity.Get(c) && queuedBytes + bytes <= limits.totalBytes
    }

    method ShedBulkFor(needed: nat)
      requires Valid()
      modifies this
      ensures Valid() && Model() == ShedBulk(limits, old(Model()), needed)
    {
      hide Size;
      ghost var start := Model();
      while |queues.bulk| > 0 && queuedBytes + needed > limits.totalBytes
        invariant Valid() && ShedBulk(limits, Model(), needed) == ShedBulk(limits, start, needed)
        decreases |queues.bulk|
      {
        DropKeepsInv(limits, Model());
        queuedBytes := queuedBytes - |queues.bulk[0].bytes|;
        queues := queues.Set(Bulk, queues.bulk[1..]);
        dropped := dropped.Set(Bulk, dropped.bulk + 1);
        shed := shed + 1;
      }
    }

    method Enqueue(p: Packet) returns (ok: bool)
      requires Valid()
      modifies this
      ensures Valid() && (Model(), ok) == Enqueued(limits, old(Model()), p)
    {
      hide ShedBulk, Inv;
      EnqueuedKeepsInv(limits, Model(), p);
      var c, bytes := p.kind, |p.bytes|;
      if !Room(c, bytes) {
        if c != Bulk && queuedBytes + bytes > limits.totalBytes { ShedBulkFor(bytes); }
        if !Room(c, bytes) {
          dropped := dropped.Set(c, dropped.Get(c) + 1);
          return false;
        }
      }
      queues := queues.Set(c, queues.Get(c) + [p]);
      queuedBytes := queuedBytes + bytes;
      enqueued := enqueued.Set(c, enqueued.Get(c) + 1);
      return true;
    }

    method Restore(p: Packet)
      modifies this
      ensures Model() == Restored(old(Model()), p)
    {
      var c := p.kind;
      queuedBytes := queuedBytes + |p.bytes|;
      if dequeued.Get(c) > 0 { dequeued := dequeued.Set(c, dequeued.Get(c) - 1); }
      if c == Normal && normalDeficit > 0 { normalDeficit := normalDeficit - 1; }
      if c == Bulk && bulkDeficit > 0 { bulkDeficit := bulkDeficit - 1; }
      queues := queues.Set(c, [p] + queues.Get(c));
    }

    method Take(c: Class) returns (p: Option<Packet>)
      modifies this
      ensures |old(queues.Get(c))| == 0 ==> p == None && Model() == old(Model())
      ensures |old(queues.Get(c))| > 0 ==> p == Some(old(queues.Get(c))[0]) && Model() == Took(old(Model()), c)
    {
      if |queues.Get(c)| == 0 { return None; }
      p := Some(queues.Get(c)[0]);
      queuedBytes := queuedBytes - |queues.Get(c)[0].bytes|;
      queues := queues.Set(c, queues.Get(c)[1..]);
      dequeued := dequeued.Set(c, dequeued.Get(c) + 1);
    }

    method Dequeue() returns (p: Option<Packet>)
      requires Valid()
      modifies this
      ensures Valid() && (Model(), p) == Dequeued(old(Model()))
    {
      hide Inv, Took;
      DequeuedKeepsInv(limits, Model());
      p := Take(Realtime);
      if p.Some? { return; }
      if |queues.normal| == 0 && |queues.bulk| == 0 { return None; }
      if |queues.normal| == 0 {
        bulkDeficit := 0;
        p := Take(Bulk);
        return;
      }
      if |queues.bulk| == 0 {
        normalDeficit := 0;
        p := Take(Normal);
        return;
      }
      if normalDeficit < NORMAL_WEIGHT {
        normalDeficit := normalDeficit + 1;
        p := Take(Normal);
        return;
      }
      if bulkDeficit < BULK_WEIGHT {
        bulkDeficit := bulkDeficit + 1;
        p := Take(Bulk);
        return;
      }
      normalDeficit, bulkDeficit := 1, 0;
      p := Take(Normal);
    }

    /** A packet that could not be sent goes back to the head of its queue. */
    method DequeueAndRestore()
      requires Valid()
      modifies this
      ensures Valid() && Model() == Bounced(old(Model()))
    {
      hide Inv, Dequeued, Restored;
      BounceChangesDeficitsOnly(limits, Model());
      var p := Dequeue();
      if p.Some? { Restore(p.value); }
    }
  }
}
