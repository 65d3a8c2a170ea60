/**
 The receive path of the worker: packets are staged, decrypted together and committed in order. It
 must deliver exactly what opening each packet on arrival would deliver, and nothing twice.
 */
module ReceivePath {
  import opened ReplayWindow

  /** A sealed packet: `authentic` is whether it decrypts under its session's receive keys. */
  datatype Packet = Packet(key: nat, counter: nat, authentic: bool, body: seq<int>)

  type Table = map<nat, History>

  const MAXIMUM_SESSIONS := 1024

  // ----- one session -----

  datatype Opening = Opening(history: History, ok: bool)

  /** The cheap test before decryption. */
  predicate WindowRefuses(h: History, counter: nat)
  {
    counter < h.highest && h.highest - counter >= WINDOW
  }

  function Commit(h: History, counter: nat): (r: Opening)
  {
    Opening(Recorded(h, counter), Judge(h, counter) == Accepted)
  }

  /** Opening one packet at once: window test, decryption, commit. */
  function Open(h: History, p: Packet): (r: Opening)
  {
    if WindowRefuses(h, p.counter) || !p.authentic then Opening(h, false)
    else Commit(h, p.counter)
  }

  /** The window test never decides anything the commit would not decide the same way. */
  lemma OpenIsCommit(h: History, p: Packet)
    requires Coherent(h)
    ensures Open(h, p) == if p.authentic then Commit(h, p.counter) else Opening(h, false)
  {
  }

  /** A packet refused by an earlier window is refused by every later one. */
  lemma RefusalIsStable(h: History, later: History, p: Packet)
    requires Coherent(h) && Coherent(later)
    requires h.initialized ==> later.initialized && h.highest <= later.highest
    requires WindowRefuses(h, p.counter)
    ensures Open(later, p) == Opening(later, false)
  {
  }

  // ----- reference behaviour: one packet at a time -----

  /** Sessions, handshakes waiting for their first packet, and the packets delivered so far. */
  datatype World = World(sessions: Table, waiting: set<nat>, delivered: seq<Packet>)

  ghost predicate Sane(w: World)
  {
    && w.sessions.Keys !! w.waiting
    && forall k :: k in w.sessions ==> Coherent(w.sessions[k])
  }

  /** Handles one packet immediately. The first authentic packet of a waiting handshake opens the
      session, whose window then already holds that packet's counter; with the session table full the
      handshake is dropped and the packet with it. */
  function Arrive(w: World, p: Packet): (r: World)
  {
    if p.key in w.sessions then
      var o := Open(w.sessions[p.key], p);
      w.(sessions := w.sessions[p.key := o.history],
         delivered := if o.ok then w.delivered + [p] else w.delivered)
    else if p.key in w.waiting then
      var o := Open(FRESH, p);
      if !o.ok then w
      else if |w.sessions| >= MAXIMUM_SESSIONS then w.(waiting := w.waiting - {p.key})
      else World(w.sessions[p.key := o.history], w.waiting - {p.key}, w.delivered + [p])
    else w
  }

  function ArriveAll(w: World, ps: seq<Packet>): (r: World)
  {
    if |ps| == 0 then w else Arrive(ArriveAll(w, ps[..|ps| - 1]), ps[|ps| - 1])
  }

  lemma ArriveIsSane(w: World, p: Packet)
    requires Sane(w)
    ensures Sane(Arrive(w, p))
    ensures w.delivered <= Arrive(w, p).delivered
    ensures w.sessions.Keys <= Arrive(w, p).sessions.Keys
  {
    if p.key in w.sessions {
      RecordedIsCoherent(w.sessions[p.key], p.counter);
    } else {
      RecordedIsCoherent(FRESH, p.counter);
    }
  }

  lemma {:induction false} ArriveAllIsSane(w: World, ps: seq<Packet>)
    requires Sane(w)
    ensures Sane(ArriveAll(w, ps))
  {
    if |ps| != 0 {
      ArriveAllIsSane(w, ps[..|ps| - 1]);
      ArriveIsSane(ArriveAll(w, ps[..|ps| - 1]), ps[|ps| - 1]);
    }
  }

  /** A packet is delivered exactly when it is authentic and either new to the window of its session, or the first of a
      waiting handshake for which there is room. */
  lemma DeliveredExactly(w: World, p: Packet)
    requires Sane(w)
    ensures var r := Arrive(w, p);
            && (r.delivered == w.delivered + [p] || r.delivered == w.delivered)
            && (r.delivered == w.delivered + [p] <==>
                  p.authentic
                  && if p.key in w.sessions then Judge(w.sessions[p.key], p.counter) == Accepted
                     else p.key in w.waiting && |w.sessions| < 1024)
            && (forall k :: k != p.key ==>
                  (k in r.sessions <==> k in w.sessions) && (k in r.waiting <==> k in w.waiting))
            && (forall k :: k != p.key && k in w.sessions ==> r.sessions[k] == w.sessions[k])
  {
    if p.key in w.sessions { OpenIsCommit(w.sessions[p.key], p); } else { OpenIsCommit(FRESH, p); }
  }

  /** Everything delivered under a key is in the window of that key's session, once. */
  ghost predicate DeliveredOnce(w: World)
  {
    && (forall i :: 0 <= i < |w.delivered| ==>
          w.delivered[i].key in w.sessions
          && w.delivered[i].counter in w.sessions[w.delivered[i].key].accepted)
    && (forall i, j :: 0 <= i < j < |w.delivered| && w.delivered[i].key == w.delivered[j].key ==>
          w.delivered[i].counter != w.delivered[j].counter)
  }

  lemma ArriveDeliversOnce(w: World, p: Packet)
    requires Sane(w) && DeliveredOnce(w)
    ensures DeliveredOnce(Arrive(w, p))
  {
    if p.key in w.sessions {
      RecordedIsCoherent(w.sessions[p.key], p.counter);
    }
  }

  lemma {:induction false} ArriveAllDeliversOnce(w: World, ps: seq<Packet>)
    requires Sane(w) && DeliveredOnce(w)
    ensures DeliveredOnce(ArriveAll(w, ps))
  {
    if |ps| != 0 {
      ArriveAllDeliversOnce(w, ps[..|ps| - 1]);
      ArriveAllIsSane(w, ps[..|ps| - 1]);
      ArriveDeliversOnce(ArriveAll(w, ps[..|ps| - 1]), ps[|ps| - 1]);
    }
  }

  // ----- staged behaviour -----

  /** Committing one decrypted job. */
  function SettleOne(w: World, p: Packet): (r: World)
  {
    if !p.authentic || p.key !in w.sessions then w
    else
      var o := Commit(w.sessions[p.key], p.counter);
      w.(sessions := w.sessions[p.key := o.history],
         delivered := if o.ok then w.delivered + [p] else w.delivered)
  }

  function SettleAll(w: World, jobs: seq<Packet>): (r: World)
  {
    if |jobs| == 0 then w else SettleOne(SettleAll(w, jobs[..|jobs| - 1]), jobs[|jobs| - 1])
  }

  ghost predicate Grown(w: World, later: World)
  {
    && later.sessions.Keys == w.sessions.Keys && later.waiting == w.waiting
    && forall k :: k in w.sessions && w.sessions[k].initialized ==>
         later.sessions[k].initialized && w.sessions[k].highest <= later.sessions[k].highest
  }

  lemma {:induction false} SettleGrows(w: World, jobs: seq<Packet>)
    requires Sane(w)
    ensures Sane(SettleAll(w, jobs)) && Grown(w, SettleAll(w, jobs))
  {
    if |jobs| != 0 {
      var v, p := SettleAll(w, jobs[..|jobs| - 1]), jobs[|jobs| - 1];
      SettleGrows(w, jobs[..|jobs| - 1]);
      if p.key in v.sessions { RecordedIsCoherent(v.sessions[p.key], p.counter); }
    }
  }

  /** With the window test at staging time, against a window that may since have moved on: staging
      the packet or refusing it there comes to the same as opening it after the jobs before it. */
  lemma StagingIsArriving(w: World, jobs: seq<Packet>, p: Packet)
    requires Sane(w) && p.key in w.sessions
    ensures WindowRefuses(w.sessions[p.key], p.counter) ==>
              Arrive(SettleAll(w, jobs), p) == SettleAll(w, jobs)
    ensures !WindowRefuses(w.sessions[p.key], p.counter) ==>
              SettleAll(w, jobs + [p]) == Arrive(SettleAll(w, jobs), p)
  {
    SettleGrows(w, jobs);
    var v := SettleAll(w, jobs);
    assert (jobs + [p])[..|jobs|] == jobs;
    if WindowRefuses(w.sessions[p.key], p.counter) {
      RefusalIsStable(w.sessions[p.key], v.sessions[p.key], p);
      assert v.sessions[p.key := v.sessions[p.key]] == v.sessions;
    } else {
      OpenIsCommit(v.sessions[p.key], p);
      assert v.sessions[p.key := v.sessions[p.key]] == v.sessions;
    }
  }

  // ----- the worker -----

  class Worker {
    var world: World
    var jobs: seq<Packet>
    const capacity: nat

    /** All packets taken in so far, in the order the worker handles them. */
    ghost var arrived: seq<Packet>
    ghost var start: World

    /** Settling the staged jobs now would give what handling each packet on arrival gives. */
    ghost predicate Valid()
      reads this
    {
      && Sane(world) && Sane(start)
      && (forall i :: 0 <= i < |jobs| ==> jobs[i].key in world.sessions)
      && SettleAll(world, jobs) == ArriveAll(start, arrived)
    }

    constructor (w: World, batch: nat)
      requires Sane(w)
      ensures Valid() && jobs == [] && arrived == [] && start == w && world == w
    {
      world, jobs, capacity := w, [], batch;
      arrived, start := [], w;
    }

    /** Returns false when the packet has no session and must be handled at once. */
    method StageReceive(p: Packet) returns (staged: bool)
      requires Valid()
      modifies this
      ensures Valid() && start == old(start)
      ensures staged <==> p.key in old(world).sessions
      ensures staged ==> arrived == old(arrived) + [p]
      ensures !staged ==> arrived == old(arrived) && world == old(world) && jobs == old(jobs)
    {
      if p.key !in world.sessions { return false; }
      if |jobs| >= capacity {
        var _ := SettleReceive();
      }
      StagingIsArriving(world, jobs, p);
      assert (arrived + [p])[..|arrived|] == arrived;
      arrived := arrived + [p];
      if WindowRefuses(world.sessions[p.key], p.counter) { return true; }
      jobs := jobs + [p];
      return true;
    }

    /** Decryption of the whole batch; it reads no session state but the keys. */
    static method DecryptAll(jobs: seq<Packet>) returns (results: seq<bool>)
      ensures |results| == |jobs| && forall k :: 0 <= k < |jobs| ==> results[k] == jobs[k].authentic
    {
      results := [];
      for index := 0 to |jobs|
        invariant |results| == index && forall k :: 0 <= k < index ==> results[k] == jobs[k].authentic
      {
        results := results + [jobs[index].authentic];
      }
    }

    /** Decrypts every job, then commits them in order. */
    method SettleReceive() returns (delivered: nat)
      requires Valid()
      modifies this
      ensures Valid() && jobs == [] && start == old(start) && arrived == old(arrived)
      ensures world == ArriveAll(start, arrived)
      ensures world.sessions.Keys == old(world).sessions.Keys
      ensures delivered == |world.delivered| - |old(world).delivered|
    {
      var results := DecryptAll(jobs);
      delivered := 0;
      ghost var was := world;
      for index := 0 to |jobs|
        invariant jobs == old(jobs) && arrived == old(arrived) && start == old(start)
        invariant world == SettleAll(was, jobs[..index])
        invariant world.sessions.Keys == was.sessions.Keys
        invariant delivered == |world.delivered| - |was.delivered|
      {
        var p := jobs[index];
        assert jobs[..index + 1][..index] == jobs[..index];
        if !results[index] { continue; }
        var outcome := Commit(world.sessions[p.key], p.counter);
        world := world.(sessions := world.sessions[p.key := outcome.history]);
        if !outcome.ok { continue; }
        world := world.(delivered := world.delivered + [p]);
        delivered := delivered + 1;
      }
      assert jobs[..|jobs|] == jobs;
      SettleGrows(was, jobs);
      jobs := [];
    }

    /** Opens a packet at once; only used when nothing is staged. */
    method ForwardSealed(p: Packet)
      requires Valid() && jobs == []
      modifies this
      ensures Valid() && jobs == [] && start == old(start)
      ensures arrived == old(arrived) + [p]
      ensures world == ArriveAll(start, arrived)
    {
      ArriveIsSane(world, p);
      assert (arrived + [p])[..|arrived|] == arrived;
      arrived := arrived + [p];
      if p.key in world.sessions {
        var outcome := Open(world.sessions[p.key], p);
        world := world.(sessions := world.sessions[p.key := outcome.history]);
        if outcome.ok { world := world.(delivered := world.delivered + [p]); }
      } else if p.key in world.waiting {
        var outcome := Open(FRESH, p);
        if outcome.ok {
          world := world.(waiting := world.waiting - {p.key});
          if |world.sessions| < MAXIMUM_SESSIONS {
            world := world.(sessions := world.sessions[p.key := outcome.history], delivered := world.delivered + [p]);
          }
        }
      }
    }

    /** One received datagram: its own packet unless it was a parity symbol, and the packets the
        erasure code recovered with it. */
    method Datagram(own: seq<Packet>, recovered: seq<Packet>)
      requires Valid() && |own| <= 1
      modifies this
      ensures Valid() && start == old(start)
      ensures arrived == old(arrived) + Order(own, recovered, ArriveAll(start, old(arrived)).sessions)
    {
      hide SettleAll, ArriveAll, Sane;
      SettleGrows(world, jobs);
      var staged := false;
      if |own| == 1 {
        staged := StageReceive(own[0]);
      }
      ghost var before := arrived;
      if |recovered| > 0 {
        var _ := SettleReceive();
        ForwardAll(recovered);
      }
      assert arrived == before + recovered;
      if |own| == 1 && !staged {
        var _ := SettleReceive();
        ForwardSealed(own[0]);
      }
    }

    method ForwardAll(packets: seq<Packet>)
      requires Valid() && jobs == []
      modifies this
      ensures Valid() && jobs == [] && start == old(start)
      ensures arrived == old(arrived) + packets
    {
      hide SettleAll, ArriveAll, Sane;
      for i := 0 to |packets|
        invariant Valid() && jobs == [] && start == old(start)
        invariant arrived == old(arrived) + packets[..i]
      {
        assert packets[..i + 1] == packets[..i] + [packets[i]];
        ForwardSealed(packets[i]);
      }
      assert packets[..|packets|] == packets;
    }

    /** A whole batch of datagrams comes to exactly what opening every packet on arrival, datagram after
        datagram, comes to; no packet of the batch is skipped and none is delivered twice. */
    method PumpUdpToTun(batch: seq<(seq<Packet>, seq<Packet>)>)
      requires Valid() && forall i :: 0 <= i < |batch| ==> |batch[i].0| <= 1
      modifies this
      ensures Valid() && jobs == [] && start == old(start)
      ensures arrived == old(arrived) + InOrder(ArriveAll(start, old(arrived)), batch)
      ensures old(jobs) == [] ==> world == ArriveAll(old(world), InOrder(old(world), batch))
      ensures multiset(arrived) == multiset(old(arrived)) + Contents(batch)
      ensures world == ArriveAll(start, arrived)
      ensures DeliveredOnce(start) ==> DeliveredOnce(world)
    {
      hide SettleAll, ArriveAll, Sane, DeliveredOnce, Order, Contents;
      ghost var first := ArriveAll(start, arrived);
      SettleNothing(world);
      for i := 0 to |batch|
        invariant Valid() && start == old(start)
        invariant arrived == old(arrived) + InOrder(first, batch[..i])
      {
        assert batch[..i + 1][..i] == batch[..i];
        ArriveAllConcat(start, old(arrived), InOrder(first, batch[..i]));
        Datagram(batch[i].0, batch[i].1);
      }
      assert batch[..|batch|] == batch;
      var _ := SettleReceive();
      ArriveAllConcat(start, old(arrived), InOrder(first, batch));
      InOrderSkipsNothing(first, batch);
      if DeliveredOnce(start) {
        assert Sane(start);
        ArriveAllDeliversOnce(start, arrived);
      }
    }
  }

  lemma SettleNothing(w: World)
    ensures SettleAll(w, []) == w
  {
  }

  lemma {:induction false} ArriveAllConcat(w: World, a: seq<Packet>, b: seq<Packet>)
    ensures ArriveAll(w, a + b) == ArriveAll(ArriveAll(w, a), b)
  {
    hide Arrive;
    if |b| == 0 {
      assert a + b == a;
    } else {
      ArriveAllConcat(w, a, b[..|b| - 1]);
      assert (a + b)[..|a + b| - 1] == a + b[..|b| - 1];
    }
  }

  /** The packets of a batch in the order in which they are handled: datagram after datagram. */
  ghost function InOrder(w: World, batch: seq<(seq<Packet>, seq<Packet>)>): (ps: seq<Packet>)
  {
    if |batch| == 0 then []
    else
      var front, last := InOrder(w, batch[..|batch| - 1]), batch[|batch| - 1];
      front + Order(last.0, last.1, ArriveAll(w, front).sessions)
  }

  /** That order takes every packet of the batch, as often as it occurs. */
  lemma {:induction false} InOrderSkipsNothing(w: World, batch: seq<(seq<Packet>, seq<Packet>)>)
    ensures multiset(InOrder(w, batch)) == Contents(batch)
  {
    hide ArriveAll;
    if |batch| > 0 { InOrderSkipsNothing(w, batch[..|batch| - 1]); }
  }

  /** All packets of a batch. */
  ghost function Contents(batch: seq<(seq<Packet>, seq<Packet>)>): (m: multiset<Packet>)
  {
    if |batch| == 0 then multiset{}
    else
      var last := batch[|batch| - 1];
      Contents(batch[..|batch| - 1]) + multiset(last.0) + multiset(last.1)
  }

  /** The order in which one datagram's packets are handled: a packet with a session is staged
      first, one without a session waits until the recovered packets are through. */
  function Order(own: seq<Packet>, recovered: seq<Packet>, sessions: Table): (r: seq<Packet>)
  {
    if |own| == 1 && own[0].key !in sessions then recovered + own else own + recovered
  }

  // ----- own packet first or last -----

  predicate Delivers(w: World, p: Packet)
  {
    |Arrive(w, p).delivered| > |w.delivered|
  }

  /** The first of the packets that the world would deliver, if there is one, is `p` itself. */
  predicate FirstIs(w: World, ps: seq<Packet>, p: Packet)
  {
    |ps| > 0 ==> if Delivers(w, ps[0]) then ps[0] == p else FirstIs(w, ps[1..], p)
  }

  lemma UndeliveredIsNothing(w: World, q: Packet)
    requires |w.sessions| < MAXIMUM_SESSIONS && !Delivers(w, q)
    ensures Arrive(w, q) == w
  {
    if q.key in w.sessions { assert w.sessions[q.key := w.sessions[q.key]] == w.sessions; }
  }

  lemma ForgedIsNothing(w: World, q: Packet)
    requires !q.authentic || (q.key !in w.sessions && q.key !in w.waiting)
    ensures Arrive(w, q) == w
  {
    if q.key in w.sessions { assert w.sessions[q.key := w.sessions[q.key]] == w.sessions; }
  }

  /** A key that nobody knows stays unknown, and what was delivered stays delivered. */
  lemma {:induction false} ArriveAllGrows(w: World, ps: seq<Packet>, k: nat)
    ensures k !in w.sessions && k !in w.waiting ==>
              k !in ArriveAll(w, ps).sessions && k !in ArriveAll(w, ps).waiting
    ensures w.delivered <= ArriveAll(w, ps).delivered
  {
    if |ps| > 0 { ArriveAllGrows(w, ps[..|ps| - 1], k); }
  }

  /** The packet has been delivered under its key. */
  ghost predicate Taken(w: World, p: Packet)
  {
    p.key in w.sessions && p.counter in w.sessions[p.key].accepted
  }

  lemma {:induction false} TakenStays(w: World, ps: seq<Packet>, p: Packet)
    requires Sane(w) && Taken(w, p)
    ensures Sane(ArriveAll(w, ps)) && Taken(ArriveAll(w, ps), p)
    ensures Arrive(ArriveAll(w, ps), p) == ArriveAll(w, ps)
  {
    hide Sane;
    ArriveAllIsSane(w, ps);
    if |ps| > 0 {
      var v, q := ArriveAll(w, ps[..|ps| - 1]), ps[|ps| - 1];
      TakenStays(w, ps[..|ps| - 1], p);
      TakenOneStep(v, q, p);
    }
    TakenIsNothing(ArriveAll(w, ps), p);
  }

  lemma TakenOneStep(w: World, q: Packet, p: Packet)
    requires Sane(w) && Taken(w, p)
    ensures Taken(Arrive(w, q), p)
  {
  }

  lemma TakenIsNothing(w: World, p: Packet)
    requires Sane(w) && Taken(w, p)
    ensures Arrive(w, p) == w
  {
    assert w.sessions[p.key := w.sessions[p.key]] == w.sessions;
  }

  /** With the table full, dropping a waiting handshake before or after other packets is the same. */
  lemma {:induction false} FullTableCommutes(w: World, ps: seq<Packet>, p: Packet)
    requires |w.sessions| >= MAXIMUM_SESSIONS && p.authentic && p.key in w.waiting && p.key !in w.sessions
    ensures var v := ArriveAll(w, ps);
            && |v.sessions| >= MAXIMUM_SESSIONS && v.sessions.Keys == w.sessions.Keys
            && ArriveAll(Arrive(w, p), ps) == Arrive(v, p) == v.(waiting := v.waiting - {p.key})
  {
    hide Arrive;
    if |ps| > 0 {
      FullTableCommutes(w, ps[..|ps| - 1], p);
      FullTableStep(ArriveAll(w, ps[..|ps| - 1]), ps[|ps| - 1], p);
    }
    DropsHandshake(ArriveAll(w, ps), p);
  }

  lemma DropsHandshake(w: World, p: Packet)
    requires |w.sessions| >= MAXIMUM_SESSIONS && p.authentic && p.key !in w.sessions
    ensures Arrive(w, p) == w.(waiting := w.waiting - {p.key})
  {
    if p.key !in w.waiting { assert w.waiting - {p.key} == w.waiting; }
  }

  lemma FullTableStep(v: World, q: Packet, p: Packet)
    requires |v.sessions| >= MAXIMUM_SESSIONS && p.key !in v.sessions
    ensures var u := Arrive(v, q);
            && u.sessions.Keys == v.sessions.Keys && |u.sessions| >= MAXIMUM_SESSIONS
            && Arrive(v.(waiting := v.waiting - {p.key}), q) == u.(waiting := u.waiting - {p.key})
  {
    var u, dropped := Arrive(v, q), v.(waiting := v.waiting - {p.key});
    assert u.sessions.Keys == v.sessions.Keys;
    assert |u.sessions.Keys| == |u.sessions| && |v.sessions.Keys| == |v.sessions|;
    if q.key !in v.sessions {
      assert Arrive(dropped, q).waiting == u.waiting - {p.key};
    }
  }

  /** Packets that would not be delivered are not delivered after `p` either, and change nothing. */
  lemma StaysUndelivered(w: World, p: Packet, q: Packet)
    requires |w.sessions| < MAXIMUM_SESSIONS && p.authentic && p.key in w.waiting && p.key !in w.sessions
    requires !Delivers(w, q)
    ensures Arrive(Arrive(w, p), q) == Arrive(w, p)
  {
    var v := Arrive(w, p);
    if q.key in v.sessions { assert v.sessions[q.key := v.sessions[q.key]] == v.sessions; }
  }

  lemma OpensWaiting(w: World, p: Packet)
    requires |w.sessions| < MAXIMUM_SESSIONS && p.authentic && p.key in w.waiting && p.key !in w.sessions
    ensures Taken(Arrive(w, p), p) && Arrive(w, p).delivered == w.delivered + [p] && Delivers(w, p)
  {
  }

  /** With room in the table, opening the first packet of a waiting handshake before or after the others comes
      to the same exactly when the first of the others that would be delivered is that very packet. */
  lemma {:induction false} OpeningCommutes(w: World, ps: seq<Packet>, p: Packet)
    requires Sane(w) && |w.sessions| < MAXIMUM_SESSIONS
    requires p.authentic && p.key in w.waiting && p.key !in w.sessions
    ensures ArriveAll(Arrive(w, p), ps) == ArriveAll(w, ps + [p]) <==> FirstIs(w, ps, p)
    decreases |ps|
  {
    hide Arrive, Sane;
    OpensWaiting(w, p);
    var v := Arrive(w, p);
    if |ps| == 0 {
      assert ps + [p] == [p] && [p][..0] == [];
    } else {
      var q, rest := ps[0], ps[1..];
      assert ps == [q] + rest && ps + [p] == [q] + (rest + [p]);
      ArriveAllConcat(v, [q], rest);
      ArriveAllConcat(w, [q], rest + [p]);
      ArriveOne(v, q);
      ArriveOne(w, q);
      if !Delivers(w, q) {
        UndeliveredIsNothing(w, q);
        StaysUndelivered(w, p, q);
        OpeningCommutes(w, rest, p);
      } else if q == p {
        ArriveIsSane(w, p);
        TakenIsNothing(v, p);
        TakenStays(v, rest, p);
        ArriveAllConcat(v, rest, [p]);
        ArriveOne(ArriveAll(v, rest), p);
      } else {
        DeliversThatOne(w, q);
        ArriveAllGrows(v, ps, 0);
        ArriveAllGrows(Arrive(w, q), rest + [p], 0);
        assert ArriveAll(v, ps).delivered[|w.delivered|] == p;
        assert ArriveAll(w, ps + [p]).delivered[|w.delivered|] == q;
      }
    }
  }

  lemma ArriveOne(w: World, q: Packet)
    ensures ArriveAll(w, [q]) == Arrive(w, q)
  {
    assert [q][..0] == [];
  }

  lemma DeliversThatOne(w: World, q: Packet)
    requires Delivers(w, q)
    ensures Arrive(w, q).delivered == w.delivered + [q]
  {
  }

  /** A datagram handled alone opens its own packet before the recovered ones; in a batch a packet without a
      session comes after them. The two come to the same exactly when the packet has a session, is forged or of
      an unknown key, finds the table full, or the first recovered packet to be delivered, if any, is the same one. */
  lemma OwnFirstOrLast(w: World, p: Packet, recovered: seq<Packet>)
    requires Sane(w)
    ensures ArriveAll(w, [p] + recovered) == ArriveAll(w, Order([p], recovered, w.sessions)) <==>
              (p.key in w.sessions || p.key !in w.waiting || !p.authentic || |w.sessions| >= MAXIMUM_SESSIONS
               || FirstIs(w, recovered, p))
  {
    hide Arrive, Sane, FirstIs;
    ArriveAllConcat(w, [p], recovered);
    ArriveAllConcat(w, recovered, [p]);
    ArriveOne(w, p);
    ArriveOne(ArriveAll(w, recovered), p);
    if p.key in w.sessions {
    } else if !p.authentic || p.key !in w.waiting {
      ArriveAllGrows(w, recovered, p.key);
      ForgedIsNothing(w, p);
      ForgedIsNothing(ArriveAll(w, recovered), p);
    } else if |w.sessions| >= MAXIMUM_SESSIONS {
      FullTableCommutes(w, recovered, p);
    } else {
      OpeningCommutes(w, recovered, p);
    }
  }

  /** The first two packets of a waiting handshake are delivered as they come. */
  lemma FirstTwo(w: World, a: Packet, b: Packet)
    requires Sane(w) && a.key == b.key && a.key in w.waiting && |w.sessions| < MAXIMUM_SESSIONS
    requires a.authentic && b.authentic && a.counter < 2 && b.counter == 1 - a.counter
    ensures ArriveAll(w, [a, b]).delivered == w.delivered + [a] + [b]
  {
    var v := Arrive(w, a);
    assert v.delivered == w.delivered + [a] && b.key in v.sessions && v.sessions[b.key] == Recorded(FRESH, a.counter);
    SecondOpens(a.counter, b);
    assert Arrive(v, b).delivered == v.delivered + [b];
    hide Arrive;
    assert [a, b][..1] == [a];
    ArriveOne(w, a);
  }

  lemma SecondOpens(first: nat, b: Packet)
    requires first < 2 && b.counter == 1 - first && b.authentic
    ensures Open(Recorded(FRESH, first), b).ok
  {
  }

  /** Two packets of one waiting handshake, the second recovered: alone and in a batch they come out in either order. */
  lemma OrdersCanDiffer()
    ensures var w, p, q := World(map[], {1}, []), Packet(1, 0, true, []), Packet(1, 1, true, []);
            && Sane(w) && ArriveAll(w, [p] + [q]).delivered == [p, q]
            && ArriveAll(w, Order([p], [q], w.sessions)).delivered == [q, p]
  {
    hide Arrive, ArriveAll;
    var w, p, q := World(map[], {1}, []), Packet(1, 0, true, []), Packet(1, 1, true, []);
    FirstTwo(w, p, q);
    FirstTwo(w, q, p);
    assert [p] + [q] == [p, q] && [q] + [p] == [q, p];
    assert [] + [p] + [q] == [p, q] && [] + [q] + [p] == [q, p];
  }
}
