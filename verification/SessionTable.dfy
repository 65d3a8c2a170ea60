/**
 The table of sessions: sessions by key id, the current session of each peer, and retired sessions
 that still receive for a while.
 */
module SessionTable {
  import opened Octets

  const MAXIMUM_SESSIONS := 1024
  const KEY_IDS := 65536
  const RETIRE_AFTER := 10_000
  const NO_PEER := 0
  const PRE_SESSION := 0

  datatype Error = UnknownPeer | UnknownKeyId | KeyIdExhausted | TooManySessions

  datatype Result<+T> = Ok(value: T) | Err(error: Error)

  datatype Session = Session(peer: nat, localKeyId: nat, remoteKeyId: nat)

  datatype Retired = Retired(keyId: nat, retiredAt: int)

  datatype Table = Table(sessions: map<nat, Session>, byPeer: map<nat, nat>, retired: seq<Retired>)

  // ----- consistency -----

  function RetiredCount(retired: seq<Retired>, keyId: nat): (n: nat)
  {
    if |retired| == 0 then 0
    else RetiredCount(retired[..|retired| - 1], keyId)
         + if retired[|retired| - 1].keyId == keyId then 1 else 0
  }

  predicate IsCurrent(t: Table, keyId: nat)
  {
    keyId in t.sessions && t.sessions[keyId].peer in t.byPeer
    && t.byPeer[t.sessions[keyId].peer] == keyId
  }

  /** The current session of a peer is a session of that peer. */
  ghost predicate PeersAgree(t: Table)
  {
    forall p :: p in t.byPeer ==> t.byPeer[p] in t.sessions && t.sessions[t.byPeer[p]].peer == p
  }

  /** Every session is its peer's current session, or retired exactly once, and never both. */
  ghost predicate CurrentOrRetired(t: Table)
  {
    && (forall k :: k in t.sessions ==>
          RetiredCount(t.retired, k) == if IsCurrent(t, k) then 0 else 1)
    && (forall k :: k !in t.sessions ==> RetiredCount(t.retired, k) == 0)
  }

  ghost predicate WellKeyed(t: Table)
  {
    forall k :: k in t.sessions ==>
      0 < k < KEY_IDS && t.sessions[k].localKeyId == k && t.sessions[k].peer != NO_PEER
  }

  ghost predicate Consistent(t: Table)
  {
    PeersAgree(t) && CurrentOrRetired(t) && WellKeyed(t) && |t.sessions| <= MAXIMUM_SESSIONS
  }

  // ----- operations -----

  /** The retired entries of other keys. */
  function Dropping(retired: seq<Retired>, keyId: nat): (r: seq<Retired>)
  {
    if |retired| == 0 then []
    else
      var last := retired[|retired| - 1];
      Dropping(retired[..|retired| - 1], keyId) + if last.keyId == keyId then [] else [last]
  }

  lemma {:induction false} DroppingCount(retired: seq<Retired>, keyId: nat, k: nat)
    ensures RetiredCount(Dropping(retired, keyId), k) == if k == keyId then 0 else RetiredCount(retired, k)
  {
    if |retired| != 0 {
      var front := Dropping(retired[..|retired| - 1], keyId);
      assert front + [] == front;
      DroppingCount(retired[..|retired| - 1], keyId, k);
      AppendCount(Dropping(retired[..|retired| - 1], keyId), retired[|retired| - 1], k);
    }
  }

  lemma AppendCount(retired: seq<Retired>, entry: Retired, k: nat)
    ensures RetiredCount(retired + [entry], k) == RetiredCount(retired, k) + if entry.keyId == k then 1 else 0
  {
    assert (retired + [entry])[..|retired|] == retired;
  }

  /** A session replaces the peer's current one, which is retired unless it has the same key id. */
  function Installed(t: Table, peer: nat, s: Session, now: int): (r: Result<Table>)
  {
    var k := s.localKeyId;
    if peer == NO_PEER then Err(UnknownPeer)
    else if k == PRE_SESSION then Err(UnknownKeyId)
    else if |t.sessions| >= MAXIMUM_SESSIONS then Err(TooManySessions)
    else
      var retired := if peer in t.byPeer && t.byPeer[peer] != k
                     then t.retired + [Retired(t.byPeer[peer], now)] else t.retired;
      Ok(Table(t.sessions[k := s], t.byPeer[peer := k], Dropping(retired, k)))
  }

  function Removed(t: Table, k: nat): (r: Table)
  {
    if k !in t.sessions then t
    else
      var peer := t.sessions[k].peer;
      Table(t.sessions - {k},
            if peer in t.byPeer && t.byPeer[peer] == k then t.byPeer - {peer} else t.byPeer,
            Dropping(t.retired, k))
  }

  predicate Stale(r: Retired, now: int)
  {
    now - r.retiredAt >= RETIRE_AFTER
  }

  /** Drops the retired sessions whose time is over. */
  function Expired(t: Table, now: int): (r: Table)
  {
    t.(sessions := t.sessions - StaleKeys(t.retired, now), retired := Recent(t.retired, now))
  }

  function StaleKeys(retired: seq<Retired>, now: int): (r: set<nat>)
  {
    if |retired| == 0 then {}
    else
      var last := retired[|retired| - 1];
      StaleKeys(retired[..|retired| - 1], now) + if Stale(last, now) then {last.keyId} else {}
  }

  function Recent(retired: seq<Retired>, now: int): (r: seq<Retired>)
  {
    if |retired| == 0 then []
    else
      var last := retired[|retired| - 1];
      Recent(retired[..|retired| - 1], now) + if Stale(last, now) then [] else [last]
  }

  function FindByPeer(t: Table, peer: nat): (r: Option<Session>)
  {
    if peer in t.byPeer && t.byPeer[peer] in t.sessions then Some(t.sessions[t.byPeer[peer]]) else None
  }

  // ----- the operations keep the table consistent -----

  lemma FoundSessionIsOfPeer(t: Table, peer: nat)
    requires Consistent(t)
    ensures peer in t.byPeer <==> FindByPeer(t, peer).Some?
    ensures FindByPeer(t, peer).Some? ==> FindByPeer(t, peer).value.peer == peer
  {
  }

  /** Another peer's current session has this key id. */
  ghost predicate TakenByOther(t: Table, peer: nat, k: nat)
  {
    exists q :: q != peer && q in t.byPeer && t.byPeer[q] == k
  }

  lemma InstalledCount(t: Table, peer: nat, s: Session, now: int, j: nat)
    requires Installed(t, peer, s, now).Ok?
    ensures RetiredCount(Installed(t, peer, s, now).value.retired, j)
         == if j == s.localKeyId then 0
            else RetiredCount(t.retired, j) + if peer in t.byPeer && t.byPeer[peer] == j then 1 else 0
  {
    var k := s.localKeyId;
    DroppingCount(t.retired, k, j);
    if peer in t.byPeer {
      AppendCount(t.retired, Retired(t.byPeer[peer], now), j);
      DroppingCount(t.retired + [Retired(t.byPeer[peer], now)], k, j);
    }
  }

  /** Installing keeps the table consistent exactly when the key id is not another peer's current
      one: the table itself would overwrite that session and leave its peer pointing at it. */
  lemma InstalledIsConsistent(t: Table, peer: nat, s: Session, now: int)
    requires Consistent(t) && s.peer == peer && s.localKeyId < KEY_IDS
    requires Installed(t, peer, s, now).Ok?
    ensures Consistent(Installed(t, peer, s, now).value) <==> !TakenByOther(t, peer, s.localKeyId)
  {
    hide Dropping, RetiredCount;
    var r, k := Installed(t, peer, s, now).value, s.localKeyId;
    if TakenByOther(t, peer, k) {
      var q :| q != peer && q in t.byPeer && t.byPeer[q] == k;
      assert q in r.byPeer && r.byPeer[q] == k && r.sessions[k].peer == peer;
    } else {
      InstalledSize(t, s);
      InstalledCurrents(t, peer, s, now);
      forall j ensures RetiredCount(r.retired, j)
                    == if j in r.sessions && !IsCurrent(r, j) then 1 else 0
      {
        InstalledCount(t, peer, s, now, j);
      }
    }
  }

  lemma InstalledSize(t: Table, s: Session)
    requires |t.sessions| < MAXIMUM_SESSIONS
    ensures |t.sessions[s.localKeyId := s]| <= MAXIMUM_SESSIONS
  {
    var m := t.sessions[s.localKeyId := s];
    assert m.Keys == t.sessions.Keys + {s.localKeyId};
  }

  lemma InstalledCurrents(t: Table, peer: nat, s: Session, now: int)
    requires Consistent(t) && s.peer == peer
    requires Installed(t, peer, s, now).Ok? && !TakenByOther(t, peer, s.localKeyId)
    ensures var r := Installed(t, peer, s, now).value;
            && PeersAgree(r)
            && IsCurrent(r, s.localKeyId)
            && forall j :: j in t.sessions && j != s.localKeyId ==>
                 (IsCurrent(r, j) <==>
                  IsCurrent(t, j) && t.byPeer[t.sessions[j].peer] == j && t.sessions[j].peer != peer)
  {
    hide CurrentOrRetired;
    var r := Installed(t, peer, s, now).value;
    forall p | p in r.byPeer ensures r.byPeer[p] in r.sessions && r.sessions[r.byPeer[p]].peer == p {
      if p != peer {
        assert p in t.byPeer && t.byPeer[p] != s.localKeyId;
      }
    }
  }

  lemma RemovedIsConsistent(t: Table, k: nat)
    requires Consistent(t)
    ensures Consistent(Removed(t, k))
  {
    if k in t.sessions {
      var r := Removed(t, k);
      assert |r.sessions| == |t.sessions| - 1 by {
        assert r.sessions.Keys == t.sessions.Keys - {k};
      }
      forall j ensures RetiredCount(r.retired, j) == if j == k then 0 else RetiredCount(t.retired, j) {
        DroppingCount(t.retired, k, j);
      }
      forall j | j in r.sessions ensures IsCurrent(r, j) <==> IsCurrent(t, j) {}
    }
  }

  lemma {:induction false} RecentCount(retired: seq<Retired>, now: int, k: nat)
    ensures RetiredCount(Recent(retired, now), k) <= RetiredCount(retired, k)
    ensures k in StaleKeys(retired, now) <==> RetiredCount(Recent(retired, now), k) < RetiredCount(retired, k)
  {
    if |retired| != 0 {
      var front, last := retired[..|retired| - 1], retired[|retired| - 1];
      RecentCount(front, now, k);
      assert Recent(front, now) + [] == Recent(front, now);
      AppendCount(Recent(front, now), last, k);
    }
  }

  lemma ExpiredIsConsistent(t: Table, now: int)
    requires Consistent(t)
    ensures Consistent(Expired(t, now))
  {
    var r := Expired(t, now);
    forall k ensures RetiredCount(r.retired, k) <= RetiredCount(t.retired, k)
             ensures k in StaleKeys(t.retired, now) <==> RetiredCount(r.retired, k) < RetiredCount(t.retired, k)
    {
      RecentCount(t.retired, now, k);
    }
    forall p | p in r.byPeer ensures r.byPeer[p] in r.sessions {
      assert IsCurrent(t, t.byPeer[p]);
    }
    forall k | k in r.sessions ensures IsCurrent(r, k) <==> IsCurrent(t, k) {}
    SubsetSize(r.sessions.Keys, t.sessions.Keys);
    assert |r.sessions| == |r.sessions.Keys| && |t.sessions| == |t.sessions.Keys|;
  }

  // ----- what the operations come to -----

  /** A session leaves by expiry exactly when it was retired ten seconds ago or earlier. */
  lemma ExpiredIsExact(t: Table, now: int, k: nat)
    ensures k in Expired(t, now).sessions <==>
              k in t.sessions && forall e :: e in t.retired && e.keyId == k ==> now - e.retiredAt < 10_000
    ensures k in Expired(t, now).sessions ==> Expired(t, now).sessions[k] == t.sessions[k]
    ensures Expired(t, now).byPeer == t.byPeer
  {
    StaleKeysAre(t.retired, now, k);
  }

  lemma {:induction false} StaleKeysAre(retired: seq<Retired>, now: int, k: nat)
    ensures k in StaleKeys(retired, now) <==> exists e :: e in retired && e.keyId == k && now - e.retiredAt >= 10_000
  {
    if |retired| > 0 {
      var front, last := retired[..|retired| - 1], retired[|retired| - 1];
      assert retired == front + [last];
      StaleKeysAre(front, now, k);
    }
  }

  /** A session installed is the one found for its peer; the peer's former one stays, retired from now on; nothing
      changes for others. */
  lemma InstalledIsFound(t: Table, peer: nat, s: Session, now: int)
    requires Consistent(t) && s.peer == peer && s.localKeyId !in t.sessions && Installed(t, peer, s, now).Ok?
    ensures var r := Installed(t, peer, s, now).value;
            && FindByPeer(r, peer) == Some(s)
            && (forall k :: k in t.sessions ==> k in r.sessions && r.sessions[k] == t.sessions[k])
            && (forall k :: k in r.sessions ==> k in t.sessions || k == s.localKeyId)
            && (forall q :: q != peer ==> FindByPeer(r, q) == FindByPeer(t, q))
            && (peer in t.byPeer ==> Retired(t.byPeer[peer], now) in r.retired)
            && (forall e :: e in t.retired ==> e in r.retired)
  {
    var k := s.localKeyId;
    var all := t.retired + if peer in t.byPeer && t.byPeer[peer] != k then [Retired(t.byPeer[peer], now)] else [];
    assert t.retired + [] == t.retired;
    forall e | e in all && e.keyId != k ensures e in Dropping(all, k) {
      DroppingKeeps(all, k, e);
    }
    forall e | e in t.retired ensures e.keyId != k {
      RetiredIsCounted(t.retired, e);
    }
  }

  lemma {:induction false} DroppingKeeps(retired: seq<Retired>, keyId: nat, e: Retired)
    requires e in retired && e.keyId != keyId
    ensures e in Dropping(retired, keyId)
  {
    var front, last := retired[..|retired| - 1], retired[|retired| - 1];
    assert retired == front + [last];
    if e in front { DroppingKeeps(front, keyId, e); }
  }

  lemma {:induction false} RetiredIsCounted(retired: seq<Retired>, e: Retired)
    requires e in retired
    ensures RetiredCount(retired, e.keyId) > 0
  {
    var front, last := retired[..|retired| - 1], retired[|retired| - 1];
    assert retired == front + [last];
    if e in front { RetiredIsCounted(front, e); }
  }

  /** A removed session is gone, and its peer has none if it was the current one; nothing else changes. */
  lemma RemovedIsGone(t: Table, k: nat)
    requires Consistent(t)
    ensures var r := Removed(t, k);
            && k !in r.sessions
            && (forall j :: j != k ==> (j in r.sessions <==> j in t.sessions))
            && (forall j :: j in r.sessions ==> r.sessions[j] == t.sessions[j])
            && (forall p :: FindByPeer(r, p) == if p in t.byPeer && t.byPeer[p] == k then None else FindByPeer(t, p))
  {
  }

  // ----- key ids -----

  function NextId(k: nat): (r: nat)
  {
    if k == KEY_IDS - 1 then 1 else k + 1
  }

  /** The id `j` places after `start`, wrapping from 65535 to 1. */
  function IdAt(start: nat, j: nat): (r: nat)
    requires 0 < start < KEY_IDS
    ensures 0 < r < KEY_IDS
  {
    (start - 1 + j) % (KEY_IDS - 1) + 1
  }

  lemma IdAtNext(start: nat, j: nat)
    requires 0 < start < KEY_IDS
    ensures IdAt(start, 0) == start && NextId(IdAt(start, j)) == IdAt(start, j + 1)
  {
  }

  lemma IdAtSum(start: nat, i: nat, j: nat)
    requires 0 < start < KEY_IDS
    ensures IdAt(IdAt(start, i), j) == IdAt(start, i + j)
  {
  }

  lemma IdAtIsInjective(start: nat, i: nat, j: nat)
    requires 0 < start < KEY_IDS && i < j < i + KEY_IDS - 1
    ensures IdAt(start, i) != IdAt(start, j)
  {
  }

  /** The first `m` ids after `start`. */
  ghost function Probed(start: nat, m: nat): (r: set<nat>)
    requires 0 < start < KEY_IDS
  {
    set j | 0 <= j < m :: IdAt(start, j)
  }

  lemma {:induction false} ProbedCount(start: nat, m: nat)
    requires 0 < start < KEY_IDS && m < KEY_IDS
    ensures |Probed(start, m)| == m
  {
    hide IdAt;
    if m == 0 {
      assert Probed(start, 0) == {};
    } else {
      ProbedCount(start, m - 1);
      assert Probed(start, m) == Probed(start, m - 1) + {IdAt(start, m - 1)};
      forall j | 0 <= j < m - 1 ensures IdAt(start, j) != IdAt(start, m - 1) {
        IdAtIsInjective(start, j, m - 1);
      }
    }
  }

  /** Ids that are all taken are no more than the taken ones. */
  lemma ProbeBound(start: nat, m: nat, taken: set<nat>)
    requires 0 < start < KEY_IDS && m < KEY_IDS
    requires forall j :: 0 <= j < m ==> IdAt(start, j) in taken
    ensures m <= |taken|
  {
    hide IdAt;
    ProbedCount(start, m);
    SubsetSize(Probed(start, m), taken);
  }

  lemma Reinserted<V>(m: map<nat, V>, k: nat, v: V)
    ensures (m - {k})[k := v] == m[k := v]
    ensures (m - {k} - {k})[k := v] == m[k := v]
  {
  }

  // ----- the class -----

  class SessionTable {
    var sessions: map<nat, Session>
    var byPeer: map<nat, nat>
    var retired: seq<Retired>
    var retiredReceives: nat
    var nextKeyId: nat

    ghost function Model(): (t: Table)
      reads this
    {
      Table(sessions, byPeer, retired)
    }

    ghost predicate Valid()
      reads this
    {
      Consistent(Model()) && 0 < nextKeyId < KEY_IDS
    }

    constructor ()
      ensures Valid() && Model() == Table(map[], map[], [])
    {
      sessions, byPeer, retired, retiredReceives, nextKeyId := map[], map[], [], 0, 1;
    }

    /** The next id in cyclic order that no session has; with room in the table there always is one. */
    method AllocateKeyId() returns (r: Result<nat>, ghost skipped: nat)
      requires Valid()
      modifies this`nextKeyId
      ensures Valid()
      ensures |sessions| >= MAXIMUM_SESSIONS ==> r == Err(TooManySessions) && nextKeyId == old(nextKeyId)
      ensures |sessions| < MAXIMUM_SESSIONS ==>
                && r == Ok(IdAt(old(nextKeyId), skipped)) && r.value !in sessions
                && (forall j :: 0 <= j < skipped ==> IdAt(old(nextKeyId), j) in sessions)
                && skipped <= |sessions| && nextKeyId == IdAt(old(nextKeyId), skipped + 1)
    {
      hide Consistent, IdAt;
      skipped := 0;
      r := Err(KeyIdExhausted);
      if |sessions| >= MAXIMUM_SESSIONS { return Err(TooManySessions), 0; }
      IdAtNext(nextKeyId, 0);
      // The counter starts at 1 and wraps to 1, so the reserved id 0 is never a candidate.
      for attempt := 0 to KEY_IDS
        invariant Consistent(Model()) && nextKeyId == IdAt(old(nextKeyId), attempt)
        invariant attempt == skipped <= |sessions|
        invariant forall j :: 0 <= j < attempt ==> IdAt(old(nextKeyId), j) in sessions
      {
        var candidate := nextKeyId;
        IdAtNext(old(nextKeyId), attempt);
        nextKeyId := NextId(nextKeyId);
        if candidate !in sessions { return Ok(candidate), skipped; }
        skipped := skipped + 1;
        ProbeBound(old(nextKeyId), skipped, sessions.Keys);
      }
      assert false;
    }

    method Install(peer: nat, s: Session, now: int) returns (r: Result<Session>)
      requires Valid() && s.peer == peer && s.localKeyId < KEY_IDS
      modifies this
      ensures nextKeyId == old(nextKeyId)
      ensures !old(TakenByOther(Model(), peer, s.localKeyId)) ==> Valid()
      ensures match Installed(old(Model()), peer, s, now)
              case Err(e) => r == Err(e) && Model() == old(Model())
              case Ok(t) => r == Ok(s) && Model() == t
    {
      hide Consistent, Dropping, TakenByOther;
      var k := s.localKeyId;
      if peer == NO_PEER { return Err(UnknownPeer); }
      if k == PRE_SESSION { return Err(UnknownKeyId); }
      if |sessions| >= MAXIMUM_SESSIONS { return Err(TooManySessions); }
      InstalledIsConsistent(Model(), peer, s, now);
      Reinserted(sessions, k, s);
      Reinserted(byPeer, peer, k);
      if peer in byPeer {
        if byPeer[peer] != k {
          retired := retired + [Retired(byPeer[peer], now)];
        } else {
          sessions := sessions - {byPeer[peer]};
        }
        byPeer := byPeer - {peer};
      }
      sessions := sessions - {k};
      retired := EraseKey(retired, k);
      sessions := sessions[k := s];
      byPeer := byPeer[peer := k];
      return Ok(s);
    }

    static method EraseKey(entries: seq<Retired>, k: nat) returns (kept: seq<Retired>)
      ensures kept == Dropping(entries, k)
    {
      kept := [];
      for i := 0 to |entries|
        invariant kept == Dropping(entries[..i], k)
      {
        assert entries[..i + 1][..i] == entries[..i];
        if entries[i].keyId != k { kept := kept + [entries[i]]; }
      }
      assert entries[..|entries|] == entries;
    }

    method Remove(k: nat)
      requires Valid()
      modifies this
      ensures Valid() && nextKeyId == old(nextKeyId)
      ensures Model() == Removed(old(Model()), k)
    {
      hide Consistent, Dropping;
      if k !in sessions { return; }
      RemovedIsConsistent(Model(), k);
      retired := EraseKey(retired, k);
      var peer := sessions[k].peer;
      if peer in byPeer && byPeer[peer] == k { byPeer := byPeer - {peer}; }
      sessions := sessions - {k};
    }

    method ExpireRetired(now: int)
      requires Valid()
      modifies this
      ensures Valid() && nextKeyId == old(nextKeyId)
      ensures Model() == Expired(old(Model()), now)
    {
      hide Consistent, StaleKeys, Recent;
      ExpiredIsConsistent(Model(), now);
      sessions, retired := EraseStale(sessions, retired, now);
    }

    static method EraseStale(sessions: map<nat, Session>, retired: seq<Retired>, now: int)
      returns (live: map<nat, Session>, kept: seq<Retired>)
      ensures live == sessions - StaleKeys(retired, now)
      ensures kept == Recent(retired, now)
    {
      live, kept := sessions, [];
      for i := 0 to |retired|
        invariant kept == Recent(retired[..i], now)
        invariant live == sessions - StaleKeys(retired[..i], now)
      {
        assert retired[..i + 1][..i] == retired[..i];
        if now - retired[i].retiredAt < RETIRE_AFTER {
          kept := kept + [retired[i]];
        } else {
          live := live - {retired[i].keyId};
        }
      }
      assert retired[..|retired|] == retired;
    }

    /** Also counts packets that still arrive for a retired session. */
    method FindByKeyId(k: nat) returns (r: Option<Session>)
      requires Valid()
      modifies this`retiredReceives
      ensures r == if k in sessions then Some(sessions[k]) else None
      ensures retiredReceives == old(retiredReceives)
                                 + if k in sessions && !IsCurrent(Model(), k) then 1 else 0
    {
      if k !in sessions { return None; }
      var isRetired := false;
      for i := 0 to |retired|
        invariant isRetired <==> RetiredCount(retired[..i], k) > 0
      {
        assert retired[..i + 1][..i] == retired[..i];
        if retired[i].keyId == k { isRetired := true; }
      }
      assert retired[..|retired|] == retired;
      if isRetired { retiredReceives := retiredReceives + 1; }
      return Some(sessions[k]);
    }

    method FindByPeer(peer: nat) returns (r: Option<Session>)
      requires Valid()
      modifies this`retiredReceives
      ensures r.Some? <==> peer in byPeer
      ensures r.Some? ==> r.value.peer == peer && IsCurrent(Model(), r.value.localKeyId)
      ensures retiredReceives == old(retiredReceives)
    {
      if peer !in byPeer { return None; }
      r := FindByKeyId(byPeer[peer]);
    }
  }
}
