/**
 The session lifecycle: handshakes started here, handshakes answered here and waiting for the first
 packet, current sessions and retired ones, all drawing key ids from one 16-bit space.

 Cryptography, datagram parsing, cookies and rate limits appear as the outcomes a step is given.
 */
module ControlPlane {
  import opened Octets
  import opened SessionTable

  const MAXIMUM_PENDING := 256
  const ALLOCATION_ATTEMPTS := 2 * MAXIMUM_PENDING + 2

  datatype Provisional = Provisional(peer: nat, localKeyId: nat, remoteKeyId: nat)

  datatype ControlError =
    UnknownPeer | RateLimited | TooManyPending | HandshakeFailed | SessionInstallFailed
    | InvalidMessage | NotPending | CryptoUnavailable | TimerCapacity

  datatype Reply<+T> = Done(value: T) | Refused(why: ControlError)

  /** `pending` maps a peer to the key id of the handshake started with it. */
  datatype State = State(table: Table, peers: set<nat>, pending: map<nat, nat>,
                         provisional: map<nat, Provisional>, greatest: map<nat, nat>)

  // ----- the invariant -----

  /** The three kinds of holders of key ids never share one. */
  ghost predicate IdsAreDisjoint(s: State)
  {
    && (forall p :: p in s.pending ==> s.pending[p] !in s.table.sessions && s.pending[p] !in s.provisional)
    && (forall k :: k in s.provisional ==> k !in s.table.sessions)
    && (forall p, q :: p in s.pending && q in s.pending && p != q ==> s.pending[p] != s.pending[q])
  }

  ghost predicate IdsAreProper(s: State)
  {
    && (forall p :: p in s.pending ==> p != NO_PEER && 0 < s.pending[p] < KEY_IDS)
    && (forall k :: k in s.provisional ==>
          0 < k < KEY_IDS && s.provisional[k].localKeyId == k && s.provisional[k].peer != NO_PEER)
  }

  ghost predicate Inv(s: State)
  {
    && Consistent(s.table)
    && IdsAreDisjoint(s) && IdsAreProper(s)
    && |s.pending| <= MAXIMUM_PENDING && |s.provisional| <= MAXIMUM_PENDING
    && NO_PEER !in s.peers
  }

  predicate HeldByPending(s: State, id: nat)
  {
    id in s.pending.Values
  }

  /** No session, pending handshake or provisional responder has this id. */
  predicate Free(s: State, id: nat)
  {
    0 < id < KEY_IDS && id !in s.table.sessions && id !in s.provisional && !HeldByPending(s, id)
  }

  // ----- steps -----

  /** A handshake with `peer` is started under a free id; an older one with that peer is dropped. */
  function Started(s: State, peer: nat, id: nat): (r: State)
  {
    s.(pending := s.pending[peer := id])
  }

  /** The timestamp of a newer initiation is remembered. */
  function Noted(s: State, peer: nat, timestamp: nat): (r: State)
  {
    s.(greatest := s.greatest[peer := timestamp])
  }

  /** An initiation is answered: the responder waits for the first packet. */
  function Answered(s: State, peer: nat, remote: nat, id: nat): (r: State)
  {
    s.(provisional := s.provisional[id := Provisional(peer, id, remote)])
  }

  predicate Newer(s: State, peer: nat, timestamp: nat)
  {
    peer in s.peers && (peer in s.greatest ==> timestamp > s.greatest[peer])
  }

  /** The response to our handshake arrived: the session is installed and the handshake forgotten. */
  function Completed(s: State, peer: nat, remote: nat, now: int): (r: State)
    requires peer in s.pending
  {
    match Installed(s.table, peer, Session(peer, s.pending[peer], remote), now)
    case Err(_) => s
    case Ok(t) => s.(table := t, pending := s.pending - {peer})
  }

  /** The first authentic packet for a provisional responder promotes it to a session. */
  function Promoted(s: State, id: nat, now: int): (r: State)
    requires id in s.provisional
  {
    var e := s.provisional[id];
    match Installed(s.table, e.peer, Session(e.peer, e.localKeyId, e.remoteKeyId), now)
    case Err(_) => s.(provisional := s.provisional - {id})
    case Ok(t) => s.(table := t, provisional := s.provisional - {id})
  }

  /** The provisional responders of other peers. */
  function OfOthers(provisional: map<nat, Provisional>, peer: nat): (r: map<nat, Provisional>)
  {
    map k | k in provisional && provisional[k].peer != peer :: provisional[k]
  }

  function Forgotten(s: State, peer: nat): (r: State)
  {
    s.(peers := s.peers - {peer}, pending := s.pending - {peer}, greatest := s.greatest - {peer},
       provisional := OfOthers(s.provisional, peer))
  }

  /** Nothing is left of a forgotten peer but its sessions, and nothing of others is lost. */
  lemma ForgottenIs(s: State, peer: nat)
    ensures var r := Forgotten(s, peer);
            && peer !in r.peers && peer !in r.pending && peer !in r.greatest && r.table == s.table
            && (forall k :: k in r.provisional <==> k in s.provisional && s.provisional[k].peer != peer)
            && (forall k :: k in r.provisional ==> r.provisional[k] == s.provisional[k])
            && (forall p :: p != peer ==> (p in r.peers <==> p in s.peers))
            && (forall p :: p != peer ==> (p in r.pending <==> p in s.pending))
            && (forall p :: p in r.pending ==> r.pending[p] == s.pending[p])
            && (forall p :: p != peer ==> (p in r.greatest <==> p in s.greatest))
            && (forall p :: p in r.greatest ==> r.greatest[p] == s.greatest[p])
  {
  }

  datatype Step =
    | AddPeer(peer: nat)
    | Forget(peer: nat)
    | Start(peer: nat, id: nat)
    | Answer(peer: nat, remote: nat, id: nat)
    | NoteTimestamp(peer: nat, timestamp: nat)
    | Complete(peer: nat, remote: nat, now: int)
    | Promote(id: nat, now: int)
    | PendingTimeout(peer: nat)
    | ProvisionalTimeout(id: nat)
    | RemoveSession(id: nat)
    | ExpireSessions(now: int)

  /** When each step is taken. */
  ghost predicate Enabled(s: State, step: Step)
  {
    match step
    case AddPeer(peer) => peer != NO_PEER
    case Forget(_) => true
    case Start(peer, id) => peer in s.peers && Free(s, id) && (|s.pending| < MAXIMUM_PENDING || peer in s.pending)
    case NoteTimestamp(peer, timestamp) => Newer(s, peer, timestamp)
    case Answer(peer, remote, id) =>
      peer in s.peers && remote != PRE_SESSION && Free(s, id) && |s.provisional| < MAXIMUM_PENDING
    case Complete(peer, remote, _) => peer in s.pending && remote != PRE_SESSION
    case Promote(id, _) => id in s.provisional
    case PendingTimeout(_) => true
    case ProvisionalTimeout(_) => true
    case RemoveSession(_) => true
    case ExpireSessions(_) => true
  }

  function Apply(s: State, step: Step): (r: State)
    requires Enabled(s, step)
  {
    match step
    case AddPeer(peer) => s.(peers := s.peers + {peer})
    case Forget(peer) => Forgotten(s, peer)
    case Start(peer, id) => Started(s, peer, id)
    case Answer(peer, remote, id) => Answered(s, peer, remote, id)
    case NoteTimestamp(peer, timestamp) => Noted(s, peer, timestamp)
    case Complete(peer, remote, now) => Completed(s, peer, remote, now)
    case Promote(id, now) => Promoted(s, id, now)
    case PendingTimeout(peer) => s.(pending := s.pending - {peer})
    case ProvisionalTimeout(id) => s.(provisional := s.provisional - {id})
    case RemoveSession(id) => s.(table := Removed(s.table, id))
    case ExpireSessions(now) => s.(table := Expired(s.table, now))
  }

  lemma CompleteStep(s: State, peer: nat, remote: nat, now: int)
    requires peer in s.pending && remote != PRE_SESSION
    ensures Enabled(s, Complete(peer, remote, now))
    ensures Apply(s, Complete(peer, remote, now)) == Completed(s, peer, remote, now)
  {
    hide Completed;
  }

  lemma PromoteStep(s: State, id: nat, now: int)
    requires id in s.provisional
    ensures Enabled(s, Promote(id, now)) && Apply(s, Promote(id, now)) == Promoted(s, id, now)
  {
    hide Promoted;
  }

  lemma NoteStep(s: State, peer: nat, timestamp: nat)
    requires Newer(s, peer, timestamp)
    ensures Enabled(s, NoteTimestamp(peer, timestamp))
    ensures Apply(s, NoteTimestamp(peer, timestamp)) == Noted(s, peer, timestamp)
  {
  }

  lemma ForgetStep(s: State, peer: nat)
    ensures Enabled(s, Forget(peer)) && Apply(s, Forget(peer)) == Forgotten(s, peer)
  {
  }

  lemma AnswerStep(s: State, peer: nat, remote: nat, id: nat)
    requires peer in s.peers && remote != PRE_SESSION && Free(s, id) && |s.provisional| < MAXIMUM_PENDING
    ensures Enabled(s, Answer(peer, remote, id)) && Apply(s, Answer(peer, remote, id)) == Answered(s, peer, remote, id)
  {
    hide Free;
  }

  lemma TimeoutSteps(s: State, peer: nat, id: nat)
    ensures Enabled(s, PendingTimeout(peer)) && Apply(s, PendingTimeout(peer)) == s.(pending := s.pending - {peer})
    ensures Enabled(s, ProvisionalTimeout(id))
    ensures Apply(s, ProvisionalTimeout(id)) == s.(provisional := s.provisional - {id})
  {
  }

  // ----- every step keeps the invariant -----

  lemma SizeAfterInsert<K, V>(m: map<K, V>, k: K, v: V)
    ensures |m[k := v]| == |m| + if k in m then 0 else 1
  {
    assert m[k := v].Keys == m.Keys + {k};
    if k in m { assert m[k := v].Keys == m.Keys; }
  }

  lemma FewerEntries<K, V>(a: map<K, V>, b: map<K, V>)
    requires a.Keys <= b.Keys
    ensures |a| <= |b|
  {
    SubsetSize(a.Keys, b.Keys);
    assert |a| == |a.Keys| && |b| == |b.Keys|;
  }

  /** A fresh key id never belongs to another peer's current session, so installing is safe. */
  lemma FreshInstall(t: Table, peer: nat, s: Session, now: int)
    requires Consistent(t) && s.peer == peer && s.localKeyId < KEY_IDS && s.localKeyId !in t.sessions
    requires Installed(t, peer, s, now).Ok?
    ensures Consistent(Installed(t, peer, s, now).value)
    ensures forall k :: k in Installed(t, peer, s, now).value.sessions <==> k in t.sessions || k == s.localKeyId
  {
    InstalledIsConsistent(t, peer, s, now);
  }

  /** Turning the holder of one id into a session keeps the ids apart. */
  lemma ClaimKeepsInv(s: State, r: State, id: nat)
    requires Inv(s) && Consistent(r.table) && NO_PEER !in r.peers
    requires forall k :: k in r.table.sessions ==> k in s.table.sessions || k == id
    requires forall p :: p in r.pending ==> p in s.pending && r.pending[p] == s.pending[p] && r.pending[p] != id
    requires forall k :: k in r.provisional ==>
               k in s.provisional && r.provisional[k] == s.provisional[k] && k != id
    ensures Inv(r)
  {
    hide Consistent;
    FewerEntries(r.pending, s.pending);
    FewerEntries(r.provisional, s.provisional);
  }

  /** Installing under an id no session has succeeds exactly when the table has room. */
  lemma FreshInstallSucceeds(t: Table, session: Session, now: int)
    requires Consistent(t) && session.peer != NO_PEER && 0 < session.localKeyId < KEY_IDS
    requires session.localKeyId !in t.sessions
    ensures !TakenByOther(t, session.peer, session.localKeyId)
    ensures Installed(t, session.peer, session, now).Ok? <==> |t.sessions| < MAXIMUM_SESSIONS
    ensures Installed(t, session.peer, session, now).Ok? ==>
              && IsCurrent(Installed(t, session.peer, session, now).value, session.localKeyId)
              && Installed(t, session.peer, session, now).value.sessions[session.localKeyId] == session
  {
    hide CurrentOrRetired;
  }

  lemma PendingIsFresh(s: State, peer: nat)
    requires Inv(s) && peer in s.pending
    ensures peer != NO_PEER && 0 < s.pending[peer] < KEY_IDS && s.pending[peer] !in s.table.sessions
    ensures Consistent(s.table)
  {
    hide Consistent;
  }

  lemma ProvisionalIsFresh(s: State, id: nat)
    requires Inv(s) && id in s.provisional
    ensures 0 < id < KEY_IDS && id !in s.table.sessions && s.provisional[id].localKeyId == id
    ensures s.provisional[id].peer != NO_PEER && Consistent(s.table)
  {
    hide Consistent;
  }

  lemma CompletedKeepsInv(s: State, peer: nat, remote: nat, now: int)
    requires Inv(s) && peer in s.pending
    ensures Inv(Completed(s, peer, remote, now))
  {
    hide Consistent, Installed;
    var session := Session(peer, s.pending[peer], remote);
    if Installed(s.table, peer, session, now).Ok? {
      FreshInstall(s.table, peer, session, now);
      ClaimKeepsInv(s, Completed(s, peer, remote, now), s.pending[peer]);
    }
  }

  lemma PromotedKeepsInv(s: State, id: nat, now: int)
    requires Inv(s) && id in s.provisional
    ensures Inv(Promoted(s, id, now))
  {
    hide Consistent, Installed;
    var e := s.provisional[id];
    var session := Session(e.peer, e.localKeyId, e.remoteKeyId);
    if Installed(s.table, e.peer, session, now).Ok? {
      FreshInstall(s.table, e.peer, session, now);
      ClaimKeepsInv(s, Promoted(s, id, now), id);
    } else {
      ShrinkKeepsInv(s, Promoted(s, id, now));
    }
  }

  lemma StartedKeepsInv(s: State, peer: nat, id: nat)
    requires Inv(s) && Enabled(s, Start(peer, id))
    ensures Inv(Started(s, peer, id))
  {
    hide Consistent;
    SizeAfterInsert(s.pending, peer, id);
    forall p | p in s.pending ensures s.pending[p] != id {
      assert s.pending[p] in s.pending.Values;
    }
  }

  lemma AnsweredKeepsInv(s: State, peer: nat, remote: nat, id: nat)
    requires Inv(s) && Enabled(s, Answer(peer, remote, id))
    ensures Inv(Answered(s, peer, remote, id))
  {
    hide Consistent;
    SizeAfterInsert(s.provisional, id, Provisional(peer, id, remote));
    forall p | p in s.pending ensures s.pending[p] != id {
      assert s.pending[p] in s.pending.Values;
    }
  }

  lemma ShrinkKeepsInv(s: State, r: State)
    requires Inv(s) && Consistent(r.table)
    requires r.table.sessions.Keys <= s.table.sessions.Keys && NO_PEER !in r.peers
    requires r.pending.Keys <= s.pending.Keys && forall p :: p in r.pending ==> r.pending[p] == s.pending[p]
    requires r.provisional.Keys <= s.provisional.Keys
    requires forall k :: k in r.provisional ==> r.provisional[k] == s.provisional[k]
    ensures Inv(r)
  {
    hide Consistent;
    FewerEntries(r.pending, s.pending);
    FewerEntries(r.provisional, s.provisional);
  }

  /** Steps that only drop entries or change who is known. */
  lemma DropKeepsInv(s: State, step: Step)
    requires Inv(s) && Enabled(s, step)
    requires step.AddPeer? || step.Forget? || step.NoteTimestamp? || step.PendingTimeout? || step.ProvisionalTimeout?
    ensures Inv(Apply(s, step))
  {
    hide Consistent, Installed, Free, IdsAreDisjoint, IdsAreProper, Started, Answered, Completed, Promoted;
    ShrinkKeepsInv(s, Apply(s, step));
  }

  lemma StepKeepsInv(s: State, step: Step)
    requires Inv(s) && Enabled(s, step)
    ensures Inv(Apply(s, step))
  {
    hide Consistent, Installed, Free, IdsAreDisjoint, IdsAreProper, Started, Answered, Completed, Promoted, Forgotten,
      Removed, Expired;
    match step
    case Start(peer, id) => StartedKeepsInv(s, peer, id);
    case Answer(peer, remote, id) => AnsweredKeepsInv(s, peer, remote, id);
    case Complete(peer, remote, now) => CompletedKeepsInv(s, peer, remote, now);
    case Promote(id, now) => PromotedKeepsInv(s, id, now);
    case RemoveSession(id) => TableKeepsInv(s, step);
    case ExpireSessions(now) => TableKeepsInv(s, step);
    case _ => DropKeepsInv(s, step);
  }

  /** Steps that only drop sessions. */
  lemma TableKeepsInv(s: State, step: Step)
    requires Inv(s) && Enabled(s, step) && (step.RemoveSession? || step.ExpireSessions?)
    ensures Inv(Apply(s, step))
  {
    hide Consistent, Free, IdsAreDisjoint, IdsAreProper;
    if step.RemoveSession? {
      RemovedIsConsistent(s.table, step.id);
    } else {
      ExpiredIsConsistent(s.table, step.now);
    }
    ShrinkKeepsInv(s, Apply(s, step));
  }

  const EMPTY := State(Table(map[], map[], []), {}, map[], map[], map[])

  /** The states a control plane goes through from its start, and the steps it takes. */
  ghost predicate Run(trace: seq<State>, steps: seq<Step>)
  {
    && |trace| == |steps| + 1 && trace[0] == EMPTY
    && forall i :: 0 <= i < |steps| ==> Enabled(trace[i], steps[i]) && trace[i + 1] == Apply(trace[i], steps[i])
  }

  /** In every reachable state the key ids of sessions, pending handshakes and provisional
      responders are pairwise disjoint, every session is its peer's unique current session or
      retired exactly once, and looking a peer up finds only a session of that peer. */
  lemma {:induction false} ReachableInv(trace: seq<State>, steps: seq<Step>, i: nat)
    requires Run(trace, steps) && i < |trace|
    ensures Inv(trace[i])
    ensures forall p :: FindByPeer(trace[i].table, p).Some? ==> FindByPeer(trace[i].table, p).value.peer == p
  {
    hide Apply, Enabled;
    if i != 0 {
      ReachableInv(trace, steps, i - 1);
      StepKeepsInv(trace[i - 1], steps[i - 1]);
    }
    forall p ensures FindByPeer(trace[i].table, p).Some? ==> FindByPeer(trace[i].table, p).value.peer == p {
      FoundSessionIsOfPeer(trace[i].table, p);
    }
  }

  /** A run can be continued by any enabled step. */
  lemma Extends(trace: seq<State>, steps: seq<Step>, step: Step)
    requires Run(trace, steps) && Enabled(trace[|trace| - 1], step)
    ensures Run(trace + [Apply(trace[|trace| - 1], step)], steps + [step])
  {
    hide Apply, Enabled;
  }

  // ----- where the ids of a session come from -----

  /** Step `j` claims key id `k`: an initiation is answered under it, or the handshake pending under it completes. */
  ghost predicate Claims(trace: seq<State>, steps: seq<Step>, j: nat, k: nat)
    requires Run(trace, steps) && j < |steps|
  {
    match steps[j]
    case Answer(_, _, id) => id == k
    case Complete(peer, _, _) => peer in trace[j].pending && trace[j].pending[peer] == k
    case _ => false
  }

  /** Step `j` is the last before state `i` that claims key id `k`. */
  ghost predicate ClaimedLast(trace: seq<State>, steps: seq<Step>, i: nat, j: nat, k: nat)
    requires Run(trace, steps)
  {
    && j < i < |trace| && i <= |steps| && Claims(trace, steps, j, k)
    && forall a: nat :: j < a < i ==> !Claims(trace, steps, a, k)
  }

  /** The peer and key id a claiming step carries: those of the response or of the initiation. */
  predicate Carries(step: Step, peer: nat, remote: nat)
  {
    match step
    case Answer(p, r, _) => p == peer && r == remote
    case Complete(p, r, _) => p == peer && r == remote
    case _ => false
  }

  /** Session or provisional responder `k` of state `i` has the peer and remote id that its last claim carried. */
  ghost predicate HasOrigin(trace: seq<State>, steps: seq<Step>, i: nat, k: nat, peer: nat, remote: nat)
    requires Run(trace, steps)
  {
    exists j: nat :: ClaimedLast(trace, steps, i, j, k) && Carries(steps[j], peer, remote)
  }

  lemma RunLength(trace: seq<State>, steps: seq<Step>)
    requires Run(trace, steps)
    ensures |trace| == |steps| + 1
  {
  }

  lemma OriginPersists(trace: seq<State>, steps: seq<Step>, i: nat, k: nat, peer: nat, remote: nat)
    requires Run(trace, steps) && i < |steps| && HasOrigin(trace, steps, i, k, peer, remote)
    requires !Claims(trace, steps, i, k)
    ensures HasOrigin(trace, steps, i + 1, k, peer, remote)
  {
    hide Run, Claims, Carries;
    var j: nat :| ClaimedLast(trace, steps, i, j, k) && Carries(steps[j], peer, remote);
    RunLength(trace, steps);
    assert ClaimedLast(trace, steps, i + 1, j, k);
  }

  lemma OriginBegins(trace: seq<State>, steps: seq<Step>, i: nat, k: nat, peer: nat, remote: nat)
    requires Run(trace, steps) && i < |steps| && Claims(trace, steps, i, k) && Carries(steps[i], peer, remote)
    ensures HasOrigin(trace, steps, i + 1, k, peer, remote)
  {
    hide Run, Claims, Carries;
    RunLength(trace, steps);
    assert ClaimedLast(trace, steps, i + 1, i, k);
  }

  /** An id that a session or a provisional responder holds is not claimed again. */
  lemma HeldIsNotClaimed(trace: seq<State>, steps: seq<Step>, i: nat, k: nat)
    requires Run(trace, steps) && i < |steps| && Inv(trace[i])
    requires k in trace[i].table.sessions || k in trace[i].provisional
    ensures !Claims(trace, steps, i, k)
  {
    hide Apply, Consistent;
    assert Enabled(trace[i], steps[i]);
  }

  /** Sessions after each operation on the table were there before, or are the one installed. */
  lemma TableSessions(t: Table, peer: nat, s: Session, now: int, id: nat, k: nat)
    ensures Installed(t, peer, s, now).Ok? && k in Installed(t, peer, s, now).value.sessions ==>
              Installed(t, peer, s, now).value.sessions[k]
              == if k == s.localKeyId then s else if k in t.sessions then t.sessions[k] else s
    ensures Installed(t, peer, s, now).Ok? && k in Installed(t, peer, s, now).value.sessions ==>
              k == s.localKeyId || k in t.sessions
    ensures k in Removed(t, id).sessions ==> k in t.sessions && Removed(t, id).sessions[k] == t.sessions[k]
    ensures k in Expired(t, now).sessions ==> k in t.sessions && Expired(t, now).sessions[k] == t.sessions[k]
  {
  }

  /** Where the sessions after a step come from. */
  lemma StepSessions(s: State, step: Step, k: nat)
    requires Inv(s) && Enabled(s, step) && k in Apply(s, step).table.sessions
    ensures var session := Apply(s, step).table.sessions[k];
            || (k in s.table.sessions && s.table.sessions[k] == session)
            || (step.Complete? && step.peer in s.pending && s.pending[step.peer] == k
                && session.peer == step.peer && session.remoteKeyId == step.remote)
            || (step.Promote? && step.id == k && k in s.provisional && session.peer == s.provisional[k].peer
                && session.remoteKeyId == s.provisional[k].remoteKeyId)
  {
    hide Consistent, Installed, Removed, Expired, Inv, Free, Forgotten, Started, Answered;
    match step
    case Complete(peer, remote, now) =>
      TableSessions(s.table, peer, Session(peer, s.pending[peer], remote), now, 0, k);
    case Promote(id, now) =>
      var e := s.provisional[id];
      ProvisionalIsFresh(s, id);
      TableSessions(s.table, e.peer, Session(e.peer, e.localKeyId, e.remoteKeyId), now, 0, k);
    case RemoveSession(id) => TableSessions(s.table, 0, Session(0, 0, 0), 0, id, k);
    case ExpireSessions(now) => TableSessions(s.table, 0, Session(0, 0, 0), now, 0, k);
    case Forget(peer) => ForgetKeepsTable(s, peer);
    case Start(peer, id) => StartKeepsTable(s, peer, id);
    case Answer(peer, remote, id) => AnswerKeepsTable(s, peer, remote, id);
    case _ =>
  }

  lemma ForgetKeepsTable(s: State, peer: nat)
    ensures Forgotten(s, peer).table == s.table
  {
  }

  lemma StartKeepsTable(s: State, peer: nat, id: nat)
    ensures Started(s, peer, id).table == s.table
  {
  }

  lemma AnswerKeepsTable(s: State, peer: nat, remote: nat, id: nat)
    ensures Answered(s, peer, remote, id).table == s.table
  {
  }

  lemma StepProvisional(s: State, step: Step, k: nat)
    requires Enabled(s, step) && k in Apply(s, step).provisional
    ensures var entry := Apply(s, step).provisional[k];
            || (k in s.provisional && s.provisional[k] == entry)
            || (step.Answer? && step.id == k && entry.peer == step.peer && entry.remoteKeyId == step.remote)
  {
    hide Consistent, Installed, Removed, Expired, Free;
  }

  /** In every reachable state each session has the peer and the remote key id that the response completing its
      handshake, or the initiation answered under its id, carried; so does each provisional responder. */
  lemma {:induction false} RemoteIdsAreCarried(trace: seq<State>, steps: seq<Step>, i: nat, k: nat)
    requires Run(trace, steps) && i < |trace|
    ensures k in trace[i].table.sessions ==>
              HasOrigin(trace, steps, i, k, trace[i].table.sessions[k].peer, trace[i].table.sessions[k].remoteKeyId)
    ensures k in trace[i].provisional ==>
              HasOrigin(trace, steps, i, k, trace[i].provisional[k].peer, trace[i].provisional[k].remoteKeyId)
  {
    hide Run, Apply, Inv, HasOrigin, Enabled;
    if i == 0 {
      NothingAtFirst(trace, steps);
    } else {
      ReachableInv(trace, steps, i - 1);
      RemoteIdsAreCarried(trace, steps, i - 1, k);
      if k in trace[i].table.sessions {
        SessionIsCarried(trace, steps, i - 1, k);
      }
      if k in trace[i].provisional {
        ResponderIsCarried(trace, steps, i - 1, k);
      }
    }
  }

  lemma NothingAtFirst(trace: seq<State>, steps: seq<Step>)
    requires Run(trace, steps)
    ensures |trace| > 0 && trace[0].table.sessions == map[] && trace[0].provisional == map[]
  {
    hide Apply, Enabled;
  }

  lemma SessionIsCarried(trace: seq<State>, steps: seq<Step>, i: nat, k: nat)
    requires Run(trace, steps) && i + 1 < |trace| && Inv(trace[i]) && k in trace[i + 1].table.sessions
    requires k in trace[i].table.sessions ==>
               HasOrigin(trace, steps, i, k, trace[i].table.sessions[k].peer, trace[i].table.sessions[k].remoteKeyId)
    requires k in trace[i].provisional ==>
               HasOrigin(trace, steps, i, k, trace[i].provisional[k].peer, trace[i].provisional[k].remoteKeyId)
    ensures var session := trace[i + 1].table.sessions[k];
            HasOrigin(trace, steps, i + 1, k, session.peer, session.remoteKeyId)
  {
    hide Apply, Inv, HasOrigin, Enabled;
    var s, step, session := trace[i], steps[i], trace[i + 1].table.sessions[k];
    StepSessions(s, step, k);
    if k in s.table.sessions && s.table.sessions[k] == session {
      HeldIsNotClaimed(trace, steps, i, k);
      OriginPersists(trace, steps, i, k, session.peer, session.remoteKeyId);
    } else if step.Complete? {
      OriginBegins(trace, steps, i, k, session.peer, session.remoteKeyId);
    } else {
      HeldIsNotClaimed(trace, steps, i, k);
      OriginPersists(trace, steps, i, k, session.peer, session.remoteKeyId);
    }
  }

  lemma ResponderIsCarried(trace: seq<State>, steps: seq<Step>, i: nat, k: nat)
    requires Run(trace, steps) && i + 1 < |trace| && Inv(trace[i]) && k in trace[i + 1].provisional
    requires k in trace[i].provisional ==>
               HasOrigin(trace, steps, i, k, trace[i].provisional[k].peer, trace[i].provisional[k].remoteKeyId)
    ensures var entry := trace[i + 1].provisional[k];
            HasOrigin(trace, steps, i + 1, k, entry.peer, entry.remoteKeyId)
  {
    hide Apply, Inv, HasOrigin, Enabled;
    var s, step, entry := trace[i], steps[i], trace[i + 1].provisional[k];
    StepProvisional(s, step, k);
    if k in s.provisional && s.provisional[k] == entry {
      HeldIsNotClaimed(trace, steps, i, k);
      OriginPersists(trace, steps, i, k, entry.peer, entry.remoteKeyId);
    } else {
      OriginBegins(trace, steps, i, k, entry.peer, entry.remoteKeyId);
    }
  }

  /** Only one step is the last to claim an id. */
  lemma OriginIsUnique(trace: seq<State>, steps: seq<Step>, i: nat, j: nat, k: nat, peer: nat, remote: nat)
    requires Run(trace, steps) && ClaimedLast(trace, steps, i, j, k) && HasOrigin(trace, steps, i, k, peer, remote)
    ensures Carries(steps[j], peer, remote)
  {
    hide Run, Claims, Carries;
    var a: nat :| ClaimedLast(trace, steps, i, a, k) && Carries(steps[a], peer, remote);
    assert a == j;
  }

  /** Two control planes complete one exchange: one answers under id `y` an initiation that carries id `x`, the other
      completes its handshake pending under `x` with a response that carries `y`. As long as both keep the sessions,
      each side's remote id is the other's local id, and each has the peer it dealt with. */
  lemma ExchangeCrossesIds(a: seq<State>, al: seq<Step>, i: nat, ja: nat, b: seq<State>, bl: seq<Step>, j: nat, jb: nat,
                           x: nat, y: nat, p: nat, q: nat, now: int)
    requires Run(a, al) && ClaimedLast(a, al, i, ja, x) && al[ja] == Complete(p, y, now) && x in a[i].table.sessions
    requires Run(b, bl) && ClaimedLast(b, bl, j, jb, y) && bl[jb] == Answer(q, x, y) && y in b[j].table.sessions
    ensures a[i].table.sessions[x] == Session(p, x, y) && b[j].table.sessions[y] == Session(q, y, x)
  {
    hide Run, Claims, HasOrigin;
    RemoteIdsAreCarried(a, al, i, x);
    RemoteIdsAreCarried(b, bl, j, y);
    OriginIsUnique(a, al, i, ja, x, a[i].table.sessions[x].peer, a[i].table.sessions[x].remoteKeyId);
    OriginIsUnique(b, bl, j, jb, y, b[j].table.sessions[y].peer, b[j].table.sessions[y].remoteKeyId);
    ReachableInv(a, al, i);
    ReachableInv(b, bl, j);
  }

  // ----- a free key id always exists -----

  /** The ids held by handshakes of either kind. */
  function Handshakes(s: State): (ids: set<nat>)
  {
    s.provisional.Keys + s.pending.Values
  }

  lemma {:induction false} ValuesCount(m: map<nat, nat>)
    ensures |m.Values| <= |m|
  {
    if m == map[] {
      assert m.Values == {};
    } else {
      var k :| k in m;
      var rest := m - {k};
      assert m == rest[k := m[k]];
      ValuesCount(rest);
      SizeAfterInsert(rest, k, m[k]);
      assert m.Values <= rest.Values + {m[k]};
      SubsetSize(m.Values, rest.Values + {m[k]});
    }
  }

  lemma HandshakesCount(s: State)
    requires Inv(s)
    ensures |Handshakes(s)| <= 2 * MAXIMUM_PENDING
  {
    ValuesCount(s.pending);
    assert |s.provisional.Keys| == |s.provisional|;
    UnionCount(s.provisional.Keys, s.pending.Values);
  }

  lemma UnionCount(a: set<nat>, b: set<nat>)
    ensures |a + b| <= |a| + |b|
  {
    assert |a + b| == |a| + |b| - |a * b|;
  }

  /** After `m` probes from `start` every probed id was taken, and `found` are those that handshakes hold. */
  ghost predicate Probing(start: nat, m: nat, taken: set<nat>, held: set<nat>, found: set<nat>)
  {
    && 0 < start < KEY_IDS && m <= |taken| && |taken| + MAXIMUM_SESSIONS < KEY_IDS - 1
    && (forall j :: 0 <= j < m ==> IdAt(start, j) in taken)
    && held <= taken && found <= held && found <= Probed(start, m)
  }

  /** A probe beyond the ids already probed finds none of them again. */
  lemma ProbeIsNew(start: nat, m: nat, found: set<nat>, at: nat)
    requires 0 < start < KEY_IDS && m <= at < KEY_IDS - 1 && found <= Probed(start, m)
    ensures IdAt(start, at) !in found
    ensures found + {IdAt(start, at)} <= Probed(start, at + 1)
  {
    hide IdAt;
    forall j | 0 <= j < m ensures IdAt(start, j) != IdAt(start, at) {
      IdAtIsInjective(start, j, at);
    }
    forall k | k in found ensures k in Probed(start, at + 1) {
      assert k in Probed(start, m);
      var j :| 0 <= j < m && k == IdAt(start, j);
      assert 0 <= j < at + 1;
    }
    assert 0 <= at < at + 1;
    assert IdAt(start, at) in Probed(start, at + 1);
  }

  lemma ProbeExtends(start: nat, m: nat, more: nat, taken: set<nat>)
    requires 0 < start < KEY_IDS && m + more < KEY_IDS
    requires forall j :: 0 <= j < m ==> IdAt(start, j) in taken
    requires forall j :: m <= j < m + more ==> IdAt(start, j) in taken
    ensures forall j :: 0 <= j < m + more ==> IdAt(start, j) in taken
    ensures m + more <= |taken|
  {
    hide IdAt;
    ProbeBound(start, m + more, taken);
  }

  /** The next id no session has is one not seen before; if a handshake holds it, probing goes on. */
  lemma ProbeAgain(start: nat, m: nat, taken: set<nat>, held: set<nat>, found: set<nat>, skipped: nat)
    requires Probing(start, m, taken, held, found) && skipped < MAXIMUM_SESSIONS && 0 < IdAt(start, m) < KEY_IDS
    requires forall j :: 0 <= j < skipped ==> IdAt(IdAt(start, m), j) in taken
    ensures IdAt(IdAt(start, m), skipped + 1) == IdAt(start, m + skipped + 1)
    ensures var id := IdAt(IdAt(start, m), skipped);
            && id !in found
            && (id in held ==> Probing(start, m + skipped + 1, taken, held, found + {id})
                               && found + {id} <= held && |found + {id}| == |found| + 1)
  {
    hide IdAt, Probed;
    forall j | m <= j < m + skipped ensures IdAt(start, j) in taken {
      IdAtSum(start, m, j - m);
    }
    IdAtSum(start, m, skipped);
    IdAtSum(start, m, skipped + 1);
    ProbeExtends(start, m, skipped, taken);
    ProbeIsNew(start, m, found, m + skipped);
    if IdAt(start, m + skipped) in held { ProbeExtends(start, m + skipped, 1, taken); }
  }

  lemma FreeOrHeld(s: State, id: nat)
    requires 0 < id < KEY_IDS && id !in s.table.sessions
    ensures id in Handshakes(s) <==> id in s.provisional || id in s.pending.Values
    ensures Free(s, id) <==> id !in Handshakes(s)
  {
  }

  lemma ProbeBegins(s: State, start: nat)
    requires Inv(s) && 0 < start < KEY_IDS && |s.table.sessions| < MAXIMUM_SESSIONS
    ensures Probing(start, 0, s.table.sessions.Keys + Handshakes(s), Handshakes(s), {})
    ensures IdAt(start, 0) == start
  {
    hide IdAt, Consistent, Probed;
    IdAtNext(start, 0);
    HandshakesCount(s);
    UnionCount(s.table.sessions.Keys, Handshakes(s));
    assert |s.table.sessions.Keys| == |s.table.sessions|;
  }

  // ----- the class -----

  /** What reading an initiation yields: the failure before a peer is known, the peers with the claimed key,
      the failure of the second reading, the sender's key id and timestamp, and the failures while answering. */
  datatype Initiation = Initiation(early: Reply<()>, claimed: set<nat>, read: Reply<()>, remote: nat,
                                   timestamp: nat, written: Reply<()>, framed: Reply<()>)

  datatype Timer = HandshakeTimeout(peer: nat) | ProvisionalExpiry(subject: nat)
                 | Rekey(peer: nat, crypto: bool, reachable: bool, built: Reply<()>) | OtherTimer

  function ExpiredIds(events: seq<Timer>): (ids: set<nat>)
  {
    set e | e in events && e.ProvisionalExpiry? :: e.subject
  }

  function Rekeyed(events: seq<Timer>): (peers: set<nat>)
  {
    set e | e in events && e.Rekey? :: e.peer
  }

  function TimedOut(events: seq<Timer>): (peers: set<nat>)
  {
    set e | e in events && e.HandshakeTimeout? :: e.peer
  }

  /** What is left of an initiation from a known peer with a newer timestamp: the timestamp, and at most one
      provisional responder under a free id. */
  ghost predicate Attempted(s: State, r: State, peer: nat, m: Initiation)
  {
    && peer in m.claimed && Newer(s, peer, m.timestamp)
    && (r == Noted(s, peer, m.timestamp)
        || exists id :: Free(s, id) && r == Answered(Noted(s, peer, m.timestamp), peer, m.remote, id))
  }

  class ControlPlane {
    const sessions: SessionTable
    var peers: set<nat>
    var pending: map<nat, nat>
    var provisional: map<nat, Provisional>
    var greatest: map<nat, nat>

    /** Every state this control plane has been in, and every step it took. */
    ghost var trace: seq<State>
    ghost var steps: seq<Step>

    ghost function Model(): (s: State)
      reads this, sessions
    {
      State(sessions.Model(), peers, pending, provisional, greatest)
    }

    ghost predicate Valid()
      reads this, sessions
    {
      sessions.Valid() && Run(trace, steps) && trace[|trace| - 1] == Model() && Inv(Model())
    }

    constructor ()
      ensures Valid() && fresh(sessions) && Model() == EMPTY
    {
      var table := new SessionTable();
      sessions := table;
      peers, pending, provisional, greatest := {}, map[], map[], map[];
      trace, steps := [EMPTY], [];
    }

    /** The next id no session has, and whether a handshake holds it. */
    method Candidate(ghost start: nat, ghost m: nat, ghost found: set<nat>)
      returns (id: Option<nat>, busy: bool, ghost m': nat, ghost found': set<nat>)
      requires sessions.Valid() && 0 < start < KEY_IDS
      requires |sessions.sessions| < MAXIMUM_SESSIONS ==> sessions.nextKeyId == IdAt(start, m)
      requires |sessions.sessions| < MAXIMUM_SESSIONS ==>
                 Probing(start, m, sessions.sessions.Keys + Handshakes(Model()), Handshakes(Model()), found)
      modifies sessions`nextKeyId
      ensures sessions.Valid() && Model() == old(Model())
      ensures id.None? <==> |sessions.sessions| >= MAXIMUM_SESSIONS
      ensures id.Some? && !busy ==> Free(Model(), id.value)
      ensures id.Some? && busy ==>
                && Probing(start, m', sessions.sessions.Keys + Handshakes(Model()), Handshakes(Model()), found')
                && sessions.nextKeyId == IdAt(start, m') && found' <= Handshakes(Model()) && |found'| == |found| + 1
    {
      hide Consistent, IdAt, Probing, Free, Handshakes;
      m', found', busy := m, found, false;
      var candidate, skipped := sessions.AllocateKeyId();
      if candidate.Err? { return None, busy, m, found; }
      id := Some(candidate.value);
      FreeOrHeld(Model(), candidate.value);
      ProbeAgain(start, m, sessions.sessions.Keys + Handshakes(Model()), Handshakes(Model()), found, skipped);
      busy := candidate.value in provisional || candidate.value in pending.Values;
      if busy { m', found' := m + skipped + 1, found + {candidate.value}; }
    }

    /** With room for a session, a key id free among sessions and both kinds of handshakes is always
        found within the attempts made. */
    method AllocateKeyId() returns (r: Reply<nat>)
      requires Valid()
      modifies sessions`nextKeyId
      ensures Valid() && Model() == old(Model())
      ensures |sessions.sessions| < MAXIMUM_SESSIONS ==> r.Done? && Free(Model(), r.value)
      ensures |sessions.sessions| >= MAXIMUM_SESSIONS ==> r == Refused(SessionInstallFailed)
    {
      hide Consistent, IdAt, Inv, Probing, Run, Free, Handshakes;
      ghost var start: nat, m: nat, found: set<nat> := sessions.nextKeyId, 0, {};
      ghost var held := Handshakes(Model());
      r := Refused(SessionInstallFailed);
      if |sessions.sessions| < MAXIMUM_SESSIONS { ProbeBegins(Model(), start); }
      for attempt := 0 to ALLOCATION_ATTEMPTS
        invariant sessions.Valid() && Model() == old(Model())
        invariant |sessions.sessions| < MAXIMUM_SESSIONS ==>
                    && Probing(start, m, sessions.sessions.Keys + held, held, found)
                    && sessions.nextKeyId == IdAt(start, m) && found <= held && |found| == attempt
        invariant attempt > 0 ==> |sessions.sessions| < MAXIMUM_SESSIONS
      {
        var id, busy;
        id, busy, m, found := Candidate(start, m, found);
        if id.None? { return Refused(SessionInstallFailed); }
        if busy { continue; }
        return Done(id.value);
      }
      HandshakesCount(Model());
      SubsetSize(found, held);
      assert false;
    }

    /** Records in the ghost run that `step` was just taken. */
    ghost method Record(s: State, step: Step)
      requires sessions.Valid() && Run(trace, steps) && trace[|trace| - 1] == s && Inv(s)
      requires Enabled(s, step) && Model() == Apply(s, step)
      modifies this`trace, this`steps
      ensures Valid() && trace == old(trace) + [Model()] && steps == old(steps) + [step]
    {
      hide Apply, Enabled, Inv, Run;
      Extends(trace, steps, step);
      StepKeepsInv(s, step);
      trace, steps := trace + [Model()], steps + [step];
    }

    method AddPeerConfig(peer: nat) returns (r: Reply<()>)
      requires Valid()
      modifies this
      ensures Valid() && old(trace) <= trace && old(steps) <= steps
      ensures peer == NO_PEER ==> r == Refused(ControlError.UnknownPeer) && Model() == old(Model())
      ensures peer != NO_PEER ==> r == Done(()) && Model() == old(Model()).(peers := old(peers) + {peer})
    {
      hide Inv, Run;
      if peer == NO_PEER { return Refused(ControlError.UnknownPeer); }
      ghost var before := Model();
      peers := peers + {peer};
      Record(before, AddPeer(peer));
      return Done(());
    }

    method ForgetPeer(peer: nat)
      requires Valid()
      modifies this`peers, this`pending, this`greatest, this`provisional, this`trace, this`steps
      ensures Valid() && old(trace) <= trace && old(steps) <= steps
      ensures Model() == Forgotten(old(Model()), peer)
      ensures forall k :: k in provisional ==> provisional[k].peer != peer
    {
      hide Inv, Run, Apply, Enabled, Consistent, OfOthers;
      ghost var before := Model();
      ForgetStep(before, peer);
      ForgottenIs(before, peer);
      peers, pending, greatest := peers - {peer}, pending - {peer}, greatest - {peer};
      provisional := OfOthers(provisional, peer);
      Record(before, Forget(peer));
    }

    method StartHandshake(peer: nat, crypto: bool, reachable: bool, built: Reply<()>) returns (r: Reply<nat>)
      requires Valid()
      modifies this, sessions`nextKeyId
      ensures Valid() && old(trace) <= trace && old(steps) <= steps
      ensures r.Done? ==> Free(old(Model()), r.value) && Model() == Started(old(Model()), peer, r.value)
      ensures r.Refused? ==> Model() == old(Model())
      ensures r.Done? <==>
                && crypto && peer in old(peers) && reachable && built.Done? && |sessions.sessions| < MAXIMUM_SESSIONS
                && (|old(pending)| < MAXIMUM_PENDING || peer in old(pending))
      ensures r == Refused(TooManyPending) && built != Refused(TooManyPending) ==>
                |old(pending)| >= MAXIMUM_PENDING && peer !in old(pending)
    {
      hide Inv, Run, Free;
      if !crypto { return Refused(CryptoUnavailable); }
      if peer !in peers || !reachable { return Refused(ControlError.UnknownPeer); }
      if |pending| >= MAXIMUM_PENDING && peer !in pending { return Refused(TooManyPending); }
      ghost var before := Model();
      var id := AllocateKeyId();
      if id.Refused? { return Refused(id.why); }
      if built.Refused? { return Refused(built.why); }
      pending := pending[peer := id.value];
      Record(before, Start(peer, id.value));
      return Done(id.value);
    }

    /** Answering an initiation. The timestamp is remembered as soon as it proves newer, whether or not the
        answer can be completed. */
    method HandleInitiation(m: Initiation) returns (r: Reply<nat>, ghost peer: nat)
      requires Valid()
      modifies this, sessions`nextKeyId
      ensures Valid() && old(trace) <= trace && old(steps) <= steps
      ensures Model() == old(Model()) || Attempted(old(Model()), Model(), peer, m)
      ensures r.Done? ==> r.value in provisional && provisional[r.value] == Provisional(peer, r.value, m.remote)
      ensures r.Done? ==> peer in m.claimed && Newer(old(Model()), peer, m.timestamp) && Free(old(Model()), r.value)
                          && Model() == Answered(Noted(old(Model()), peer, m.timestamp), peer, m.remote, r.value)
      ensures |old(provisional)| >= MAXIMUM_PENDING ==> r == Refused(TooManyPending) && Model() == old(Model())
      ensures r.Refused? && |old(provisional)| < MAXIMUM_PENDING && |sessions.sessions| < MAXIMUM_SESSIONS
              && m.early.Done? && m.read.Done? && m.written.Done? && m.framed.Done? ==>
                || (r.why == ControlError.UnknownPeer && old(peers) !! m.claimed)
                || (r.why == InvalidMessage && (m.remote == PRE_SESSION || !Newer(old(Model()), peer, m.timestamp)))
    {
      hide Inv, Run, Free, Answered, Noted;
      peer := NO_PEER;
      if |provisional| >= MAXIMUM_PENDING { return Refused(TooManyPending), peer; }
      if m.early.Refused? { return Refused(m.early.why), peer; }
      if peers !! m.claimed { return Refused(ControlError.UnknownPeer), peer; }
      var matched :| matched in peers && matched in m.claimed;
      peer := matched;
      if m.read.Refused? { return Refused(m.read.why), peer; }
      if m.remote == PRE_SESSION { return Refused(InvalidMessage), peer; }
      if matched in greatest && m.timestamp <= greatest[matched] { return Refused(InvalidMessage), peer; }
      r := Respond(matched, m);
    }

    /** The part of answering that follows a newer timestamp from a known peer. */
    method Respond(matched: nat, m: Initiation) returns (r: Reply<nat>)
      requires Valid() && |provisional| < MAXIMUM_PENDING && m.remote != PRE_SESSION
      requires matched in m.claimed && Newer(Model(), matched, m.timestamp)
      modifies this, sessions`nextKeyId
      ensures Valid() && old(trace) <= trace && old(steps) <= steps
      ensures Attempted(old(Model()), Model(), matched, m)
      ensures r.Done? ==> r.value in provisional && provisional[r.value] == Provisional(matched, r.value, m.remote)
      ensures r.Done? ==> Free(old(Model()), r.value)
                          && Model() == Answered(Noted(old(Model()), matched, m.timestamp), matched, m.remote, r.value)
      ensures r.Done? <==> |sessions.sessions| < MAXIMUM_SESSIONS && m.written.Done? && m.framed.Done?
    {
      hide Inv, Run, Apply, Enabled;
      ghost var before := Model();
      NoteStep(before, matched, m.timestamp);
      greatest := greatest[matched := m.timestamp];
      Record(before, NoteTimestamp(matched, m.timestamp));
      ghost var noted := Model();
      var id := AllocateKeyId();
      if id.Refused? { return Refused(id.why); }
      if m.written.Refused? { return Refused(m.written.why); }
      AnswerStep(noted, matched, m.remote, id.value);
      provisional := provisional[id.value := Provisional(matched, id.value, m.remote)];
      Record(noted, Answer(matched, m.remote, id.value));
      assert Free(before, id.value);
      if m.framed.Refused? { return Refused(m.framed.why); }
      return Done(id.value);
    }

    /** A response completes the first pending handshake that accepts it; `answers` gives the key id the
        response carries to each peer whose handshake reads it. */
    method HandleResponse(answers: map<nat, nat>, now: int) returns (r: Reply<nat>, ghost peer: nat)
      requires Valid()
      modifies this, sessions
      ensures Valid() && old(trace) <= trace && old(steps) <= steps
      ensures r == Refused(NotPending) <==> forall p :: p in old(pending) && p in answers ==> answers[p] == PRE_SESSION
      ensures r == Refused(NotPending) ==> Model() == old(Model())
      ensures r != Refused(NotPending) ==> peer in old(pending) && peer in answers
                                           && Model() == Completed(old(Model()), peer, answers[peer], now)
      ensures r.Done? ==> r.value == peer && peer !in pending && old(pending[peer]) in sessions.sessions
                          && IsCurrent(sessions.Model(), old(pending[peer]))
                          && sessions.sessions[old(pending[peer])] == Session(peer, old(pending[peer]), answers[peer])
      ensures r.Refused? && r.why != NotPending ==>
                r.why == SessionInstallFailed && |sessions.sessions| >= MAXIMUM_SESSIONS
                && Model() == old(Model())
    {
      hide Run, Consistent;
      peer := NO_PEER;
      var rest := pending.Keys;
      while rest != {}
        invariant Valid() && Model() == old(Model()) && rest <= pending.Keys
        invariant trace == old(trace) && steps == old(steps)
        invariant forall p :: p in pending && p !in rest && p in answers ==> answers[p] == PRE_SESSION
        decreases |rest|
      {
        var p :| p in rest;
        rest := rest - {p};
        if p in answers && answers[p] != PRE_SESSION {
          peer := p;
          r := InstallPending(p, answers[p], now);
          return;
        }
      }
      r := Refused(NotPending);
    }

    method InstallPending(peer: nat, remote: nat, now: int) returns (r: Reply<nat>)
      requires Valid() && peer in pending && remote != PRE_SESSION
      modifies this, sessions
      ensures Valid() && old(trace) <= trace && old(steps) <= steps
      ensures Model() == Completed(old(Model()), peer, remote, now)
      ensures r.Done? ==> r.value == peer && peer !in pending && IsCurrent(sessions.Model(), old(pending[peer]))
                          && sessions.sessions[old(pending[peer])] == Session(peer, old(pending[peer]), remote)
      ensures r.Refused? ==> r.why == SessionInstallFailed && |sessions.sessions| >= MAXIMUM_SESSIONS
                             && Model() == old(Model())
    {
      hide Run, Inv, Consistent, Installed, TakenByOther, IsCurrent, Apply, Enabled;
      ghost var before := Model();
      CompleteStep(before, peer, remote, now);
      PendingIsFresh(before, peer);
      FreshInstallSucceeds(before.table, Session(peer, pending[peer], remote), now);
      var installed := sessions.Install(peer, Session(peer, pending[peer], remote), now);
      if installed.Err? { return Refused(SessionInstallFailed); }
      pending := pending - {peer};
      Record(before, Complete(peer, remote, now));
      return Done(peer);
    }

    /** The first packet under a provisional id: only an authentic one promotes it. */
    method TryPromote(id: nat, authentic: bool, now: int) returns (r: Reply<()>)
      requires Valid()
      modifies this, sessions
      ensures Valid() && old(trace) <= trace && old(steps) <= steps
      ensures id !in old(provisional) ==> r == Refused(NotPending) && Model() == old(Model())
      ensures id in old(provisional) && !authentic ==> r == Refused(HandshakeFailed) && Model() == old(Model())
      ensures id in old(provisional) && authentic ==>
                && Model() == Promoted(old(Model()), id, now) && id !in provisional
                && (r.Done? <==> |old(sessions.sessions)| < MAXIMUM_SESSIONS)
                && (r.Done? ==> IsCurrent(sessions.Model(), id)
                                && sessions.sessions[id].peer == old(provisional)[id].peer
                                && sessions.sessions[id].remoteKeyId == old(provisional)[id].remoteKeyId)
    {
      hide Run, Inv, Consistent, Installed, TakenByOther, IsCurrent, Apply, Enabled;
      if id !in provisional { return Refused(NotPending); }
      if !authentic { return Refused(HandshakeFailed); }
      ghost var before := Model();
      var e := provisional[id];
      ProvisionalIsFresh(before, id);
      PromoteStep(before, id, now);
      FreshInstallSucceeds(before.table, Session(e.peer, e.localKeyId, e.remoteKeyId), now);
      var installed := sessions.Install(e.peer, Session(e.peer, e.localKeyId, e.remoteKeyId), now);
      provisional := provisional - {id};
      Record(before, Promote(id, now));
      if installed.Err? { return Refused(SessionInstallFailed); }
      return Done(());
    }

    /** Due timers: handshakes and provisional responders that waited too long are dropped, and rekeying starts
        new handshakes. Sessions are not touched. */
    method OnTimers(events: seq<Timer>)
      requires Valid()
      modifies this, sessions`nextKeyId
      ensures Valid() && old(trace) <= trace && old(steps) <= steps
      ensures sessions.Model() == old(sessions.Model()) && peers == old(peers) && greatest == old(greatest)
      ensures provisional == old(provisional) - ExpiredIds(events)
      ensures forall p :: p in pending && p !in Rekeyed(events) ==>
                p in old(pending) && pending[p] == old(pending)[p] && p !in TimedOut(events)
      ensures forall p :: p in old(pending) && p !in TimedOut(events) ==> p in pending
    {
      hide Inv, Run;
      for i := 0 to |events|
        invariant Valid() && old(trace) <= trace && old(steps) <= steps
        invariant sessions.Model() == old(sessions.Model()) && peers == old(peers) && greatest == old(greatest)
        invariant provisional == old(provisional) - ExpiredIds(events[..i])
        invariant forall p :: p in pending && p !in Rekeyed(events[..i]) ==>
                    p in old(pending) && pending[p] == old(pending)[p] && p !in TimedOut(events[..i])
        invariant forall p :: p in old(pending) && p !in TimedOut(events[..i]) ==> p in pending
      {
        DueStep(events, i);
        Due(events[i]);
      }
      assert events[..|events|] == events;
    }

    method Due(event: Timer)
      requires Valid()
      modifies this, sessions`nextKeyId
      ensures Valid() && old(trace) <= trace && old(steps) <= steps
      ensures sessions.Model() == old(sessions.Model()) && peers == old(peers) && greatest == old(greatest)
      ensures provisional == if event.ProvisionalExpiry? then old(provisional) - {event.subject} else old(provisional)
      ensures event.HandshakeTimeout? ==> pending == old(pending) - {event.peer}
      ensures event.Rekey? ==> forall p :: p != event.peer ==>
                (p in pending <==> p in old(pending)) && (p in pending ==> pending[p] == old(pending)[p])
      ensures event.Rekey? && event.peer in old(pending) ==> event.peer in pending
      ensures !event.HandshakeTimeout? && !event.Rekey? ==> pending == old(pending)
    {
      hide Inv, Run, Free, Consistent, HeldByPending;
      match event
      case HandshakeTimeout(p) => DropPending(p);
      case ProvisionalExpiry(k) => DropProvisional(k);
      case Rekey(p, crypto, reachable, built) =>
        var started := StartHandshake(p, crypto, reachable, built);
      case OtherTimer =>
    }

    method DropPending(peer: nat)
      requires Valid()
      modifies this`pending, this`trace, this`steps
      ensures Valid() && old(trace) <= trace && old(steps) <= steps
      ensures Model() == old(Model()).(pending := old(pending) - {peer})
    {
      hide Inv, Run, Apply, Enabled;
      ghost var before := Model();
      TimeoutSteps(before, peer, 0);
      pending := pending - {peer};
      Record(before, PendingTimeout(peer));
    }

    method DropProvisional(id: nat)
      requires Valid()
      modifies this`provisional, this`trace, this`steps
      ensures Valid() && old(trace) <= trace && old(steps) <= steps
      ensures Model() == old(Model()).(provisional := old(provisional) - {id})
    {
      hide Inv, Run, Apply, Enabled;
      ghost var before := Model();
      TimeoutSteps(before, 0, id);
      provisional := provisional - {id};
      Record(before, ProvisionalTimeout(id));
    }
  }

  lemma DueStep(events: seq<Timer>, i: nat)
    requires i < |events|
    ensures ExpiredIds(events[..i + 1])
            == ExpiredIds(events[..i]) + if events[i].ProvisionalExpiry? then {events[i].subject} else {}
    ensures Rekeyed(events[..i + 1]) == Rekeyed(events[..i]) + if events[i].Rekey? then {events[i].peer} else {}
    ensures TimedOut(events[..i + 1])
            == TimedOut(events[..i]) + if events[i].HandshakeTimeout? then {events[i].peer} else {}
  {
    assert events[..i + 1] == events[..i] + [events[i]];
  }

  // ----- replayed initiations -----

  ghost predicate Knows(trace: seq<State>, peer: nat, i: nat, j: nat)
  {
    forall k :: i <= k <= j && k < |trace| ==> peer in trace[k].greatest
  }

  lemma StepGrows(s: State, step: Step, peer: nat)
    requires Enabled(s, step) && peer in s.greatest && peer in Apply(s, step).greatest
    ensures s.greatest[peer] <= Apply(s, step).greatest[peer]
  {
    hide Installed, Removed, Expired, Free;
  }

  /** As long as a peer is not forgotten, an initiation no newer than one remembered stays refused. */
  lemma {:induction false} ReplayStaysRefused(trace: seq<State>, steps: seq<Step>, i: nat, j: nat,
                                              peer: nat, timestamp: nat)
    requires Run(trace, steps) && i <= j < |trace| && Knows(trace, peer, i, j)
    requires timestamp <= trace[i].greatest[peer]
    ensures !Newer(trace[j], peer, timestamp)
    ensures trace[i].greatest[peer] <= trace[j].greatest[peer]
    decreases j
  {
    hide Apply, Enabled;
    if i < j {
      ReplayStaysRefused(trace, steps, i, j - 1, peer, timestamp);
      StepGrows(trace[j - 1], steps[j - 1], peer);
    }
  }
}
