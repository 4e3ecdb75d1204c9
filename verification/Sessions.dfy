/** The session store's part in rotation, and the resolver that maps a peer to its active session. */
module Sessions {
  import opened Options
  import ThreadIdentity

  const DAY_MS: int := 86_400_000
  const HOUR_MS: int := 3_600_000

  datatype Source = User | Heartbeat | Cron | Webhook

  datatype Reason = Idle | Daily | Length | ByUser | Migration

  datatype Closing = Closing(at: int, reason: Reason)

  datatype Row = Row(
    peer: string, openedAt: int, closed: Option<Closing>, turns: nat, lastUserMessageAt: int, source: Source)

  datatype PeerRow = PeerRow(active: Option<string>, lastActiveAt: int)

  datatype Store = Store(peers: map<string, PeerRow>, sessions: map<string, Row>)

  datatype Mode = Never | EveryDay | WhenIdle | Both

  /** `offset` is what the local clock is ahead of UTC. */
  datatype Policy = Policy(mode: Mode, atHour: int, idleMs: int, offset: int)

  /** The clock readings of one call, one for each store operation and one for the decision. */
  datatype Clock = Clock(upsert: int, decide: int, close: int, open: int)

  datatype Resolved = Resolved(
    threadId: string, peerId: string, sessionId: string, isNew: bool,
    closeReason: Option<Reason>, previousSessionId: Option<string>)

  // ---- the store --------------------------------------------------------------------------------

  function Upsert(s: Store, peer: string, now: int): Store {
    var row := if peer in s.peers then s.peers[peer].(lastActiveAt := now) else PeerRow(None, now);
    s.(peers := s.peers[peer := row])
  }

  /** A session is closed at most once; the pointer is dropped from every peer that holds it. */
  function Close(s: Store, id: string, reason: Reason, now: int): Store {
    Store(
      map p | p in s.peers :: if s.peers[p].active == Some(id) then s.peers[p].(active := None) else s.peers[p],
      if id in s.sessions && s.sessions[id].closed.None?
      then s.sessions[id := s.sessions[id].(closed := Some(Closing(now, reason)))] else s.sessions)
  }

  /** Session ids are a primary key: inserting one that exists throws. */
  function Open(s: Store, peer: string, id: string, source: Source, now: int): Option<Store> {
    if id in s.sessions then None
    else
      var row := Row(peer, now, None, 0, now, source);
      Some(Store(
             if peer in s.peers then s.peers[peer := PeerRow(Some(id), now)] else s.peers,
             s.sessions[id := row]))
  }

  function Touch(s: Store, id: string, source: Source, now: int): Store {
    if id !in s.sessions then s
    else
      var row := s.sessions[id].(turns := s.sessions[id].turns + 1);
      s.(sessions := s.sessions[id := if source == User then row.(lastUserMessageAt := now) else row])
  }

  function Active(s: Store, peer: string): (id: Option<string>)
    ensures id.Some? ==> id.value in s.sessions
  {
    if peer !in s.peers || s.peers[peer].active.None? then None
    else
      var id := s.peers[peer].active.value;
      if id == "" || id !in s.sessions || s.sessions[id].closed.Some? then None else Some(id)
  }

  class LearningStore {
    var peers: map<string, PeerRow>
    var sessions: map<string, Row>

    constructor ()
      ensures Contents() == Store(map[], map[])
    {
      peers, sessions := map[], map[];
    }

    ghost function Contents(): Store
      reads this
    {
      Store(peers, sessions)
    }

    method UpsertPeer(peer: string, now: int)
      modifies this
      ensures Contents() == Upsert(old(Contents()), peer, now)
    {
      if peer in peers {
        peers := peers[peer := peers[peer].(lastActiveAt := now)];
      } else {
        peers := peers[peer := PeerRow(None, now)];
      }
    }

    method CloseSession(id: string, reason: Reason, now: int)
      modifies this
      ensures Contents() == Close(old(Contents()), id, reason, now)
    {
      if id in sessions && sessions[id].closed.None? {
        sessions := sessions[id := sessions[id].(closed := Some(Closing(now, reason)))];
      }
      peers := map p | p in peers :: if peers[p].active == Some(id) then peers[p].(active := None) else peers[p];
    }

    method OpenSession(peer: string, id: string, source: Source, now: int) returns (ok: bool)
      modifies this
      ensures ok == Open(old(Contents()), peer, id, source, now).Some?
      ensures Contents() == if ok then Open(old(Contents()), peer, id, source, now).value else old(Contents())
    {
      if id in sessions { return false; }
      sessions := sessions[id := Row(peer, now, None, 0, now, source)];
      if peer in peers {
        peers := peers[peer := PeerRow(Some(id), now)];
      }
      return true;
    }

    method TouchSession(id: string, source: Source, now: int)
      modifies this
      ensures Contents() == Touch(old(Contents()), id, source, now)
    {
      if id in sessions {
        var row := sessions[id].(turns := sessions[id].turns + 1);
        if source == User {
          row := row.(lastUserMessageAt := now);
        }
        sessions := sessions[id := row];
      }
    }

    method GetActiveSession(peer: string) returns (id: Option<string>)
      ensures id == Active(Contents(), peer)
    {
      if peer !in peers || peers[peer].active.None? { return None; }
      var found := peers[peer].active.value;
      if found == "" || found !in sessions || sessions[found].closed.Some? { return None; }
      return Some(found);
    }
  }

  // ---- the decision -----------------------------------------------------------------------------

  /** The last moment at or before `now` at which the local clock showed the reset hour. */
  function TodayBoundary(p: Policy, now: int): int {
    var local := now + p.offset;
    var candidate := local - local % DAY_MS + p.atHour * HOUR_MS - p.offset;
    if candidate <= now then candidate else candidate - DAY_MS
  }

  /** `None` is "reuse". */
  function ShouldRotate(p: Policy, active: Option<Row>, force: bool, now: int): Option<Reason> {
    if active.None? then Some(Migration)
    else if force then Some(ByUser)
    else if p.mode == Never then None
    else
      var last := active.value.lastUserMessageAt;
      if p.mode in {EveryDay, Both} && last < TodayBoundary(p, now) then Some(Daily)
      else if p.mode in {WhenIdle, Both} && now - last > p.idleMs then Some(Idle)
      else None
  }

  /** The boundary lies in the last 24 hours at every moment exactly for the reset hours 0 to 24. */
  lemma BoundaryIsWithinADay(p: Policy)
    ensures (forall now :: TodayBoundary(p, now) <= now < TodayBoundary(p, now) + DAY_MS) <==> 0 <= p.atHour <= 24
  {
    var midnight := -p.offset;
    if p.atHour > 24 {
      assert TodayBoundary(p, midnight) >= midnight + HOUR_MS;
    } else if p.atHour < 0 {
      var late := midnight + DAY_MS - 1;
      assert TodayBoundary(p, late) <= late - DAY_MS;
    } else {
      forall now ensures TodayBoundary(p, now) <= now < TodayBoundary(p, now) + DAY_MS {
        BoundaryAt(p, now);
      }
    }
  }

  lemma BoundaryAt(p: Policy, now: int)
    requires 0 <= p.atHour <= 24
    ensures TodayBoundary(p, now) <= now < TodayBoundary(p, now) + DAY_MS
  {
  }

  /** A moment at which the local clock shows the reset hour. */
  predicate IsReset(p: Policy, at: int) {
    (at + p.offset - p.atHour * 3_600_000) % 86_400_000 == 0
  }

  lemma BoundaryIsAReset(p: Policy, now: int)
    ensures (TodayBoundary(p, now) + p.offset - p.atHour * 3_600_000) % 86_400_000 == 0
  {
    var local := now + p.offset;
    var midnight := local - local % DAY_MS;
    assert midnight == DAY_MS * (local / DAY_MS);
    var at := TodayBoundary(p, now);
    assert at + p.offset - p.atHour * HOUR_MS == midnight || at + p.offset - p.atHour * HOUR_MS == midnight - DAY_MS;
  }

  /** A reset moment passes between two times. */
  ghost predicate ResetBetween(p: Policy, last: int, now: int) {
    exists at :: IsReset(p, at) && last < at <= now
  }

  /** Comparing with the boundary asks whether a reset moment has passed since. */
  lemma BeforeBoundaryIff(p: Policy, last: int, now: int)
    requires 0 <= p.atHour <= 24
    ensures last < TodayBoundary(p, now) <==> ResetBetween(p, last, now)
  {
    var boundary := TodayBoundary(p, now);
    BoundaryIsAReset(p, now);
    BoundaryAt(p, now);
    assert IsReset(p, boundary);
    if at :| IsReset(p, at) && last < at <= now {
      if boundary < at {
        ResetsAreADayApart(p, boundary, at);
      }
    }
  }

  lemma ResetsAreADayApart(p: Policy, a: int, b: int)
    requires IsReset(p, a) && IsReset(p, b) && a < b
    ensures a + 86_400_000 <= b
  {
  }

  /** In 'both' mode the idle limit can never be the one that closes, exactly from 24 hours less 1 ms on. */
  lemma BothModeClosesIdleIff(p: Policy)
    requires p.mode == Both && 0 <= p.atHour <= 24
    ensures (exists row, force, now :: ShouldRotate(p, Some(row), force, now) == Some(Idle)) <==> p.idleMs < DAY_MS - 1
  {
    if p.idleMs < DAY_MS - 1 {
      var now := -p.offset + p.atHour * HOUR_MS - 1;
      var last := now + 1 - DAY_MS;
      BoundaryAt(p, now);
      assert TodayBoundary(p, now) == last;
      var row := Row("", last, None, 0, last, User);
      assert ShouldRotate(p, Some(row), false, now) == Some(Idle);
    } else {
      forall row, force, now ensures ShouldRotate(p, Some(row), force, now) != Some(Idle) {
        BoundaryAt(p, now);
      }
    }
  }

  // ---- the resolver -----------------------------------------------------------------------------

  /** One `resolve` call; `newId` is the session id that would be generated. */
  datatype Request = Request(peer: string, source: Source, force: bool, clock: Clock, newId: string)

  function Decision(p: Policy, s: Store, q: Request): Option<Reason> {
    var active := Active(s, q.peer);
    ShouldRotate(p, if active.Some? then Some(s.sessions[active.value]) else None, q.force, q.clock.decide)
  }

  /** The store after one call, and what the call returns: nothing when it throws. */
  function Resolution(p: Policy, s: Store, q: Request): (Store, Option<Resolved>) {
    var s1 := Upsert(s, q.peer, q.clock.upsert);
    var active := Active(s1, q.peer);
    var reason := Decision(p, s1, q);
    if reason.None? then
      (s1, Some(Resolved(ThreadIdentity.Compose(q.peer, active.value), q.peer, active.value, false, None, None)))
    else
      var s2 := if active.Some? then Close(s1, active.value, reason.value, q.clock.close) else s1;
      var s3 := Open(s2, q.peer, q.newId, q.source, q.clock.open);
      if s3.None? then (s2, None)
      else
        var closed := if active.Some? then reason else None;
        (s3.value, Some(Resolved(ThreadIdentity.Compose(q.peer, q.newId), q.peer, q.newId, true, closed, active)))
  }

  function TouchActive(s: Store, peer: string, source: Source, now: int): Store {
    var active := Active(s, peer);
    if active.None? then s else Touch(s, active.value, source, now)
  }

  class SessionResolver {
    const store: LearningStore
    const policy: Policy

    constructor (store: LearningStore, policy: Policy)
      ensures this.store == store && this.policy == policy
    {
      this.store, this.policy := store, policy;
    }

    method Resolve(q: Request) returns (r: Option<Resolved>)
      modifies store
      ensures (store.Contents(), r) == Resolution(policy, old(store.Contents()), q)
    {
      store.UpsertPeer(q.peer, q.clock.upsert);
      var active := store.GetActiveSession(q.peer);
      var row := if active.Some? then Some(store.sessions[active.value]) else None;
      var reason := ShouldRotate(policy, row, q.force, q.clock.decide);
      if reason.None? {
        return Some(Resolved(ThreadIdentity.Compose(q.peer, active.value), q.peer, active.value, false, None, None));
      }
      var closeReason: Option<Reason> := None;
      if active.Some? {
        store.CloseSession(active.value, reason.value, q.clock.close);
        closeReason := reason;
      }
      var ok := store.OpenSession(q.peer, q.newId, q.source, q.clock.open);
      if !ok { return None; }
      return Some(Resolved(ThreadIdentity.Compose(q.peer, q.newId), q.peer, q.newId, true, closeReason, active));
    }

    method Touch(peer: string, source: Source, now: int)
      modifies store
      ensures store.Contents() == TouchActive(old(store.Contents()), peer, source, now)
    {
      var active := store.GetActiveSession(peer);
      if active.Some? {
        store.TouchSession(active.value, source, now);
      }
    }
  }

  // ---- what every call keeps --------------------------------------------------------------------

  /** The peers' pointers and the open sessions name each other. */
  ghost predicate Sound(s: Store) {
    && "" !in s.sessions
    && (forall p :: p in s.peers && s.peers[p].active.Some? ==> Points(s, p))
    && (forall id :: id in s.sessions && s.sessions[id].closed.None? ==> Pointed(s, id))
  }

  ghost predicate Points(s: Store, p: string)
    requires p in s.peers && s.peers[p].active.Some?
  {
    var id := s.peers[p].active.value;
    id in s.sessions && s.sessions[id].closed.None? && s.sessions[id].peer == p
  }

  ghost predicate Pointed(s: Store, id: string)
    requires id in s.sessions
  {
    var p := s.sessions[id].peer;
    p in s.peers && s.peers[p].active == Some(id)
  }

  /** At most one session of a peer is open. */
  lemma OneOpenPerPeer(s: Store, a: string, b: string)
    requires Sound(s) && a in s.sessions && b in s.sessions && s.sessions[a].peer == s.sessions[b].peer
    requires s.sessions[a].closed.None? && s.sessions[b].closed.None?
    ensures a == b
  {
    assert Pointed(s, a) && Pointed(s, b);
  }

  lemma ActiveIsTheOpenOne(s: Store, peer: string, id: string)
    requires Sound(s)
    ensures Active(s, peer) == Some(id)
       <==> id in s.sessions && s.sessions[id].closed.None? && s.sessions[id].peer == peer
  {
    if peer in s.peers && s.peers[peer].active.Some? {
      assert Points(s, peer);
    }
    if id in s.sessions && s.sessions[id].closed.None? {
      assert Pointed(s, id);
    }
  }

  lemma UpsertKeepsSound(s: Store, peer: string, now: int)
    requires Sound(s)
    ensures Sound(Upsert(s, peer, now))
    ensures forall p :: Active(Upsert(s, peer, now), p) == Active(s, p)
  {
    var t := Upsert(s, peer, now);
    forall p | p in t.peers && t.peers[p].active.Some? ensures Points(t, p) { assert Points(s, p); }
    forall id | id in t.sessions && t.sessions[id].closed.None? ensures Pointed(t, id) { assert Pointed(s, id); }
  }

  lemma CloseKeepsSound(s: Store, id: string, reason: Reason, now: int)
    requires Sound(s)
    ensures Sound(Close(s, id, reason, now))
  {
    var t := Close(s, id, reason, now);
    forall p | p in t.peers && t.peers[p].active.Some? ensures Points(t, p) { assert Points(s, p); }
    forall k | k in t.sessions && t.sessions[k].closed.None? ensures Pointed(t, k) { assert Pointed(s, k); }
  }

  lemma OpenKeepsSound(s: Store, peer: string, id: string, source: Source, now: int)
    requires Sound(s) && peer in s.peers && Active(s, peer).None? && id != ""
    ensures Open(s, peer, id, source, now).Some? ==> Sound(Open(s, peer, id, source, now).value)
  {
    if id !in s.sessions {
      var t := Open(s, peer, id, source, now).value;
      forall p | p in t.peers && t.peers[p].active.Some? ensures Points(t, p) {
        if p != peer { assert Points(s, p); }
      }
      forall k | k in t.sessions && t.sessions[k].closed.None? ensures Pointed(t, k) {
        if k != id {
          assert Pointed(s, k);
          ActiveIsTheOpenOne(s, peer, k);
        }
      }
    }
  }

  lemma TouchKeepsSound(s: Store, id: string, source: Source, now: int)
    requires Sound(s)
    ensures Sound(Touch(s, id, source, now))
  {
    var t := Touch(s, id, source, now);
    forall p | p in t.peers && t.peers[p].active.Some? ensures Points(t, p) { assert Points(s, p); }
    forall k | k in t.sessions && t.sessions[k].closed.None? ensures Pointed(t, k) { assert Pointed(s, k); }
  }

  /** Nothing that is closed ever changes, and a session that was open is closed with a real reason only. */
  ghost predicate Extends(s: Store, t: Store) {
    forall id :: id in s.sessions ==> RowExtends(s, t, id)
  }

  ghost predicate RowExtends(s: Store, t: Store, id: string)
    requires id in s.sessions
  {
    && id in t.sessions && t.sessions[id].peer == s.sessions[id].peer
    && (s.sessions[id].closed.Some? ==> t.sessions[id] == s.sessions[id])
  }

  /** What a call that returns says about the store before and after it. */
  ghost predicate Reports(s: Store, t: Store, peer: string, r: Resolved) {
    && r.peerId == peer && r.threadId == ThreadIdentity.Compose(peer, r.sessionId)
    // The reported session is the peer's open one.
    && Active(t, peer) == Some(r.sessionId)
    && r.isNew == (r.sessionId !in s.sessions)
    // The reported previous session was the open one; it is closed now, with the reported reason.
    && r.previousSessionId == (if r.isNew then Active(s, peer) else None)
    && r.closeReason.Some? == r.previousSessionId.Some?
    && (r.previousSessionId.Some? ==>
          var prev := r.previousSessionId.value;
          && prev in t.sessions && t.sessions[prev].closed.Some?
          && r.closeReason == Some(t.sessions[prev].closed.value.reason)
          && r.closeReason.value !in {Migration, Length})
    // A call that reuses changes no session.
    && (!r.isNew ==> t.sessions == s.sessions)
  }

  lemma ResolveKeeps(p: Policy, s: Store, q: Request)
    requires Sound(s) && q.newId != ""
    ensures var (t, r) := Resolution(p, s, q);
            && Sound(t) && Extends(s, t)
            && (r.Some? ==> Reports(s, t, q.peer, r.value))
            && (r.None? <==> (Decision(p, s, q).Some? && q.newId in s.sessions))
  {
    var s1 := Upsert(s, q.peer, q.clock.upsert);
    UpsertKeepsSound(s, q.peer, q.clock.upsert);
    var active := Active(s1, q.peer);
    var reason := Decision(p, s1, q);
    if reason.Some? {
      var s2 := s1;
      if active.Some? {
        s2 := Close(s1, active.value, reason.value, q.clock.close);
        CloseKeepsSound(s1, active.value, reason.value, q.clock.close);
        assert s2.peers[q.peer].active.None?;
      } else if s1.peers[q.peer].active.Some? {
        assert Points(s1, q.peer);
      }
      OpenKeepsSound(s2, q.peer, q.newId, q.source, q.clock.open);
    }
  }

  /**
   When a call rotates and why.  `last` is the time of the last user turn of the peer's open session, or
   of its opening: the session is left when the caller insists, when a reset moment has passed since then
   (daily and both), or when it has been idle for longer than the limit (idle and both), in that order.
   */
  lemma RotatesIff(p: Policy, s: Store, q: Request, id: string)
    requires p.mode in {EveryDay, Both} ==> 0 <= p.atHour <= 24
    requires Sound(s) && q.newId != ""
    requires id in s.sessions && s.sessions[id].peer == q.peer && s.sessions[id].closed.None?
    ensures var (t, r) := Resolution(p, s, q);
            var last, now := s.sessions[id].lastUserMessageAt, q.clock.decide;
            var daily := p.mode in {EveryDay, Both} && ResetBetween(p, last, now);
            var idle := p.mode in {WhenIdle, Both} && now - last > p.idleMs;
            if q.force || daily || idle then
              if q.newId in s.sessions then r == None
              else && r.Some? && r.value.isNew && r.value.sessionId == q.newId && r.value.previousSessionId == Some(id)
                   && r.value.closeReason == Some(if q.force then ByUser else if daily then Daily else Idle)
            else r.Some? && !r.value.isNew && r.value.sessionId == id && r.value.closeReason == None
  {
    ActiveIsTheOpenOne(s, q.peer, id);
    UpsertKeepsSound(s, q.peer, q.clock.upsert);
    BeforeBoundaryIfDaily(p, s.sessions[id].lastUserMessageAt, q.clock.decide);
    hide TodayBoundary, ResetBetween, Sound;
  }

  lemma BeforeBoundaryIfDaily(p: Policy, last: int, now: int)
    ensures 0 <= p.atHour <= 24 ==> (last < TodayBoundary(p, now) <==> ResetBetween(p, last, now))
  {
    if 0 <= p.atHour <= 24 {
      BeforeBoundaryIff(p, last, now);
    }
  }

  /** A peer without an open session gets one, and nothing is closed for it. */
  lemma OpensWhenNoneIsOpen(p: Policy, s: Store, q: Request)
    requires Sound(s)
    requires forall id :: id in s.sessions && s.sessions[id].peer == q.peer ==> s.sessions[id].closed.Some?
    ensures var (t, r) := Resolution(p, s, q);
            if q.newId in s.sessions then r == None
            else && r.Some? && r.value.isNew && r.value.sessionId == q.newId
                 && r.value.closeReason == None && r.value.previousSessionId == None
  {
    UpsertKeepsSound(s, q.peer, q.clock.upsert);
    var active := Active(s, q.peer);
    if active.Some? {
      ActiveIsTheOpenOne(s, q.peer, active.value);
    }
    hide Sound;
  }

  /** All that a call that returns writes: the new row, the closing of the old one, and the peer's row. */
  lemma ResolveWrites(p: Policy, s: Store, q: Request)
    requires Sound(s) && q.newId != "" && Resolution(p, s, q).1.Some?
    ensures var (t, r) := Resolution(p, s, q); var isNew := r.value.isNew;
            && t.sessions.Keys == s.sessions.Keys + (if isNew then {q.newId} else {})
            && (isNew ==> t.sessions[q.newId] == Row(q.peer, q.clock.open, None, 0, q.clock.open, q.source))
            && (forall id :: id in s.sessions ==>
                  t.sessions[id]
                  == if r.value.previousSessionId == Some(id) && r.value.closeReason.Some?
                     then s.sessions[id].(closed := Some(Closing(q.clock.close, r.value.closeReason.value)))
                     else s.sessions[id])
  {
    UpsertKeepsSound(s, q.peer, q.clock.upsert);
    ResolveKeeps(p, s, q);
    hide Sound, ShouldRotate, Extends;
  }

  /** The peer's own row points to the session in use; the rows of all other peers stay. */
  lemma ResolveWritesPeers(p: Policy, s: Store, q: Request)
    requires Sound(s) && q.newId != "" && Resolution(p, s, q).1.Some?
    ensures var (t, r) := Resolution(p, s, q);
            && t.peers.Keys == s.peers.Keys + {q.peer}
            && t.peers[q.peer].active == Some(r.value.sessionId)
            && t.peers[q.peer].lastActiveAt == (if r.value.isNew then q.clock.open else q.clock.upsert)
            && forall other :: other in s.peers && other != q.peer ==> t.peers[other] == s.peers[other]
  {
    var s1 := Upsert(s, q.peer, q.clock.upsert);
    UpsertKeepsSound(s, q.peer, q.clock.upsert);
    var active := Active(s1, q.peer);
    if active.Some? {
      forall other | other in s1.peers && other != q.peer ensures s1.peers[other].active != active {
        if s1.peers[other].active.Some? {
          assert Points(s1, other) && Points(s1, q.peer);
        }
      }
    }
    hide Sound, ShouldRotate;
  }

  // ---- main results: whole runs -----------------------------------------------------------------

  datatype Event = Resolves(q: Request) | Touches(peer: string, source: Source, now: int)

  function Step(p: Policy, s: Store, e: Event): Store {
    match e
    case Resolves(q) => Resolution(p, s, q).0
    case Touches(peer, source, now) => TouchActive(s, peer, source, now)
  }

  function After(p: Policy, s: Store, events: seq<Event>): Store {
    if events == [] then s else Step(p, After(p, s, events[..|events| - 1]), events[|events| - 1])
  }

  /** Generated session ids are never empty. */
  predicate Generated(events: seq<Event>) {
    forall n :: 0 <= n < |events| && events[n].Resolves? ==> events[n].q.newId != ""
  }

  lemma StepKeeps(p: Policy, s: Store, e: Event)
    requires Sound(s) && (e.Resolves? ==> e.q.newId != "")
    ensures Sound(Step(p, s, e)) && Extends(s, Step(p, s, e))
  {
    match e
    case Resolves(q) => ResolveKeeps(p, s, q);
    case Touches(peer, source, now) =>
      var active := Active(s, peer);
      if active.Some? {
        TouchKeepsSound(s, active.value, source, now);
      }
  }

  /** Over every run: pointers and open sessions agree, and whatever is closed is closed for good. */
  lemma {:induction false} RunIsSound(p: Policy, s: Store, events: seq<Event>)
    requires Sound(s) && Generated(events)
    ensures Sound(After(p, s, events)) && Extends(s, After(p, s, events))
    decreases |events|
  {
    if events != [] {
      var front := events[..|events| - 1];
      RunIsSound(p, s, front);
      var mid := After(p, s, front);
      StepKeeps(p, mid, events[|events| - 1]);
      hide Sound, Step;
      forall id | id in s.sessions ensures RowExtends(s, After(p, s, events), id) {
        assert RowExtends(s, mid, id) && RowExtends(mid, After(p, s, events), id);
      }
    }
  }

  /** The reasons that a policy can close for. */
  function Triggers(p: Policy): set<Reason> {
    {ByUser} + (if p.mode in {EveryDay, Both} then {Daily} else {})
    + (if p.mode == WhenIdle || (p.mode == Both && p.idleMs < DAY_MS - 1) then {Idle} else {})
  }

  ghost predicate ClosedFor(s: Store, reasons: set<Reason>) {
    forall id :: id in s.sessions && s.sessions[id].closed.Some? ==> s.sessions[id].closed.value.reason in reasons
  }

  lemma DecisionIsATrigger(p: Policy, s: Store, q: Request)
    requires p.mode == Both ==> 0 <= p.atHour <= 24
    requires Active(s, q.peer).Some?
    ensures Decision(p, s, q).Some? ==> Decision(p, s, q).value in Triggers(p)
  {
    if p.mode == Both && p.idleMs >= DAY_MS - 1 {
      BoundaryAt(p, q.clock.decide);
    }
  }

  lemma StepKeepsReasons(p: Policy, s: Store, e: Event)
    requires p.mode == Both ==> 0 <= p.atHour <= 24
    requires ClosedFor(s, Triggers(p))
    ensures ClosedFor(Step(p, s, e), Triggers(p))
  {
    if e.Resolves? {
      var s1 := Upsert(s, e.q.peer, e.q.clock.upsert);
      if Active(s1, e.q.peer).Some? {
        DecisionIsATrigger(p, s1, e.q);
      }
    }
  }

  /**
   No run closes a session for 'migration' or 'length', in 'both' mode none is closed for 'idle' when
   the limit is at least 24 hours, and with rotation off only a forced call closes anything.
   */
  lemma {:induction false} OnlyTriggersClose(p: Policy, s: Store, events: seq<Event>)
    requires p.mode == Both ==> 0 <= p.atHour <= 24
    requires ClosedFor(s, Triggers(p))
    ensures ClosedFor(After(p, s, events), Triggers(p))
    decreases |events|
  {
    if events != [] {
      OnlyTriggersClose(p, s, events[..|events| - 1]);
      StepKeepsReasons(p, After(p, s, events[..|events| - 1]), events[|events| - 1]);
    }
  }

  /** Events of any source but no user turn that completes. */
  predicate Background(events: seq<Event>) {
    forall n :: 0 <= n < |events| && events[n].Touches? ==> events[n].source != User
  }

  lemma StepKeepsFreshness(p: Policy, s: Store, e: Event, id: string)
    requires id in s.sessions && (e.Touches? ==> e.source != User)
    ensures id in Step(p, s, e).sessions
    ensures Step(p, s, e).sessions[id].lastUserMessageAt == s.sessions[id].lastUserMessageAt
  {
  }

  lemma {:induction false} BackgroundKeepsFreshness(p: Policy, s: Store, events: seq<Event>, id: string)
    requires id in s.sessions && Background(events)
    ensures id in After(p, s, events).sessions
    ensures After(p, s, events).sessions[id].lastUserMessageAt == s.sessions[id].lastUserMessageAt
    decreases |events|
  {
    if events != [] {
      BackgroundKeepsFreshness(p, s, events[..|events| - 1], id);
      StepKeepsFreshness(p, After(p, s, events[..|events| - 1]), events[|events| - 1], id);
    }
  }

  /**
   However many heartbeats, cron fires and resolutions come in between, a session is not reused 24 hours
   after its stamp (daily and both), nor past the idle limit (idle and both).  The stamp is the time of the
   last user turn, or of the opening, which a cron fire can also be the cause of.
   */
  lemma BackgroundCannotKeepAlive(p: Policy, s: Store, events: seq<Event>, q: Request, id: string)
    requires p.mode in {EveryDay, Both} ==> 0 <= p.atHour <= 24
    requires id in s.sessions && Background(events)
    requires Resolution(p, After(p, s, events), q).1.Some?
    requires var r := Resolution(p, After(p, s, events), q).1.value; !r.isNew && r.sessionId == id
    ensures p.mode in {EveryDay, Both} ==> q.clock.decide - s.sessions[id].lastUserMessageAt < DAY_MS
    ensures p.mode in {WhenIdle, Both} ==> q.clock.decide - s.sessions[id].lastUserMessageAt <= p.idleMs
  {
    BackgroundKeepsFreshness(p, s, events, id);
    if p.mode in {EveryDay, Both} {
      BoundaryAt(p, q.clock.decide);
    }
  }

  /** What one event does for the freshness of a session: it opens it, or a user's turn completes in it. */
  function FreshensAt(p: Policy, s: Store, e: Event, id: string): Option<int> {
    match e
    case Resolves(q) =>
      var r := Resolution(p, s, q).1;
      if r.Some? && r.value.isNew && r.value.sessionId == id then Some(q.clock.open) else None
    case Touches(peer, source, now) =>
      if source == User && Active(s, peer) == Some(id) then Some(now) else None
  }

  /** The time of the last user turn in a session, or of its opening, from nothing but the events of a run. */
  function LastFresh(p: Policy, s: Store, events: seq<Event>, id: string): Option<int> {
    if events == [] then if id in s.sessions then Some(s.sessions[id].lastUserMessageAt) else None
    else
      var front := events[..|events| - 1];
      var at := FreshensAt(p, After(p, s, front), events[|events| - 1], id);
      if at.Some? then at else LastFresh(p, s, front, id)
  }

  lemma StepFreshens(p: Policy, s: Store, e: Event, id: string)
    ensures id in Step(p, s, e).sessions <==> id in s.sessions || FreshensAt(p, s, e, id).Some?
    ensures id in Step(p, s, e).sessions ==>
              Step(p, s, e).sessions[id].lastUserMessageAt
              == if FreshensAt(p, s, e, id).Some? then FreshensAt(p, s, e, id).value
                 else s.sessions[id].lastUserMessageAt
  {
  }

  /** In every run the stored stamp of a session is the time of its last user turn or of its opening. */
  lemma {:induction false} StampIsLastFresh(p: Policy, s: Store, events: seq<Event>, id: string)
    ensures var t := After(p, s, events);
            LastFresh(p, s, events, id) == if id in t.sessions then Some(t.sessions[id].lastUserMessageAt) else None
    decreases |events|
  {
    if events != [] {
      var front := events[..|events| - 1];
      StampIsLastFresh(p, s, front, id);
      StepFreshens(p, After(p, s, front), events[|events| - 1], id);
    }
  }

  /** How many turns have completed in a session, from nothing but the events of a run. */
  function TurnsIn(p: Policy, s: Store, events: seq<Event>, id: string): nat {
    if events == [] then if id in s.sessions then s.sessions[id].turns else 0
    else
      var front, e := events[..|events| - 1], events[|events| - 1];
      TurnsIn(p, s, front, id)
      + if e.Touches? && Active(After(p, s, front), e.peer) == Some(id) then 1 else 0
  }

  lemma StepCounts(p: Policy, s: Store, e: Event, id: string)
    ensures id in s.sessions ==> id in Step(p, s, e).sessions
    ensures id in Step(p, s, e).sessions ==>
              Step(p, s, e).sessions[id].turns
              == (if id in s.sessions then s.sessions[id].turns else 0)
                 + if e.Touches? && Active(s, e.peer) == Some(id) then 1 else 0
  {
  }

  /** In every run the stored turn count of a session is the number of turns, of any source, touched in it. */
  lemma {:induction false} TurnsAreCounted(p: Policy, s: Store, events: seq<Event>, id: string)
    requires id in After(p, s, events).sessions
    ensures After(p, s, events).sessions[id].turns == TurnsIn(p, s, events, id)
    decreases |events|
  {
    if events != [] {
      var front := events[..|events| - 1];
      StepCounts(p, After(p, s, front), events[|events| - 1], id);
      if id in After(p, s, front).sessions {
        TurnsAreCounted(p, s, front, id);
      } else {
        NoTurnsBeforeOpening(p, s, front, id);
      }
    }
  }

  lemma {:induction false} NoTurnsBeforeOpening(p: Policy, s: Store, events: seq<Event>, id: string)
    requires id !in After(p, s, events).sessions
    ensures TurnsIn(p, s, events, id) == 0
    decreases |events|
  {
    if events != [] {
      var front := events[..|events| - 1];
      StepCounts(p, After(p, s, front), events[|events| - 1], id);
      NoTurnsBeforeOpening(p, s, front, id);
    }
  }

  /**
   In every run, whatever came before: a call that reuses a session comes less than 24 hours after the
   session's last user turn, or its opening (daily and both), and not past the idle limit (idle and both).
   */
  lemma ReuseIsFresh(p: Policy, s: Store, events: seq<Event>, q: Request)
    requires p.mode in {EveryDay, Both} ==> 0 <= p.atHour <= 24
    requires Resolution(p, After(p, s, events), q).1.Some? && !Resolution(p, After(p, s, events), q).1.value.isNew
    ensures var last := LastFresh(p, s, events, Resolution(p, After(p, s, events), q).1.value.sessionId);
            && last.Some?
            && (p.mode in {EveryDay, Both} ==> q.clock.decide - last.value < DAY_MS)
            && (p.mode in {WhenIdle, Both} ==> q.clock.decide - last.value <= p.idleMs)
  {
    var t := After(p, s, events);
    var id := Resolution(p, t, q).1.value.sessionId;
    StampIsLastFresh(p, s, events, id);
    ReusedIsFresh(p, t, q);
  }

  lemma ReusedIsFresh(p: Policy, t: Store, q: Request)
    requires p.mode in {EveryDay, Both} ==> 0 <= p.atHour <= 24
    requires Resolution(p, t, q).1.Some? && !Resolution(p, t, q).1.value.isNew
    ensures var id := Resolution(p, t, q).1.value.sessionId;
            && id in t.sessions
            && (p.mode in {EveryDay, Both} ==> q.clock.decide - t.sessions[id].lastUserMessageAt < DAY_MS)
            && (p.mode in {WhenIdle, Both} ==> q.clock.decide - t.sessions[id].lastUserMessageAt <= p.idleMs)
  {
    if p.mode in {EveryDay, Both} {
      BoundaryAt(p, q.clock.decide);
    }
  }

  /** A returned thread id parses back to the peer and to the one session of it that is open. */
  lemma ThreadNamesTheOpenSession(p: Policy, s: Store, q: Request)
    requires Sound(s) && q.newId != "" && q.peer != "" && ThreadIdentity.SEPARATOR !in q.peer
    requires Resolution(p, s, q).1.Some?
    ensures var (t, r) := Resolution(p, s, q);
            && ThreadIdentity.Parse(r.value.threadId) == Some(ThreadIdentity.Parts(q.peer, r.value.sessionId))
            && forall id :: id in t.sessions && t.sessions[id].peer == q.peer && t.sessions[id].closed.None?
                            <==> id == r.value.sessionId
  {
    var (t, r) := Resolution(p, s, q);
    ResolveKeeps(p, s, q);
    var open := r.value.sessionId;
    assert Sound(t) && Reports(s, t, q.peer, r.value);
    assert open != "" by { assert Active(t, q.peer) == Some(open); assert "" !in t.sessions; }
    ThreadIdentity.ParseOfCompose(q.peer, open);
    forall id ensures id in t.sessions && t.sessions[id].peer == q.peer && t.sessions[id].closed.None? <==> id == open {
      ActiveIsTheOpenOne(t, q.peer, id);
    }
  }

  // ---- the team handler's use -------------------------------------------------------------------

  /** The previous thread whose recap is queued after a call, if any. */
  function RecapOf(r: Resolved): Option<string> {
    if r.isNew && r.previousSessionId.Some? && r.closeReason != Some(Migration)
    then Some(ThreadIdentity.Compose(r.peerId, r.previousSessionId.value)) else None
  }

  /** A recap is queued exactly when the call closed the peer's open session, and it is that session's. */
  lemma RecapIffRotated(p: Policy, s: Store, q: Request)
    requires Sound(s) && q.newId != "" && Resolution(p, s, q).1.Some?
    ensures var (t, r) := Resolution(p, s, q);
            RecapOf(r.value) == match Active(s, q.peer)
                                case Some(id) => if t.sessions[id].closed.Some?
                                                 then Some(ThreadIdentity.Compose(q.peer, id)) else None
                                case None => None
  {
    var (t, r) := Resolution(p, s, q);
    ResolveKeeps(p, s, q);
    assert Reports(s, t, q.peer, r.value) && Extends(s, t);
    var id := Active(s, q.peer);
    if id.Some? {
      assert RowExtends(s, t, id.value);
    }
  }

  class TeamHandler {
    const resolver: SessionResolver
    const hasExtractor: bool
    /** For each thread, the previous thread whose recap its first turn waits for. */
    var pendingRecaps: map<string, string>

    constructor (resolver: SessionResolver, hasExtractor: bool)
      ensures this.resolver == resolver && this.hasExtractor == hasExtractor && pendingRecaps == map[]
    {
      this.resolver, this.hasExtractor, pendingRecaps := resolver, hasExtractor, map[];
    }

    /** Whatever goes wrong, the thread that is answered belongs to the raw key. */
    method ResolveSessionThreadId(rawKey: string, fromUser: bool, clock: Clock, newId: string)
      returns (threadId: string)
      modifies this, resolver.store
      ensures ThreadIdentity.IsThreadForRawKey(threadId, rawKey)
      ensures ThreadIdentity.PeerOf(rawKey).None? ==>
                threadId == rawKey && resolver.store.Contents() == old(resolver.store.Contents())
                && pendingRecaps == old(pendingRecaps)
      ensures ThreadIdentity.PeerOf(rawKey).Some? ==>
                var q := Request(rawKey, if fromUser then User else Cron, false, clock, newId);
                var (t, r) := Resolution(resolver.policy, old(resolver.store.Contents()), q);
                && resolver.store.Contents() == t
                && threadId == (if r.Some? then r.value.threadId else rawKey)
                && pendingRecaps == if r.Some? && RecapOf(r.value).Some? && hasExtractor
                                    then old(pendingRecaps)[threadId := RecapOf(r.value).value]
                                    else old(pendingRecaps)
    {
      if ThreadIdentity.PeerOf(rawKey).None? { return rawKey; }
      var r := resolver.Resolve(Request(rawKey, if fromUser then User else Cron, false, clock, newId));
      if r.None? { return rawKey; }
      var recap := RecapOf(r.value);
      if recap.Some? && hasExtractor {
        pendingRecaps := pendingRecaps[r.value.threadId := recap.value];
      }
      return r.value.threadId;
    }
  }
}
