/** What one Link node does in its io thread, as a state machine. A node caches the peers it can
    see (Peers), the sessions it knows (Sessions) and the session timing it works with
    (Controller); every handler runs to completion before the next one starts. Clock readings
    and random ids come from the environment and are unconstrained. */
module Protocol {
  import opened LinkTime
  import opened ClientSession

  /** Ids are eight bytes compared lexicographically, addresses are totally ordered. */
  type NodeId = nat
  type Address = nat

  const SESSION_EPS := 500000
  const NO_XFORM := GhostXForm(0.0, 0)

  datatype PeerKey = PeerKey(id: NodeId, addr: Address)
  datatype PeerInfo = PeerInfo(session: NodeId, timeline: Timeline)
  datatype Session = Session(id: NodeId, timeline: Timeline, xform: GhostXForm, timestamp: int)

  type PeerTable = map<PeerKey, PeerInfo>

  /** `pending` holds the sessions being measured, one entry a measurement; `resets` counts how
      often the node has founded a new session. */
  datatype World = World(
    sessionId: NodeId, timeline: Timeline, xform: GhostXForm, client: Timeline, peerCount: nat,
    peers: PeerTable,
    current: Session, others: map<NodeId, Session>,
    pending: multiset<NodeId>, resets: nat)

  /** The clock readings a handler may take and the random id it may draw. */
  datatype Env = Env(measured: int, compared: int, adopted: int, resetInit: int, resetAdopted: int, freshId: NodeId)

  // ---- Peers ----

  ghost function Members(peers: PeerTable, sid: NodeId): set<NodeId> {
    set k | k in peers && peers[k].session == sid :: k.id
  }

  ghost predicate TimelineCached(peers: PeerTable, info: PeerInfo) {
    exists k :: k in peers && peers[k] == info
  }

  ghost function WithTimeline(peers: PeerTable, sid: NodeId, tl: Timeline): PeerTable {
    map k | k in peers :: if peers[k].session == sid then PeerInfo(sid, tl) else peers[k]
  }

  ghost function WithoutSession(peers: PeerTable, sid: NodeId): PeerTable {
    map k | k in peers && peers[k].session != sid :: peers[k]
  }

  ghost function WithoutGateway(peers: PeerTable, addr: Address): PeerTable {
    map k | k in peers && k.addr != addr :: peers[k]
  }

  // ---- Sessions ----

  function Prefer(session: Session, tl: Timeline): Session {
    if tl.beatOrigin > session.timeline.beatOrigin then session.(timeline := tl) else session
  }

  ghost function Launch(w: World, id: NodeId): multiset<NodeId> {
    if Members(w.peers, id) != {} then w.pending + multiset{id} else w.pending
  }

  /** `Sessions::sawSessionTimeline` */
  ghost function SawSession(w: World, sid: NodeId, tl: Timeline): World {
    if sid == w.current.id then w.(current := Prefer(w.current, tl))
    else if sid in w.others then w.(others := w.others[sid := Prefer(w.others[sid], tl)])
    else w.(pending := Launch(w, sid), others := w.others[sid := Session(sid, tl, NO_XFORM, 0)])
  }

  /** The join rule: a session whose ghost time is clearly ahead, or about equal with a smaller id. */
  predicate Wins(id: NodeId, xform: GhostXForm, current: Session, hostTime: int) {
    var ghostDiff := xform.HostToGhost(hostTime) - current.xform.HostToGhost(hostTime);
    ghostDiff > SESSION_EPS || (-SESSION_EPS < ghostDiff < SESSION_EPS && id < current.id)
  }

  // ---- Controller ----

  function UpdateTiming(w: World, tl: Timeline, xform: GhostXForm, now: int): World
    requires xform.slope != 0.0
  {
    if w.timeline != tl || w.xform != xform then
      w.(timeline := tl, xform := xform, client := UpdateClient(w.client, tl, now, xform))
    else w
  }

  ghost function ResetState(w: World, env: Env): World {
    var xform := GhostXForm(1.0, -env.resetInit);
    var hostTime := env.resetInit;
    var tl := Timeline(w.timeline.tempo,
      w.timeline.ToBeats(w.xform.HostToGhost(hostTime)), xform.HostToGhost(hostTime));
    UpdateTiming(w.(sessionId := env.freshId), tl, xform, env.resetAdopted).(
      current := Session(env.freshId, tl, xform, hostTime), others := map[], peers := map[], resets := w.resets + 1)
  }

  /** `SessionPeerCounter`: recounts the session and founds a new one when the count drops to zero. */
  ghost function CountPeers(w: World, env: Env): World {
    var count := |Members(w.peers, w.sessionId)|;
    if count == w.peerCount then w
    else if count == 0 then ResetState(w.(peerCount := 0), env)
    else w.(peerCount := count)
  }

  ghost function JoinSession(w: World, session: Session, env: Env): World
    requires session.xform.slope != 0.0
  {
    var joined := UpdateTiming(w.(sessionId := session.id), session.timeline, session.xform, env.adopted);
    if w.sessionId != session.id then CountPeers(joined, env) else joined
  }

  ghost function TimelineFromSession(w: World, sid: NodeId, tl: Timeline, env: Env): World
    requires w.xform.slope != 0.0
  {
    var saw := SawSession(w, sid, tl);
    UpdateTiming(saw, saw.current.timeline, w.xform, env.adopted)
  }

  ghost function TimelineFromClient(w: World, tl: Timeline, env: Env): World
    requires w.xform.slope != 0.0
  {
    UpdateTiming(
      w.(current := w.current.(timeline := tl), peers := WithTimeline(w.peers, w.sessionId, tl)),
      tl, w.xform, env.adopted)
  }

  // ---- The handlers ----

  /** The part of an announcement between the insertion into the cache and the recount. */
  ghost function Informed(w: World, key: PeerKey, info: PeerInfo, env: Env): World
    requires w.xform.slope != 0.0
  {
    var inserted := w.(peers := w.peers[key := info]);
    if TimelineCached(w.peers, info) then inserted
    else TimelineFromSession(inserted, info.session, info.timeline, env)
  }

  ghost function SawPeer(w: World, key: PeerKey, info: PeerInfo, env: Env): World
    requires w.xform.slope != 0.0
  {
    var informed := Informed(w, key, info, env);
    if key.id !in Members(w.peers, info.session) then CountPeers(informed, env) else informed
  }

  ghost function PeerLeft(w: World, key: PeerKey, env: Env): World {
    if key in w.peers then CountPeers(w.(peers := w.peers - {key}), env) else w
  }

  ghost function GatewayClosed(w: World, addr: Address, env: Env): World {
    CountPeers(w.(peers := WithoutGateway(w.peers, addr)), env)
  }

  ghost function MeasurementSucceeded(w: World, id: NodeId, xform: GhostXForm, env: Env): World
    requires xform.slope != 0.0
  {
    var w := w.(pending := w.pending - multiset{id});
    if id == w.current.id then
      var current := w.current.(xform := xform, timestamp := env.measured);
      JoinSession(w.(current := current), current, env)
    else if id in w.others then
      var measured := w.others[id].(xform := xform, timestamp := env.measured);
      if Wins(id, xform, w.current, env.compared) then
        JoinSession(w.(current := measured, others := (w.others - {id})[w.current.id := w.current]), measured, env)
      else w.(others := w.others[id := measured])
    else w
  }

  ghost function MeasurementFailed(w: World, id: NodeId): World {
    var w := w.(pending := w.pending - multiset{id});
    if id != w.current.id && id in w.others then
      w.(others := w.others - {id}, peers := WithoutSession(w.peers, id))
    else w
  }

  ghost function Remeasure(w: World): World {
    if Members(w.peers, w.current.id) != {} then
      w.(pending := Launch(w, w.current.id), current := w.current.(timestamp := 0))
    else w
  }

  ghost function ClientCommit(w: World, tl: Timeline, atTime: int, env: Env): World
    requires w.xform.slope != 0.0
  {
    TimelineFromClient(w, UpdateSession(w.timeline, tl, atTime, w.xform), env)
  }

  datatype Action =
    | ASawPeer(key: PeerKey, info: PeerInfo)
    | APeerLeft(key: PeerKey)
    | AGatewayClosed(addr: Address)
    | AMeasurementSucceeded(id: NodeId, xform: GhostXForm)
    | AMeasurementFailed(id: NodeId)
    | AMeasurementLost(id: NodeId)
    | ARemeasure
    | AClientWrite(tl: Timeline)
    | AClientCommit(tl: Timeline, atTime: int)
    | ARtCommit(tl: Timeline, atTime: int)
    | AEnable

  /** Measurement results exist only for running measurements, and always have slope 1. A measurement
      is lost, without a result, when its gateway closes or its peer is measured again. */
  ghost predicate Enabled(w: World, a: Action) {
    && w.xform.slope != 0.0
    && (a.AMeasurementSucceeded? ==> a.id in w.pending && a.xform.slope == 1.0)
    && (a.AMeasurementFailed? || a.AMeasurementLost? ==> a.id in w.pending)
  }

  ghost function Next(w: World, a: Action, env: Env): World
    requires Enabled(w, a)
  {
    match a
    case ASawPeer(key, info) => SawPeer(w, key, info, env)
    case APeerLeft(key) => PeerLeft(w, key, env)
    case AGatewayClosed(addr) => GatewayClosed(w, addr, env)
    case AMeasurementSucceeded(id, xform) => MeasurementSucceeded(w, id, xform, env)
    case AMeasurementFailed(id) => MeasurementFailed(w, id)
    case AMeasurementLost(id) => w.(pending := w.pending - multiset{id})
    case ARemeasure => Remeasure(w)
    case AClientWrite(tl) => w.(client := tl)
    case AClientCommit(tl, atTime) => ClientCommit(w, tl, atTime, env)
    case ARtCommit(tl, atTime) => ClientCommit(w.(client := tl), tl, atTime, env)
    case AEnable => ResetState(w, env)
  }

  function Init(id: NodeId, tempo: TempoValue, now: int, timestamp: int): World {
    var xform := GhostXForm(1.0, -now);
    var tl := ClampTempo(tempo, 0, 0);
    World(id, tl, xform, Timeline(tl.tempo, 0, xform.GhostToHost(0)), 0,
      map[], Session(id, tl, xform, timestamp), map[], multiset{}, 0)
  }

  // ---- Invariants ----

  /** The redundant copies in Controller and Sessions agree. */
  ghost predicate Agree(w: World) {
    && w.sessionId == w.current.id
    && w.timeline == w.current.timeline
    && w.xform == w.current.xform
    && w.xform.slope == 1.0
  }

  ghost predicate SessionsWellFormed(w: World) {
    && w.current.id !in w.others
    && forall id :: id in w.others ==> w.others[id].id == id
  }

  ghost predicate Known(w: World, sid: NodeId) {
    sid == w.current.id || sid in w.others
  }

  ghost function Stored(w: World, sid: NodeId): Timeline
    requires Known(w, sid)
  {
    if sid == w.current.id then w.current.timeline else w.others[sid].timeline
  }

  ghost predicate Covered(w: World, info: PeerInfo) {
    Known(w, info.session) && Stored(w, info.session).beatOrigin >= info.timeline.beatOrigin
  }

  /** Every cached peer's session is known, with a timeline of at least the peer's priority. */
  ghost predicate CacheCovered(w: World) {
    forall k :: k in w.peers ==> Covered(w, w.peers[k])
  }

  /** A known session has been measured with slope 1, or it has not been measured. */
  ghost predicate XFormsValid(w: World) {
    forall id :: id in w.others ==> w.others[id].xform.slope == 1.0 || w.others[id].xform == NO_XFORM
  }

  ghost predicate SessionInv(w: World) {
    SessionsWellFormed(w) && CacheCovered(w) && XFormsValid(w)
  }

  ghost predicate Inv(w: World) {
    Agree(w) && SessionInv(w)
  }

  lemma InitInv(id: NodeId, tempo: TempoValue, now: int, timestamp: int)
    ensures Inv(Init(id, tempo, now, timestamp))
  {
  }

  lemma ResetInv(w: World, env: Env)
    ensures Inv(ResetState(w, env))
    ensures ResetState(w, env).resets == w.resets + 1
  {
  }

  lemma CountInv(w: World, env: Env)
    requires Inv(w)
    ensures Inv(CountPeers(w, env))
  {
    ResetInv(w.(peerCount := 0), env);
  }

  lemma SawSessionCovers(w: World, sid: NodeId, tl: Timeline, info: PeerInfo)
    requires SessionsWellFormed(w) && (Covered(w, info) || info == PeerInfo(sid, tl))
    ensures Covered(SawSession(w, sid, tl), info)
  {
  }

  lemma SawSessionForms(w: World, sid: NodeId, tl: Timeline)
    requires SessionsWellFormed(w) && XFormsValid(w)
    ensures SessionsWellFormed(SawSession(w, sid, tl)) && XFormsValid(SawSession(w, sid, tl))
  {
  }

  /** Considering an announced timeline makes the announcing peer covered and nobody uncovered. */
  lemma SawSessionInv(w: World, key: PeerKey, info: PeerInfo)
    requires SessionInv(w)
    ensures SessionInv(SawSession(w.(peers := w.peers[key := info]), info.session, info.timeline))
  {
    var inserted := w.(peers := w.peers[key := info]);
    var saw := SawSession(inserted, info.session, info.timeline);
    SawSessionForms(inserted, info.session, info.timeline);
    forall k | k in saw.peers
      ensures Covered(saw, saw.peers[k])
    {
      if k != key { assert Covered(w, w.peers[k]) && Covered(inserted, w.peers[k]); }
      SawSessionCovers(inserted, info.session, info.timeline, inserted.peers[k]);
    }
  }

  lemma SawTimelineInv(w: World, key: PeerKey, info: PeerInfo, env: Env)
    requires Inv(w)
    ensures Inv(TimelineFromSession(w.(peers := w.peers[key := info]), info.session, info.timeline, env))
  {
    SawSessionInv(w, key, info);
  }

  lemma SawPeerInv(w: World, key: PeerKey, info: PeerInfo, env: Env)
    requires Inv(w)
    ensures Inv(SawPeer(w, key, info, env))
  {
    var inserted := w.(peers := w.peers[key := info]);
    if TimelineCached(w.peers, info) {
      assert Covered(w, info);
      assert Inv(inserted);
      CountInv(inserted, env);
    } else {
      SawTimelineInv(w, key, info, env);
      CountInv(TimelineFromSession(inserted, info.session, info.timeline, env), env);
    }
  }

  /** The re-entrant path: adopting a session may empty the peer count, which resets everything
      that the measurement handler has just rearranged. */
  lemma JoinInv(w: World, session: Session, env: Env)
    requires session == w.current && session.xform.slope == 1.0
    requires SessionInv(w)
    ensures Inv(JoinSession(w, session, env))
  {
    var joined := UpdateTiming(w.(sessionId := session.id), session.timeline, session.xform, env.adopted);
    assert Inv(joined);
    CountInv(joined, env);
  }

  ghost function KnownIds(w: World): set<NodeId> {
    w.others.Keys + {w.current.id}
  }

  /** The state in which a won measurement hands over to the controller. */
  ghost function Switched(w: World, measured: Session): World {
    w.(current := measured, others := (w.others - {measured.id})[w.current.id := w.current])
  }

  lemma SwitchInv(w: World, measured: Session)
    requires SessionInv(w) && w.current.xform.slope == 1.0
    requires measured.id in w.others && measured.timeline == w.others[measured.id].timeline
    ensures SessionInv(Switched(w, measured))
    ensures KnownIds(Switched(w, measured)) == KnownIds(w)
    ensures forall sid :: Known(w, sid) ==> Stored(Switched(w, measured), sid) == Stored(w, sid)
  {
    var switched := Switched(w, measured);
    assert forall sid :: Known(w, sid) <==> Known(switched, sid);
    assert forall sid :: Known(w, sid) ==> Stored(switched, sid) == Stored(w, sid);
    forall k | k in w.peers
      ensures Covered(switched, w.peers[k])
    {
      assert Covered(w, w.peers[k]);
    }
  }

  /** Joining touches the known sessions only by a reset. */
  lemma JoinKeepsSessions(w: World, session: Session, env: Env)
    requires session.xform.slope != 0.0
    ensures var w' := JoinSession(w, session, env);
            w'.resets == w.resets ==> w'.current == w.current && w'.others == w.others
  {
  }

  ghost predicate KeepsKnown(w: World, w': World) {
    KnownIds(w') == KnownIds(w) && forall sid :: Known(w, sid) ==> Stored(w', sid) == Stored(w, sid)
  }

  lemma CurrentMeasuredInv(w: World, xform: GhostXForm, env: Env)
    requires Inv(w) && xform.slope == 1.0
    ensures var w' := MeasurementSucceeded(w, w.current.id, xform, env);
            Inv(w') && (w'.resets == w.resets ==> KeepsKnown(w, w'))
  {
    var v := w.(pending := w.pending - multiset{w.current.id});
    var current := v.current.(xform := xform, timestamp := env.measured);
    var joining := v.(current := current);
    assert SessionInv(joining);
    JoinInv(joining, current, env);
    JoinKeepsSessions(joining, current, env);
  }

  /** Storing a measurement for another session. */
  lemma StoreMeasurementInv(w: World, updated: World, measured: Session)
    requires SessionInv(w) && measured.id in w.others && measured.xform.slope == 1.0
    requires measured.timeline == w.others[measured.id].timeline
    requires updated == w.(pending := w.pending - multiset{measured.id}, others := w.others[measured.id := measured])
    ensures SessionInv(updated) && KeepsKnown(w, updated)
  {
    assert updated.others.Keys == w.others.Keys;
    forall k | k in w.peers
      ensures Covered(updated, w.peers[k])
    {
      assert Covered(w, w.peers[k]);
    }
  }

  lemma OtherMeasuredInv(w: World, id: NodeId, xform: GhostXForm, env: Env)
    requires Inv(w) && xform.slope == 1.0 && id in w.others
    ensures var w' := MeasurementSucceeded(w, id, xform, env);
            Inv(w') && (w'.resets == w.resets ==> KeepsKnown(w, w'))
  {
    var v := w.(pending := w.pending - multiset{id});
    var measured := w.others[id].(xform := xform, timestamp := env.measured);
    var updated := v.(others := v.others[id := measured]);
    StoreMeasurementInv(w, updated, measured);
    if Wins(id, xform, w.current, env.compared) {
      var switched := Switched(updated, measured);
      SwitchInv(updated, measured);
      assert v.others - {id} == updated.others - {id};
      JoinInv(switched, measured, env);
      JoinKeepsSessions(switched, measured, env);
    }
  }

  /** A successful measurement keeps every invariant; unless it leads to a reset it also keeps
      the set of known sessions and all their timelines. */
  lemma MeasurementSucceededInv(w: World, id: NodeId, xform: GhostXForm, env: Env)
    requires Inv(w) && xform.slope == 1.0
    ensures var w' := MeasurementSucceeded(w, id, xform, env);
            Inv(w') && (w'.resets == w.resets ==> KeepsKnown(w, w'))
  {
    if id == w.current.id {
      CurrentMeasuredInv(w, xform, env);
    } else if id in w.others {
      OtherMeasuredInv(w, id, xform, env);
    }
  }

  lemma MeasurementFailedInv(w: World, id: NodeId)
    requires Inv(w)
    ensures Inv(MeasurementFailed(w, id))
  {
    var w' := MeasurementFailed(w, id);
    forall k | k in w'.peers
      ensures Covered(w', w'.peers[k])
    {
      assert Covered(w, w.peers[k]);
    }
  }

  lemma ClientCommitInv(w: World, tl: Timeline, atTime: int, env: Env)
    requires Inv(w)
    ensures Inv(ClientCommit(w, tl, atTime, env))
  {
  }

  lemma StepInv(w: World, a: Action, env: Env)
    requires Inv(w) && Enabled(w, a)
    ensures Inv(Next(w, a, env))
  {
    match a
    case ASawPeer(key, info) => SawPeerInv(w, key, info, env);
    case APeerLeft(key) => CountInv(w.(peers := w.peers - {key}), env);
    case AGatewayClosed(addr) => CountInv(w.(peers := WithoutGateway(w.peers, addr)), env);
    case AMeasurementSucceeded(id, xform) => MeasurementSucceededInv(w, id, xform, env);
    case AMeasurementFailed(id) => MeasurementFailedInv(w, id);
    case AMeasurementLost(_) =>
    case ARemeasure =>
    case AClientWrite(_) =>
    case AClientCommit(tl, atTime) => ClientCommitInv(w, tl, atTime, env);
    case ARtCommit(tl, atTime) => ClientCommitInv(w.(client := tl), tl, atTime, env);
    case AEnable => ResetInv(w, env);
  }
}
