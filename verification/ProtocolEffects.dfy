/** What each handler does to a node, told without the handlers' definitions: when it founds a new
    session, which peers and sessions it keeps, which measurements it launches, and how session and
    client timelines follow. */
module ProtocolEffects {
  import opened Rounding
  import opened LinkTime
  import opened ClientSession
  import opened Protocol
  import opened ProtocolRuns

  // ---- Founding a session ----

  /** A session of its own, founded by the node `id` at clock reading `now`: ghost time starts at zero
      at that moment and advances with the clock. */
  ghost predicate Founded(w: World, id: NodeId, now: int) {
    && w.sessionId == id && w.others == map[] && w.peers == map[]
    && w.xform.slope == 1.0 && w.xform.HostToGhost(now) == 0 && w.timeline.timeOrigin == 0
    && Agree(w)
  }

  lemma InitFounds(id: NodeId, tempo: TempoValue, now: int, timestamp: int)
    ensures var w := Init(id, tempo, now, timestamp);
            Founded(w, id, now) && w.timeline.beatOrigin == 0 && w.peerCount == 0
            && w.client.ToBeats(now) == 0 && w.client.timeOrigin == now && w.current.timestamp == timestamp
            && w.client.tempo == w.timeline.tempo && 20.0 <= w.timeline.tempo.bpm <= 999.0
            && forall bpm :: 20.0 <= bpm <= 999.0 ==> !Nearer(bpm, w.timeline.tempo.bpm, tempo.bpm)
  {
    var w := Init(id, tempo, now, timestamp);
    UnitSlope(w.xform, now, 0);
    AnchorBeat(w.client);
  }

  lemma ResetFounds(w: World, env: Env)
    ensures var r := ResetState(w, env);
            Founded(r, env.freshId, env.resetInit) && r.resets == w.resets + 1 && r.pending == w.pending
            && r.peerCount == w.peerCount && r.current.timestamp == env.resetInit
  {
    UnitSlope(ResetState(w, env).xform, env.resetInit, 0);
  }

  /** The entry survives the change that the handler itself makes to the cache. */
  ghost predicate Stays(w: World, a: Action, k: PeerKey) {
    && k in w.peers
    && !(a.APeerLeft? && k == a.key)
    && !(a.AGatewayClosed? && k.addr == a.addr)
    && !(a.AMeasurementFailed? && a.id in w.others && w.peers[k].session == a.id)
  }

  /** The peers of a session when the handler has changed the cache. */
  ghost function MembersLeft(w: World, a: Action, sid: NodeId): set<NodeId> {
    (set k | k in w.peers && Stays(w, a, k) && !(a.ASawPeer? && k == a.key) && w.peers[k].session == sid :: k.id)
    + if a.ASawPeer? && a.info.session == sid then {a.key.id} else {}
  }

  /** The session that the handler leads to, if it founds none. */
  function SessionAfter(w: World, a: Action, env: Env): NodeId {
    if a.AMeasurementSucceeded? && a.id in w.others && Wins(a.id, a.xform, w.current, env.compared) then a.id
    else w.sessionId
  }

  /** The handler asks for a recount of the session's peers. */
  ghost predicate Recounts(w: World, a: Action, env: Env) {
    match a
    case ASawPeer(key, info) => key.id !in Members(w.peers, info.session)
    case APeerLeft(key) => key in w.peers
    case AGatewayClosed(_) => true
    case AMeasurementSucceeded(_, _) => SessionAfter(w, a, env) != w.sessionId
    case _ => false
  }

  /** Link is enabled, or a recount finds that nobody is left of a session that was counted. */
  ghost predicate Founds(w: World, a: Action, env: Env) {
    a.AEnable? || (Recounts(w, a, env) && w.peerCount > 0 && MembersLeft(w, a, SessionAfter(w, a, env)) == {})
  }

  ghost predicate CountOutcome(w: World, members: set<NodeId>, env: Env, w': World) {
    if members == {} && w.peerCount > 0 then
      w'.resets == w.resets + 1 && Founded(w', env.freshId, env.resetInit) && w'.peerCount == 0
    else w' == w.(peerCount := |members|)
  }

  lemma CountOutcomes(w: World, env: Env)
    ensures CountOutcome(w, Members(w.peers, w.sessionId), env, CountPeers(w, env))
  {
    var members := Members(w.peers, w.sessionId);
    assert members != {} ==> |members| > 0;
    ResetFounds(w.(peerCount := 0), env);
  }

  /** What a handler comes to. */
  ghost predicate Outcome(w: World, a: Action, env: Env, w': World) {
    if Founds(w, a, env) then
      w'.resets == w.resets + 1 && Founded(w', env.freshId, env.resetInit) && (!a.AEnable? ==> w'.peerCount == 0)
    else
      w'.resets == w.resets && w'.sessionId == SessionAfter(w, a, env)
      && w'.peerCount ==
         if Recounts(w, a, env) then |MembersLeft(w, a, SessionAfter(w, a, env))| else w.peerCount
  }

  lemma SeenMembers(w: World, a: Action, sid: NodeId)
    requires a.ASawPeer?
    ensures MembersLeft(w, a, sid) == Members(w.peers[a.key := a.info], sid)
  {
    var after := w.peers[a.key := a.info];
    forall id | id in MembersLeft(w, a, sid)
      ensures id in Members(after, sid)
    {
      if a.info.session == sid && id == a.key.id {
        assert after[a.key].session == sid;
      } else {
        var k :| k in w.peers && k != a.key && w.peers[k].session == sid && k.id == id;
        assert after[k] == w.peers[k];
      }
    }
    forall id | id in Members(after, sid)
      ensures id in MembersLeft(w, a, sid)
    {
      var k :| k in after && after[k].session == sid && k.id == id;
      if k != a.key { assert Stays(w, a, k) && w.peers[k].session == sid; }
    }
  }

  lemma SeenOutcome(w: World, a: Action, env: Env)
    requires Inv(w) && a.ASawPeer?
    ensures Outcome(w, a, env, SawPeer(w, a.key, a.info, env))
  {
    var v := Informed(w, a.key, a.info, env);
    InformedEffect(w, a.key, a.info, env);
    SeenMembers(w, a, w.sessionId);
    CountOutcomes(v, env);
  }

  /** A table that keeps just the entries that stay. */
  lemma LeftMembers(w: World, a: Action, table: PeerTable, sid: NodeId)
    requires !a.ASawPeer?
    requires forall k :: k in table <==> Stays(w, a, k)
    requires forall k :: k in table ==> k in w.peers && table[k].session == w.peers[k].session
    ensures Members(table, sid) == MembersLeft(w, a, sid)
  {
    forall id | id in MembersLeft(w, a, sid)
      ensures id in Members(table, sid)
    {
      var k :| k in w.peers && Stays(w, a, k) && w.peers[k].session == sid && k.id == id;
      assert k in table;
    }
    forall id | id in Members(table, sid)
      ensures id in MembersLeft(w, a, sid)
    {
      var k :| k in table && table[k].session == sid && k.id == id;
      assert Stays(w, a, k);
    }
  }

  lemma PeerLeftOutcome(w: World, a: Action, env: Env)
    requires a.APeerLeft?
    ensures Outcome(w, a, env, PeerLeft(w, a.key, env))
  {
    var v := w.(peers := w.peers - {a.key});
    LeftMembers(w, a, v.peers, w.sessionId);
    CountOutcomes(v, env);
  }

  lemma GatewayOutcome(w: World, a: Action, env: Env)
    requires a.AGatewayClosed?
    ensures Outcome(w, a, env, GatewayClosed(w, a.addr, env))
  {
    var v := w.(peers := WithoutGateway(w.peers, a.addr));
    LeftMembers(w, a, v.peers, w.sessionId);
    CountOutcomes(v, env);
  }

  lemma SucceededOutcome(w: World, a: Action, env: Env)
    requires Inv(w) && a.AMeasurementSucceeded? && a.xform.slope == 1.0
    ensures Outcome(w, a, env, MeasurementSucceeded(w, a.id, a.xform, env))
  {
    if a.id in w.others && Wins(a.id, a.xform, w.current, env.compared) {
      var measured := w.others[a.id].(xform := a.xform, timestamp := env.measured);
      var switched := Switched(w.(pending := w.pending - multiset{a.id}), measured);
      var joined := UpdateTiming(switched.(sessionId := a.id), measured.timeline, measured.xform, env.adopted);
      LeftMembers(w, a, w.peers, a.id);
      CountOutcomes(joined, env);
    }
  }

  /** Over all handlers: a node founds a session exactly when Link is enabled or a recount finds its
      session empty that was not, be it that a peer left, a gateway closed, a peer moved away or a
      session was joined whose peers are gone. Otherwise it is in the session that the measurement
      decides, and what was recounted is the number of the session's peers. */
  lemma FoundsExactly(w: World, a: Action, env: Env)
    requires Inv(w) && Enabled(w, a)
    ensures Outcome(w, a, env, Next(w, a, env))
  {
    match a
    case ASawPeer(_, _) => SeenOutcome(w, a, env);
    case APeerLeft(_) => PeerLeftOutcome(w, a, env);
    case AGatewayClosed(_) => GatewayOutcome(w, a, env);
    case AMeasurementSucceeded(_, _) => SucceededOutcome(w, a, env);
    case AMeasurementFailed(_) =>
    case AMeasurementLost(_) =>
    case ARemeasure =>
    case AClientWrite(_) =>
    case AClientCommit(_, _) =>
    case ARtCommit(_, _) =>
    case AEnable => ResetFounds(w, env);
  }

  /** Of two founded sessions the earlier one wins at every moment if more than half a second lies
      between them. */
  lemma EarlierFounderWins(w: World, id: NodeId, now: int, v: World, other: NodeId, later: int, hostTime: int)
    requires Founded(w, id, now) && Founded(v, other, later) && later - now > 500000
    ensures Wins(id, w.current.xform, v.current, hostTime) && !Wins(other, v.current.xform, w.current, hostTime)
  {
    UnitSlope(w.xform, now, 0);
    UnitSlope(v.xform, later, 0);
    UnitSlope(w.xform, hostTime, 0);
    UnitSlope(v.xform, hostTime, 0);
  }

  // ---- The cache of peers ----

  ghost predicate IsCommit(a: Action) {
    a.AClientCommit? || a.ARtCommit?
  }

  /** What is left of the cache entry `k`. */
  ghost predicate EntryAfter(w: World, a: Action, k: PeerKey, w': World) {
    (k in w'.peers <==> Stays(w, a, k) || (a.ASawPeer? && k == a.key))
    && (k in w'.peers ==>
          w'.peers[k] ==
          if a.ASawPeer? && k == a.key then a.info
          else if IsCommit(a) && w.peers[k].session == w.sessionId then PeerInfo(w.sessionId, w'.timeline)
          else w.peers[k])
  }

  lemma CountCache(w: World, env: Env)
    requires CountPeers(w, env).resets == w.resets
    ensures CountPeers(w, env).peers == w.peers
  {
    CountMonotone(w, env);
  }

  lemma SeenCache(w: World, a: Action, env: Env, k: PeerKey)
    requires Inv(w) && a.ASawPeer? && SawPeer(w, a.key, a.info, env).resets == w.resets
    ensures EntryAfter(w, a, k, SawPeer(w, a.key, a.info, env))
  {
    var v := Informed(w, a.key, a.info, env);
    InformedEffect(w, a.key, a.info, env);
    if a.key.id !in Members(w.peers, a.info.session) { CountCache(v, env); }
    assert SawPeer(w, a.key, a.info, env).peers == w.peers[a.key := a.info];
  }

  lemma PeerLeftCache(w: World, a: Action, env: Env, k: PeerKey)
    requires a.APeerLeft? && PeerLeft(w, a.key, env).resets == w.resets
    ensures EntryAfter(w, a, k, PeerLeft(w, a.key, env))
  {
    if a.key in w.peers { CountCache(w.(peers := w.peers - {a.key}), env); }
  }

  lemma GatewayCache(w: World, a: Action, env: Env, k: PeerKey)
    requires a.AGatewayClosed? && GatewayClosed(w, a.addr, env).resets == w.resets
    ensures EntryAfter(w, a, k, GatewayClosed(w, a.addr, env))
  {
    CountCache(w.(peers := WithoutGateway(w.peers, a.addr)), env);
  }

  lemma JoinCache(w: World, session: Session, env: Env)
    requires session.xform.slope != 0.0
    ensures JoinSession(w, session, env).resets == w.resets ==> JoinSession(w, session, env).peers == w.peers
  {
  }

  lemma SucceededCache(w: World, id: NodeId, xform: GhostXForm, env: Env)
    requires xform.slope != 0.0
    ensures var w' := MeasurementSucceeded(w, id, xform, env); w'.resets == w.resets ==> w'.peers == w.peers
  {
    var v := w.(pending := w.pending - multiset{id});
    if id == w.current.id {
      var current := w.current.(xform := xform, timestamp := env.measured);
      JoinCache(v.(current := current), current, env);
    } else if id in w.others && Wins(id, xform, w.current, env.compared) {
      var measured := w.others[id].(xform := xform, timestamp := env.measured);
      JoinCache(Switched(v, measured), measured, env);
    }
  }

  lemma CommitCache(w: World, a: Action, env: Env, k: PeerKey)
    requires Inv(w) && Enabled(w, a) && IsCommit(a)
    ensures EntryAfter(w, a, k, Next(w, a, env))
  {
  }

  lemma FailedCache(w: World, a: Action, env: Env, k: PeerKey)
    requires Inv(w) && Enabled(w, a) && a.AMeasurementFailed?
    ensures EntryAfter(w, a, k, Next(w, a, env))
  {
  }

  /** Over all handlers without a new session: which entries remain in the cache, and what they say. */
  lemma CacheExactly(w: World, a: Action, env: Env, k: PeerKey)
    requires Inv(w) && Enabled(w, a) && Next(w, a, env).resets == w.resets
    ensures EntryAfter(w, a, k, Next(w, a, env))
  {
    match a
    case ASawPeer(_, _) => SeenCache(w, a, env, k);
    case APeerLeft(_) => PeerLeftCache(w, a, env, k);
    case AGatewayClosed(_) => GatewayCache(w, a, env, k);
    case AMeasurementSucceeded(id, xform) => SucceededCache(w, id, xform, env);
    case AMeasurementFailed(_) => FailedCache(w, a, env, k);
    case AMeasurementLost(_) =>
    case ARemeasure =>
    case AClientWrite(_) =>
    case AClientCommit(_, _) => CommitCache(w, a, env, k);
    case ARtCommit(_, _) => CommitCache(w, a, env, k);
    case AEnable =>
  }

  // ---- Measurements ----

  ghost predicate Launches(w: World, a: Action, id: NodeId) {
    (a.ASawPeer? && a.info.session == id && !Known(w, id))
    || (a.ARemeasure? && id == w.sessionId && Members(w.peers, id) != {})
  }

  predicate Ends(a: Action, id: NodeId) {
    (a.AMeasurementSucceeded? || a.AMeasurementFailed? || a.AMeasurementLost?) && a.id == id
  }

  lemma SeenPending(w: World, key: PeerKey, info: PeerInfo, env: Env)
    requires Inv(w)
    ensures SawPeer(w, key, info, env).pending ==
            if Known(w, info.session) then w.pending else w.pending + multiset{info.session}
  {
    var inserted := w.(peers := w.peers[key := info]);
    assert inserted.peers[key] == info && key.id in Members(inserted.peers, info.session);
    if !Known(w, info.session) { assert !TimelineCached(w.peers, info); }
    CountPending(Informed(w, key, info, env), env);
  }

  lemma CountPending(w: World, env: Env)
    ensures CountPeers(w, env).pending == w.pending
  {
  }

  lemma JoinPending(w: World, session: Session, env: Env)
    requires session.xform.slope != 0.0
    ensures JoinSession(w, session, env).pending == w.pending
  {
  }

  lemma SucceededPending(w: World, id: NodeId, xform: GhostXForm, env: Env)
    requires xform.slope != 0.0
    ensures MeasurementSucceeded(w, id, xform, env).pending == w.pending - multiset{id}
  {
    var v := w.(pending := w.pending - multiset{id});
    if id == w.current.id {
      var current := w.current.(xform := xform, timestamp := env.measured);
      JoinPending(v.(current := current), current, env);
    } else if id in w.others && Wins(id, xform, w.current, env.compared) {
      var measured := w.others[id].(xform := xform, timestamp := env.measured);
      JoinPending(Switched(v, measured), measured, env);
    }
  }

  /** Over all handlers: the measurements running afterwards are those before, with one more for an
      unknown session that is announced or a current session with peers that is re-measured, and one
      less for each that has ended. */
  lemma PendingExactly(w: World, a: Action, env: Env, id: NodeId)
    requires Inv(w) && Enabled(w, a)
    ensures Next(w, a, env).pending[id] ==
            w.pending[id] + (if Launches(w, a, id) then 1 else 0) - (if Ends(a, id) then 1 else 0)
  {
    match a
    case ASawPeer(key, info) => SeenPending(w, key, info, env);
    case APeerLeft(key) => CountPending(w.(peers := w.peers - {key}), env);
    case AGatewayClosed(addr) => CountPending(w.(peers := WithoutGateway(w.peers, addr)), env);
    case AMeasurementSucceeded(other, xform) => SucceededPending(w, other, xform, env);
    case _ =>
  }

  // ---- The known sessions ----

  ghost predicate Announces(a: Action, sid: NodeId) {
    a.ASawPeer? && a.info.session == sid
  }

  ghost predicate Forgets(w: World, a: Action, sid: NodeId) {
    a.AMeasurementFailed? && a.id == sid && sid != w.sessionId
  }

  /** What is known of session `sid`. */
  ghost predicate SessionAfterwards(w: World, a: Action, sid: NodeId, w': World) {
    (Known(w', sid) <==> (Known(w, sid) && !Forgets(w, a, sid)) || Announces(a, sid))
    && (Known(w', sid) ==> XFormOf(w', sid) == XFormAfter(w, a, sid) && Stored(w', sid) == StoredAfter(w, a, sid, w'))
  }

  ghost function XFormAfter(w: World, a: Action, sid: NodeId): GhostXForm {
    if !Known(w, sid) then NO_XFORM
    else if a.AMeasurementSucceeded? && a.id == sid then a.xform
    else XFormOf(w, sid)
  }

  ghost function StoredAfter(w: World, a: Action, sid: NodeId, w': World): Timeline {
    if Announces(a, sid) && !Known(w, sid) then a.info.timeline
    else if Announces(a, sid) && a.info.timeline.beatOrigin > Stored(w, sid).beatOrigin then a.info.timeline
    else if !Known(w, sid) || (IsCommit(a) && sid == w.sessionId) then w'.timeline
    else Stored(w, sid)
  }

  /** The same sessions are known, with the same contents. */
  ghost predicate SameKnowledge(w: World, w': World) {
    w'.current == w.current && w'.others == w.others
  }

  lemma CountKnows(w: World, env: Env)
    requires CountPeers(w, env).resets == w.resets
    ensures SameKnowledge(w, CountPeers(w, env))
  {
    CountMonotone(w, env);
  }

  lemma SawSessionKnows(w: World, key: PeerKey, info: PeerInfo, env: Env, sid: NodeId)
    requires SessionsWellFormed(w) && w.sessionId == w.current.id
    ensures SessionAfterwards(w, ASawPeer(key, info), sid, SawSession(w, info.session, info.timeline))
  {
  }

  lemma KnowledgeCarries(w: World, a: Action, sid: NodeId, v: World, v': World, u: World)
    requires a.ASawPeer? && SameKnowledge(w, u) && u.sessionId == w.sessionId && SameKnowledge(v, v')
    requires SessionAfterwards(u, a, sid, v)
    ensures SessionAfterwards(w, a, sid, v')
  {
  }

  lemma SeenKnows(w: World, key: PeerKey, info: PeerInfo, env: Env, sid: NodeId)
    requires Inv(w) && SawPeer(w, key, info, env).resets == w.resets
    ensures SessionAfterwards(w, ASawPeer(key, info), sid, SawPeer(w, key, info, env))
  {
    var inserted := w.(peers := w.peers[key := info]);
    var saw, v, w' := SawSession(inserted, info.session, info.timeline), Informed(w, key, info, env),
                      SawPeer(w, key, info, env);
    SawSessionKnows(inserted, key, info, env, sid);
    if key.id !in Members(w.peers, info.session) { CountKnows(v, env); }
    if TimelineCached(w.peers, info) { SuppressionHidesNothing(w, key, info, env); }
    assert SameKnowledge(saw, v) && SameKnowledge(v, w');
    KnowledgeCarries(w, ASawPeer(key, info), sid, saw, w', inserted);
  }

  lemma CurrentMeasuredKnows(w: World, a: Action, env: Env, sid: NodeId)
    requires Inv(w) && a.AMeasurementSucceeded? && a.xform.slope == 1.0 && a.id == w.current.id
    requires MeasurementSucceeded(w, a.id, a.xform, env).resets == w.resets
    ensures SessionAfterwards(w, a, sid, MeasurementSucceeded(w, a.id, a.xform, env))
  {
    var current := w.current.(xform := a.xform, timestamp := env.measured);
    JoinKeepsSessions(w.(pending := w.pending - multiset{a.id}, current := current), current, env);
  }

  lemma SucceededKnows(w: World, a: Action, env: Env, sid: NodeId)
    requires Inv(w) && a.AMeasurementSucceeded? && a.xform.slope == 1.0
    requires MeasurementSucceeded(w, a.id, a.xform, env).resets == w.resets
    ensures SessionAfterwards(w, a, sid, MeasurementSucceeded(w, a.id, a.xform, env))
  {
    var id, xform := a.id, a.xform;
    if id == w.current.id {
      CurrentMeasuredKnows(w, a, env, sid);
    } else if id in w.others && Wins(id, xform, w.current, env.compared) {
      var measured := w.others[id].(xform := xform, timestamp := env.measured);
      JoinKeepsSessions(Switched(w.(pending := w.pending - multiset{id}), measured), measured, env);
    }
  }

  lemma FailedKnows(w: World, a: Action, env: Env, sid: NodeId)
    requires Inv(w) && Enabled(w, a) && a.AMeasurementFailed?
    ensures SessionAfterwards(w, a, sid, Next(w, a, env))
  {
  }

  lemma CommitKnows(w: World, a: Action, env: Env, sid: NodeId)
    requires Inv(w) && Enabled(w, a) && IsCommit(a)
    ensures SessionAfterwards(w, a, sid, Next(w, a, env))
  {
  }

  lemma UnchangedKnows(w: World, a: Action, sid: NodeId, w': World)
    requires SameKnowledge(w, w') && !a.ASawPeer? && !a.AMeasurementFailed? && !a.AMeasurementSucceeded? && !IsCommit(a)
    ensures SessionAfterwards(w, a, sid, w')
  {
  }

  /** Over all handlers without a new session: which sessions are known, with which timeline and which
      measurement. */
  lemma SessionsExactly(w: World, a: Action, env: Env, sid: NodeId)
    requires Inv(w) && Enabled(w, a) && Next(w, a, env).resets == w.resets
    ensures SessionAfterwards(w, a, sid, Next(w, a, env))
  {
    match a
    case ASawPeer(key, info) => SeenKnows(w, key, info, env, sid);
    case APeerLeft(key) =>
      if key in w.peers { CountKnows(w.(peers := w.peers - {key}), env); }
      UnchangedKnows(w, a, sid, Next(w, a, env));
    case AGatewayClosed(addr) =>
      CountKnows(w.(peers := WithoutGateway(w.peers, addr)), env);
      UnchangedKnows(w, a, sid, Next(w, a, env));
    case AMeasurementSucceeded(_, _) => SucceededKnows(w, a, env, sid);
    case AMeasurementFailed(_) => FailedKnows(w, a, env, sid);
    case AMeasurementLost(_) => UnchangedKnows(w, a, sid, Next(w, a, env));
    case ARemeasure => RemeasureKnows(w, sid);
    case AClientWrite(_) => UnchangedKnows(w, a, sid, Next(w, a, env));
    case AClientCommit(_, _) => CommitKnows(w, a, env, sid);
    case ARtCommit(_, _) => CommitKnows(w, a, env, sid);
    case AEnable =>
  }

  lemma RemeasureKnows(w: World, sid: NodeId)
    requires Inv(w)
    ensures SessionAfterwards(w, ARemeasure, sid, Remeasure(w))
  {
  }

  // ---- When a session was measured ----

  ghost function Stamp(w: World, sid: NodeId): int
    requires Known(w, sid)
  {
    if sid == w.current.id then w.current.timestamp else w.others[sid].timestamp
  }

  ghost function StampAfter(w: World, a: Action, env: Env, sid: NodeId): int {
    if !Known(w, sid) || (a.ARemeasure? && Launches(w, a, sid)) then 0
    else if a.AMeasurementSucceeded? && a.id == sid then env.measured
    else Stamp(w, sid)
  }

  ghost predicate Stamped(w: World, a: Action, env: Env, sid: NodeId, w': World) {
    Known(w', sid) ==> Stamp(w', sid) == StampAfter(w, a, env, sid)
  }

  lemma SawSessionStamps(w: World, a: Action, env: Env, sid: NodeId)
    requires SessionsWellFormed(w) && a.ASawPeer?
    ensures Stamped(w, a, env, sid, SawSession(w, a.info.session, a.info.timeline))
  {
  }

  lemma StampCarries(w: World, a: Action, env: Env, sid: NodeId, v: World, v': World, u: World)
    requires a.ASawPeer? && SameKnowledge(w, u) && SameKnowledge(v, v') && Stamped(u, a, env, sid, v)
    ensures Stamped(w, a, env, sid, v')
  {
  }

  lemma SeenStamps(w: World, a: Action, env: Env, sid: NodeId)
    requires Inv(w) && a.ASawPeer? && SawPeer(w, a.key, a.info, env).resets == w.resets
    ensures Stamped(w, a, env, sid, SawPeer(w, a.key, a.info, env))
  {
    var inserted := w.(peers := w.peers[a.key := a.info]);
    var v, w' := Informed(w, a.key, a.info, env), SawPeer(w, a.key, a.info, env);
    if a.key.id !in Members(w.peers, a.info.session) { CountKnows(v, env); }
    if TimelineCached(w.peers, a.info) {
      UnchangedStamps(w, a, env, sid, w');
    } else {
      SawSessionStamps(inserted, a, env, sid);
      StampCarries(w, a, env, sid, SawSession(inserted, a.info.session, a.info.timeline), w', inserted);
    }
  }

  lemma SucceededStamps(w: World, a: Action, env: Env, sid: NodeId)
    requires Inv(w) && a.AMeasurementSucceeded? && a.xform.slope == 1.0
    requires MeasurementSucceeded(w, a.id, a.xform, env).resets == w.resets
    ensures Stamped(w, a, env, sid, MeasurementSucceeded(w, a.id, a.xform, env))
  {
    var id, xform := a.id, a.xform;
    var v := w.(pending := w.pending - multiset{id});
    if id == w.current.id {
      var current := w.current.(xform := xform, timestamp := env.measured);
      JoinKeepsSessions(v.(current := current), current, env);
    } else if id in w.others && Wins(id, xform, w.current, env.compared) {
      var measured := w.others[id].(xform := xform, timestamp := env.measured);
      JoinKeepsSessions(Switched(v, measured), measured, env);
    }
  }

  lemma UnchangedStamps(w: World, a: Action, env: Env, sid: NodeId, w': World)
    requires SameKnowledge(w, w') && !a.ARemeasure? && !a.AMeasurementSucceeded?
    ensures Stamped(w, a, env, sid, w')
  {
  }

  lemma OtherStamps(w: World, a: Action, env: Env, sid: NodeId)
    requires Inv(w) && Enabled(w, a) && (a.AMeasurementFailed? || a.ARemeasure? || IsCommit(a))
    ensures Stamped(w, a, env, sid, Next(w, a, env))
  {
  }

  /** Over all handlers without a new session: a known session carries the time of its last successful
      measurement, which is void while the session has not been measured or is measured again. */
  lemma StampsExactly(w: World, a: Action, env: Env, sid: NodeId)
    requires Inv(w) && Enabled(w, a) && Next(w, a, env).resets == w.resets
    ensures Stamped(w, a, env, sid, Next(w, a, env))
  {
    match a
    case ASawPeer(_, _) => SeenStamps(w, a, env, sid);
    case APeerLeft(key) =>
      if key in w.peers { CountKnows(w.(peers := w.peers - {key}), env); }
      UnchangedStamps(w, a, env, sid, Next(w, a, env));
    case AGatewayClosed(addr) =>
      CountKnows(w.(peers := WithoutGateway(w.peers, addr)), env);
      UnchangedStamps(w, a, env, sid, Next(w, a, env));
    case AMeasurementSucceeded(_, _) => SucceededStamps(w, a, env, sid);
    case AMeasurementLost(_) => UnchangedStamps(w, a, env, sid, Next(w, a, env));
    case AClientWrite(_) => UnchangedStamps(w, a, env, sid, Next(w, a, env));
    case AEnable =>
    case _ => OtherStamps(w, a, env, sid);
  }

  // ---- Commits ----

  /** A client's timeline reaches the session: unless beat 0 and the tempo are the session's already,
      the session takes the client's tempo, has beat 0 at the client's origin in ghost time, and outranks
      what was there before. */
  lemma CommitReaches(w: World, tl: Timeline, atTime: int, env: Env)
    requires Inv(w)
    ensures var w' := Next(w, AClientCommit(tl, atTime), env);
            w'.xform == w.xform && w'.sessionId == w.sessionId
            && if w.timeline.ToBeats(w.xform.HostToGhost(tl.timeOrigin)) == 0 && tl.tempo == w.timeline.tempo
               then w'.timeline == w.timeline
               else w'.timeline.tempo == tl.tempo
                    && w'.timeline.FromBeats(0) == w.xform.HostToGhost(tl.timeOrigin)
                    && w'.timeline.beatOrigin > w.timeline.beatOrigin
  {
    if !SessionUpToDate(w.timeline, tl, w.xform) {
      CommitReadsBack(w.timeline, tl, atTime, env.adopted, w.xform);
    }
  }

  // ---- The client follows the session ----

  /** The client has the session's tempo, and its origin is beat 0 of the session in host time. */
  ghost predicate Follows(w: World) {
    w.client.tempo == w.timeline.tempo && w.xform.HostToGhost(w.client.timeOrigin) == w.timeline.FromBeats(0)
  }

  /** The handler has changed the timing, or it found the client following and has left both alone. */
  ghost predicate Followed(w: World, w': World) {
    (w'.timeline == w.timeline && w'.xform == w.xform && w'.client == w.client) || Follows(w')
  }

  lemma UpdateFollows(w: World, tl: Timeline, xform: GhostXForm, now: int)
    requires xform.slope == 1.0
    ensures Followed(w, UpdateTiming(w, tl, xform, now))
  {
    ClientIsOnGrid(w.client, tl, now, xform);
  }

  lemma ResetFollows(w: World, env: Env)
    ensures Followed(w, ResetState(w, env))
  {
    var r := ResetState(w, env);
    UpdateFollows(w.(sessionId := env.freshId), r.timeline, r.xform, env.resetAdopted);
  }

  lemma CountFollows(w: World, env: Env)
    ensures Followed(w, CountPeers(w, env))
  {
    ResetFollows(w.(peerCount := 0), env);
  }

  lemma FollowedTwice(w: World, v: World, w': World)
    requires Followed(w, v) && Followed(v, w')
    ensures Followed(w, w')
  {
  }

  lemma SeenFollows(w: World, key: PeerKey, info: PeerInfo, env: Env)
    requires Inv(w)
    ensures Followed(w, SawPeer(w, key, info, env))
  {
    var saw := SawSession(w.(peers := w.peers[key := info]), info.session, info.timeline);
    var v := Informed(w, key, info, env);
    UpdateFollows(saw, saw.current.timeline, w.xform, env.adopted);
    CountFollows(v, env);
    FollowedTwice(w, v, CountPeers(v, env));
  }

  lemma JoinFollows(w: World, session: Session, env: Env)
    requires session.xform.slope == 1.0
    ensures Followed(w, JoinSession(w, session, env))
  {
    var joining := w.(sessionId := session.id);
    var joined := UpdateTiming(joining, session.timeline, session.xform, env.adopted);
    UpdateFollows(joining, session.timeline, session.xform, env.adopted);
    CountFollows(joined, env);
    FollowedTwice(w, joined, CountPeers(joined, env));
  }

  lemma SucceededFollows(w: World, id: NodeId, xform: GhostXForm, env: Env)
    requires Inv(w) && xform.slope == 1.0
    ensures Followed(w, MeasurementSucceeded(w, id, xform, env))
  {
    var v := w.(pending := w.pending - multiset{id});
    if id == w.current.id {
      var current := w.current.(xform := xform, timestamp := env.measured);
      JoinFollows(v.(current := current), current, env);
    } else if id in w.others && Wins(id, xform, w.current, env.compared) {
      var measured := w.others[id].(xform := xform, timestamp := env.measured);
      JoinFollows(Switched(v, measured), measured, env);
    }
  }

  lemma CommitFollows(w: World, tl: Timeline, atTime: int, env: Env)
    requires Inv(w)
    ensures Followed(w, ClientCommit(w, tl, atTime, env))
  {
    var s := UpdateSession(w.timeline, tl, atTime, w.xform);
    UpdateFollows(w.(current := w.current.(timeline := s), peers := WithTimeline(w.peers, w.sessionId, s)), s, w.xform,
      env.adopted);
  }

  /** Over all handlers but the client's own writes: whenever session or transform change, the client
      has the session's tempo and quantization grid afterwards, and otherwise it is left alone. */
  lemma ClientFollows(w: World, a: Action, env: Env)
    requires Inv(w) && Enabled(w, a) && !a.AClientWrite? && !a.ARtCommit?
    ensures Followed(w, Next(w, a, env))
  {
    match a
    case ASawPeer(key, info) => SeenFollows(w, key, info, env);
    case APeerLeft(key) => CountFollows(w.(peers := w.peers - {key}), env);
    case AGatewayClosed(addr) => CountFollows(w.(peers := WithoutGateway(w.peers, addr)), env);
    case AMeasurementSucceeded(id, xform) => SucceededFollows(w, id, xform, env);
    case AClientCommit(tl, atTime) => CommitFollows(w, tl, atTime, env);
    case AEnable => ResetFollows(w, env);
    case _ =>
  }

  /** A timeline set from the realtime thread is followed too, if its beats last at most a second or it
      changes the session. */
  lemma RtCommitFollows(w: World, tl: Timeline, atTime: int, env: Env)
    requires Inv(w)
    ensures var w' := Next(w, ARtCommit(tl, atTime), env);
            MicrosPerBeat(tl.tempo) <= 1000000 || w'.timeline != w.timeline ==> Follows(w')
  {
    CommitFollows(w.(client := tl), tl, atTime, env);
    if SessionUpToDate(w.timeline, tl, w.xform) && MicrosPerBeat(tl.tempo) <= MICRO {
      TimeRoundTrip(w.timeline, w.xform.HostToGhost(tl.timeOrigin));
    } else if !SessionUpToDate(w.timeline, tl, w.xform) {
      CommitReadsBack(w.timeline, tl, atTime, env.adopted, w.xform);
    }
  }
}
