/** Measurements that never report a result, and the sessions they leave behind. */
module ProtocolLoss {
  import opened LinkTime
  import opened ClientSession
  import opened Protocol
  import opened ProtocolRuns

  /** The session is known, has not been measured, and is not being measured. */
  ghost predicate Stuck(w: World, id: NodeId) {
    id in w.others && w.others[id].xform == NO_XFORM && id !in w.pending
  }

  ghost predicate NoneStuck(w: World) {
    forall id :: id in w.others ==> !Stuck(w, id)
  }

  /** The last measurement of a session that has no result yet. */
  ghost predicate LastChance(w: World, id: NodeId) {
    id in w.others && w.others[id].xform == NO_XFORM && w.pending[id] == 1
  }

  /** `id` becomes or stays stuck between the two states only as a stuck session does. */
  ghost predicate OnlyIfStuck(w: World, w': World, id: NodeId) {
    Stuck(w', id) <==> Stuck(w, id) && w'.resets == w.resets
  }

  lemma CountStuck(w: World, id: NodeId, env: Env)
    ensures OnlyIfStuck(w, CountPeers(w, env), id)
  {
  }

  lemma SawSessionStuck(w: World, id: NodeId, sid: NodeId, tl: Timeline)
    requires SessionsWellFormed(w) && Members(w.peers, sid) != {}
    ensures OnlyIfStuck(w, SawSession(w, sid, tl), id)
  {
  }

  lemma SawPeerStuck(w: World, id: NodeId, key: PeerKey, info: PeerInfo, env: Env)
    requires Inv(w)
    ensures OnlyIfStuck(w, SawPeer(w, key, info, env), id)
  {
    var inserted := w.(peers := w.peers[key := info]);
    assert inserted.peers[key] == info && key.id in Members(inserted.peers, info.session);
    SawSessionStuck(inserted, id, info.session, info.timeline);
    CountStuck(Informed(w, key, info, env), id, env);
    InformedEffect(w, key, info, env);
  }

  lemma JoinStuck(w: World, id: NodeId, session: Session, env: Env)
    requires session.xform.slope != 0.0
    ensures OnlyIfStuck(w, JoinSession(w, session, env), id)
  {
    CountStuck(UpdateTiming(w.(sessionId := session.id), session.timeline, session.xform, env.adopted), id, env);
  }

  lemma SucceededStuck(w: World, id: NodeId, other: NodeId, xform: GhostXForm, env: Env)
    requires Inv(w) && other in w.pending && xform.slope == 1.0
    ensures OnlyIfStuck(w, MeasurementSucceeded(w, other, xform, env), id)
  {
    var v := w.(pending := w.pending - multiset{other});
    if other == w.current.id {
      var current := w.current.(xform := xform, timestamp := env.measured);
      JoinStuck(v.(current := current), id, current, env);
    } else if other in w.others && Wins(other, xform, w.current, env.compared) {
      var measured := w.others[other].(xform := xform, timestamp := env.measured);
      JoinStuck(Switched(v, measured), id, measured, env);
    }
  }

  lemma FailedStuck(w: World, id: NodeId, other: NodeId)
    requires Inv(w) && other in w.pending
    ensures OnlyIfStuck(w, MeasurementFailed(w, other), id)
  {
  }

  lemma LostStuck(w: World, id: NodeId, other: NodeId)
    requires other in w.pending
    ensures Stuck(w.(pending := w.pending - multiset{other}), id) <==>
            Stuck(w, id) || (id == other && LastChance(w, id))
  {
  }

  /** Over all handlers: a session is stuck afterwards exactly when it was stuck before and the node has
      not founded a new session, whoever announces it, or when its last measurement has just been
      lost before any has given a result. */
  lemma StuckExactly(w: World, id: NodeId, a: Action, env: Env)
    requires Inv(w) && Enabled(w, a)
    ensures Stuck(Next(w, a, env), id) <==>
            (Stuck(w, id) && Next(w, a, env).resets == w.resets) || (a == AMeasurementLost(id) && LastChance(w, id))
  {
    match a
    case ASawPeer(key, info) => SawPeerStuck(w, id, key, info, env);
    case APeerLeft(key) => CountStuck(w.(peers := w.peers - {key}), id, env);
    case AGatewayClosed(addr) => CountStuck(w.(peers := WithoutGateway(w.peers, addr)), id, env);
    case AMeasurementSucceeded(other, xform) => SucceededStuck(w, id, other, xform, env);
    case AMeasurementFailed(other) => FailedStuck(w, id, other);
    case AMeasurementLost(other) => LostStuck(w, id, other);
    case ARemeasure =>
    case AClientWrite(_) =>
    case AClientCommit(_, _) =>
    case ARtCommit(_, _) =>
    case AEnable =>
  }

  // ---- Runs without a fatal loss ----

  ghost predicate NoFatalLoss(w: World, run: seq<Event>)
    requires IsRun(w, run)
    decreases |run|
  {
    run == []
    || (!(run[0].action.AMeasurementLost? && LastChance(w, run[0].action.id))
        && NoFatalLoss(Next(w, run[0].action, run[0].env), run[1..]))
  }

  /** As long as no session loses its last chance, every known session has been measured or is being
      measured. */
  lemma {:induction false} NoneStuckInRuns(w: World, run: seq<Event>)
    requires Inv(w) && NoneStuck(w) && IsRun(w, run) && NoFatalLoss(w, run)
    ensures NoneStuck(After(w, run))
    decreases |run|
  {
    if run != [] {
      var e := run[0];
      StepInv(w, e.action, e.env);
      var next := Next(w, e.action, e.env);
      forall id | id in next.others
        ensures !Stuck(next, id)
      {
        StuckExactly(w, id, e.action, e.env);
      }
      NoneStuckInRuns(Next(w, e.action, e.env), run[1..]);
    }
  }

  lemma NoneStuckFromStart(id: NodeId, tempo: TempoValue, now: int, timestamp: int, run: seq<Event>)
    requires IsRun(Init(id, tempo, now, timestamp), run) && NoFatalLoss(Init(id, tempo, now, timestamp), run)
    ensures NoneStuck(After(Init(id, tempo, now, timestamp), run))
  {
    InitInv(id, tempo, now, timestamp);
    NoneStuckInRuns(Init(id, tempo, now, timestamp), run);
  }

  // ---- Stuck sessions stay stuck ----

  /** Along every run without a reset a stuck session is never joined. */
  lemma {:induction false} NeverJoined(w: World, id: NodeId, run: seq<Event>)
    requires Inv(w) && Stuck(w, id) && IsRun(w, run) && After(w, run).resets == w.resets
    ensures Stuck(After(w, run), id) && After(w, run).sessionId != id
    decreases |run|
  {
    if run != [] {
      var next := Next(w, run[0].action, run[0].env);
      StepInv(w, run[0].action, run[0].env);
      StepMonotone(w, run[0].action, run[0].env);
      ResetsOnlyGrow(next, run[1..]);
      StuckExactly(w, id, run[0].action, run[0].env);
      NeverJoined(next, id, run[1..]);
    }
  }

  // ---- A run that gets there ----

  /** A peer of session `other` is seen, its gateway closes and takes the measurement along, and the
      peer is seen again on the gateway that replaces it. */
  function RepairedGateway(key: PeerKey, other: NodeId, tl: Timeline, env: Env): seq<Event> {
    [SeenAt(key.id, key.addr, other, tl, env)] + ([Event(AGatewayClosed(key.addr), env)]
    + ([Event(AMeasurementLost(other), env)] + ([SeenAt(key.id, key.addr, other, tl, env)] + [])))
  }

  lemma CountOfNobody(w: World, env: Env)
    requires w.peerCount == 0 && Members(w.peers, w.sessionId) == {}
    ensures CountPeers(w, env) == w
  {
  }

  /** First contact with another session over a gateway that is then repaired: the session is visible
      and known, but stuck. */
  lemma StuckReachable(sid: NodeId, tempo: TempoValue, now: int, timestamp: int, key: PeerKey, other: NodeId,
      tl: Timeline, env: Env)
    requires other != sid
    ensures var w, run := Init(sid, tempo, now, timestamp), RepairedGateway(key, other, tl, env);
            IsRun(w, run)
            && var w' := After(w, run);
               Stuck(w', other) && Members(w'.peers, other) == {key.id} && w'.resets == w.resets
  {
    var w, info := Init(sid, tempo, now, timestamp), PeerInfo(other, tl);
    var seen: PeerTable := map[key := info];
    assert seen[key] == info && Members(seen, other) == {key.id} && Members(seen, sid) == {};
    var w1 := w.(peers := seen, others := map[other := Session(other, tl, NO_XFORM, 0)], pending := multiset{other});
    FirstContact(w, key, info, env, w1);
    var w2 := w1.(peers := map[]);
    assert WithoutGateway(seen, key.addr) == map[];
    assert Members(map[], sid) == {};
    CountOfNobody(w2, env);
    var w3 := w2.(pending := multiset{});
    assert w2.pending - multiset{other} == multiset{};
    var w4 := w3.(peers := seen);
    Return(w3, key, info, env, w4);
    var e1, e2, e3 := SeenAt(key.id, key.addr, other, tl, env), Event(AGatewayClosed(key.addr), env),
                      Event(AMeasurementLost(other), env);
    RunOfOneMore(w3, e1, []);
    RunOfOneMore(w2, e3, [e1] + []);
    RunOfOneMore(w1, e2, [e3] + ([e1] + []));
    RunOfOneMore(w, e1, [e2] + ([e3] + ([e1] + [])));
  }

  lemma FirstContact(w: World, key: PeerKey, info: PeerInfo, env: Env, w1: World)
    requires Agree(w) && w.peers == map[] && w.others == map[] && w.pending == multiset{} && w.peerCount == 0
    requires info.session != w.sessionId
    requires w1 == w.(peers := map[key := info], pending := multiset{info.session},
                      others := map[info.session := Session(info.session, info.timeline, NO_XFORM, 0)])
    ensures SawPeer(w, key, info, env) == w1
  {
    var seen: PeerTable := map[key := info];
    assert w.peers[key := info] == seen && seen[key] == info && key.id in Members(seen, info.session);
    assert Members(seen, w.sessionId) == {};
    assert !TimelineCached(w.peers, info);
    assert SawSession(w.(peers := seen), info.session, info.timeline) == w1;
    CountOfNobody(w1, env);
  }

  lemma Return(w: World, key: PeerKey, info: PeerInfo, env: Env, w': World)
    requires Agree(w) && w.peers == map[] && w.peerCount == 0 && info.session != w.sessionId
    requires w.others == map[info.session := Session(info.session, info.timeline, NO_XFORM, 0)]
    requires w' == w.(peers := map[key := info])
    ensures SawPeer(w, key, info, env) == w'
  {
    var seen: PeerTable := map[key := info];
    assert w.peers[key := info] == seen && seen[key] == info && key.id in Members(seen, info.session);
    assert Members(seen, w.sessionId) == {};
    assert SawSession(w', info.session, info.timeline).others == w.others;
    CountOfNobody(w', env);
  }
}
