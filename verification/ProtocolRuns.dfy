/** What holds over whole runs of a node, and between two nodes. */
module ProtocolRuns {
  import opened Rounding
  import opened LinkTime
  import opened ClientSession
  import opened Protocol

  // ---- Runs ----

  datatype Event = Event(action: Action, env: Env)

  ghost predicate IsRun(w: World, run: seq<Event>)
    decreases |run|
  {
    run == [] || (Enabled(w, run[0].action) && IsRun(Next(w, run[0].action, run[0].env), run[1..]))
  }

  ghost function After(w: World, run: seq<Event>): World
    requires IsRun(w, run)
    decreases |run|
  {
    if run == [] then w else After(Next(w, run[0].action, run[0].env), run[1..])
  }

  /** From a state that satisfies it on, after every handler and through every re-entrant reset:
      Controller and Sessions agree, the current session is not among the others, every cached peer is
      covered by its session's timeline, and a session's transform is a measured one or none. */
  lemma {:induction false} RunInv(w: World, run: seq<Event>)
    requires Inv(w) && IsRun(w, run)
    ensures Inv(After(w, run))
    decreases |run|
  {
    if run != [] {
      StepInv(w, run[0].action, run[0].env);
      RunInv(Next(w, run[0].action, run[0].env), run[1..]);
    }
  }

  /** So it holds in every reachable state. */
  lemma ReachableInv(id: NodeId, tempo: TempoValue, now: int, timestamp: int, run: seq<Event>)
    requires IsRun(Init(id, tempo, now, timestamp), run)
    ensures Inv(After(Init(id, tempo, now, timestamp), run))
  {
    InitInv(id, tempo, now, timestamp);
    RunInv(Init(id, tempo, now, timestamp), run);
  }

  // ---- Suppression ----

  /** Not reporting a (session, timeline) pair that is already cached loses nothing: reporting it
      would not have changed anything. */
  lemma SuppressionHidesNothing(w: World, key: PeerKey, info: PeerInfo, env: Env)
    requires Inv(w) && TimelineCached(w.peers, info)
    ensures var inserted := w.(peers := w.peers[key := info]);
            TimelineFromSession(inserted, info.session, info.timeline, env) == inserted
  {
    assert Covered(w, info);
    if info.session != w.current.id {
      assert w.others == w.others[info.session := w.others[info.session]];
    }
  }

  // ---- Priorities only rise ----

  ghost predicate SameOrHigher(before: Timeline, after: Timeline) {
    after == before || after.beatOrigin > before.beatOrigin
  }

  /** For every session known before and after, the timeline is unchanged or strictly outranks
      the one before. */
  ghost predicate NoneLowered(w: World, w': World) {
    forall sid :: Known(w, sid) && Known(w', sid) ==> SameOrHigher(Stored(w, sid), Stored(w', sid))
  }

  lemma CountMonotone(w: World, env: Env)
    ensures var w' := CountPeers(w, env);
            w'.resets >= w.resets
            && (w'.resets == w.resets ==>
                  w'.current == w.current && w'.others == w.others && w'.peers == w.peers
                  && w'.timeline == w.timeline && w'.sessionId == w.sessionId)
  {
  }

  lemma SawSessionMonotone(w: World, sid: NodeId, tl: Timeline)
    requires SessionsWellFormed(w)
    ensures NoneLowered(w, SawSession(w, sid, tl))
  {
  }

  lemma InformedEffect(w: World, key: PeerKey, info: PeerInfo, env: Env)
    requires Inv(w)
    ensures var v := Informed(w, key, info, env);
            v.peers == w.peers[key := info] && v.sessionId == w.sessionId && v.peerCount == w.peerCount
            && v.resets == w.resets && NoneLowered(w, v)
  {
    var inserted := w.(peers := w.peers[key := info]);
    var saw := SawSession(inserted, info.session, info.timeline);
    if TimelineCached(w.peers, info) {
      SameSessions(w, inserted);
    } else {
      SawSessionMonotone(inserted, info.session, info.timeline);
      LoweredBySessions(inserted, saw, w, Informed(w, key, info, env));
    }
  }

  /** Priorities are a matter of the known sessions alone. */
  lemma LoweredBySessions(w: World, w': World, v: World, v': World)
    requires NoneLowered(w, w')
    requires v.current == w.current && v.others == w.others && v'.current == w'.current && v'.others == w'.others
    ensures NoneLowered(v, v')
  {
    forall sid | Known(v, sid) && Known(v', sid)
      ensures SameOrHigher(Stored(v, sid), Stored(v', sid))
    {
      assert Known(w, sid) && Known(w', sid);
    }
  }

  lemma SameSessions(w: World, w': World)
    requires w'.current == w.current && w'.others == w.others
    ensures NoneLowered(w, w')
  {
  }

  lemma CountedMonotone(w: World, v: World, env: Env)
    requires v.current == w.current && v.others == w.others && v.resets == w.resets
    ensures var w' := CountPeers(v, env);
            w'.resets >= w.resets && (w'.resets == w.resets ==> NoneLowered(w, w'))
  {
    CountMonotone(v, env);
    var w' := CountPeers(v, env);
    if w'.resets == w.resets { SameSessions(w, w'); }
  }

  lemma FailureMonotone(w: World, id: NodeId)
    ensures var w' := MeasurementFailed(w, id); w'.resets == w.resets && NoneLowered(w, w')
  {
  }

  lemma RemeasureMonotone(w: World)
    ensures Remeasure(w).resets == w.resets && NoneLowered(w, Remeasure(w))
  {
  }

  lemma SawPeerMonotone(w: World, key: PeerKey, info: PeerInfo, env: Env)
    requires Inv(w)
    ensures var w' := SawPeer(w, key, info, env);
            w'.resets >= w.resets && (w'.resets == w.resets ==> NoneLowered(w, w'))
  {
    var v := Informed(w, key, info, env);
    InformedEffect(w, key, info, env);
    CountMonotone(v, env);
    assert forall sid :: Known(w, sid) ==> SameOrHigher(Stored(w, sid), Stored(w, sid));
  }

  lemma CommitMonotone(w: World, tl: Timeline, atTime: int, env: Env)
    requires Inv(w)
    ensures var w' := ClientCommit(w, tl, atTime, env);
            w'.resets == w.resets && NoneLowered(w, w')
  {
  }

  lemma StepMonotone(w: World, a: Action, env: Env)
    requires Inv(w) && Enabled(w, a)
    ensures var w' := Next(w, a, env);
            w'.resets >= w.resets && (w'.resets == w.resets ==> NoneLowered(w, w'))
  {
    match a
    case ASawPeer(key, info) => SawPeerMonotone(w, key, info, env);
    case APeerLeft(key) =>
      CountedMonotone(w, w.(peers := w.peers - {key}), env);
      SameSessions(w, w);
    case AGatewayClosed(addr) => CountedMonotone(w, w.(peers := WithoutGateway(w.peers, addr)), env);
    case AMeasurementSucceeded(id, xform) =>
      MeasurementSucceededInv(w, id, xform, env);
      SucceededResets(w, id, xform, env);
    case AMeasurementFailed(id) => FailureMonotone(w, id);
    case AMeasurementLost(id) => SameSessions(w, w.(pending := w.pending - multiset{id}));
    case ARemeasure => RemeasureMonotone(w);
    case AClientWrite(tl) => SameSessions(w, w.(client := tl));
    case AClientCommit(tl, atTime) => CommitMonotone(w, tl, atTime, env);
    case ARtCommit(tl, atTime) => CommitMonotone(w.(client := tl), tl, atTime, env);
    case AEnable => ResetInv(w, env);
  }

  lemma SucceededResets(w: World, id: NodeId, xform: GhostXForm, env: Env)
    requires xform.slope != 0.0
    ensures MeasurementSucceeded(w, id, xform, env).resets >= w.resets
  {
  }

  ghost predicate KnownThroughout(w: World, run: seq<Event>, sid: NodeId)
    requires IsRun(w, run)
    decreases |run|
  {
    Known(w, sid) && (run != [] ==> KnownThroughout(Next(w, run[0].action, run[0].env), run[1..], sid))
  }

  lemma {:induction false} ResetsOnlyGrow(w: World, run: seq<Event>)
    requires Inv(w) && IsRun(w, run)
    ensures After(w, run).resets >= w.resets
    decreases |run|
  {
    if run != [] {
      StepMonotone(w, run[0].action, run[0].env);
      StepInv(w, run[0].action, run[0].env);
      ResetsOnlyGrow(Next(w, run[0].action, run[0].env), run[1..]);
    }
  }

  /** Along any run without a reset, the timeline of a session that stays known is never replaced
      by one of equal or lower priority, wherever the session is kept meanwhile. */
  lemma {:induction false} SessionTimelineOnlyRises(w: World, run: seq<Event>, sid: NodeId)
    requires Inv(w) && IsRun(w, run) && KnownThroughout(w, run, sid)
    requires After(w, run).resets == w.resets
    ensures Known(After(w, run), sid)
    ensures SameOrHigher(Stored(w, sid), Stored(After(w, run), sid))
    decreases |run|
  {
    if run != [] {
      var next := Next(w, run[0].action, run[0].env);
      StepMonotone(w, run[0].action, run[0].env);
      StepInv(w, run[0].action, run[0].env);
      ResetsOnlyGrow(next, run[1..]);
      SessionTimelineOnlyRises(next, run[1..], sid);
    }
  }

  // ---- Convergence ----

  datatype Announcement = Announcement(key: PeerKey, info: PeerInfo, env: Env)

  /** A node handling announcements one after the other. */
  ghost function Announced(w: World, heard: seq<Announcement>): World
    requires Inv(w)
    decreases |heard|
  {
    if heard == [] then w
    else
      SawPeerInv(w, heard[0].key, heard[0].info, heard[0].env);
      Announced(SawPeer(w, heard[0].key, heard[0].info, heard[0].env), heard[1..])
  }

  /** The timelines announced for one session, in order. */
  ghost function TimelinesFor(sid: NodeId, heard: seq<Announcement>): seq<Timeline> {
    if heard == [] then []
    else (if heard[0].info.session == sid then [heard[0].info.timeline] else []) + TimelinesFor(sid, heard[1..])
  }

  function Best(tl: Timeline, announced: seq<Timeline>): Timeline
    decreases |announced|
  {
    if announced == [] then tl
    else Best(if announced[0].beatOrigin > tl.beatOrigin then announced[0] else tl, announced[1..])
  }

  lemma AnnouncementEffect(w: World, a: Announcement)
    requires Inv(w)
    ensures var w' := SawPeer(w, a.key, a.info, a.env);
            w'.resets >= w.resets
            && (w'.resets == w.resets ==>
                  w'.sessionId == w.sessionId
                  && w'.timeline == Best(w.timeline, TimelinesFor(w.sessionId, [a])))
  {
    var inserted := w.(peers := w.peers[a.key := a.info]);
    var informed := TimelineFromSession(inserted, a.info.session, a.info.timeline, a.env);
    assert TimelinesFor(w.sessionId, [a]) == if a.info.session == w.sessionId then [a.info.timeline] else [];
    if TimelineCached(w.peers, a.info) {
      SuppressionHidesNothing(w, a.key, a.info, a.env);
    }
    CountMonotone(informed, a.env);
  }

  lemma {:induction false} BestOfConcat(tl: Timeline, a: seq<Timeline>, b: seq<Timeline>)
    ensures Best(tl, a + b) == Best(Best(tl, a), b)
    decreases |a|
  {
    if a == [] {
      assert a + b == b;
    } else {
      assert (a + b)[1..] == a[1..] + b;
      BestOfConcat(if a[0].beatOrigin > tl.beatOrigin then a[0] else tl, a[1..], b);
    }
  }

  lemma BestOfHeard(tl: Timeline, sid: NodeId, heard: seq<Announcement>)
    requires heard != []
    ensures Best(tl, TimelinesFor(sid, heard)) ==
            Best(Best(tl, TimelinesFor(sid, [heard[0]])), TimelinesFor(sid, heard[1..]))
  {
    BestOfConcat(tl, TimelinesFor(sid, [heard[0]]), TimelinesFor(sid, heard[1..]));
    assert TimelinesFor(sid, [heard[0]]) + TimelinesFor(sid, heard[1..]) == TimelinesFor(sid, heard);
  }

  /** However announcements are cached and suppressed, the node ends with the best timeline it
      has heard for its session. */
  lemma {:induction false} NodeAdoptsBest(w: World, heard: seq<Announcement>)
    requires Inv(w) && Announced(w, heard).resets == w.resets
    ensures Announced(w, heard).sessionId == w.sessionId
    ensures Announced(w, heard).timeline == Best(w.timeline, TimelinesFor(w.sessionId, heard))
    decreases |heard|
  {
    if heard != [] {
      var a := heard[0];
      SawPeerInv(w, a.key, a.info, a.env);
      var next := SawPeer(w, a.key, a.info, a.env);
      AnnouncementEffect(w, a);
      AnnouncedResets(next, heard[1..]);
      NodeAdoptsBest(next, heard[1..]);
      BestOfHeard(w.timeline, w.sessionId, heard);
    }
  }

  lemma {:induction false} AnnouncedResets(w: World, heard: seq<Announcement>)
    requires Inv(w)
    ensures Announced(w, heard).resets >= w.resets
    decreases |heard|
  {
    if heard != [] {
      var a := heard[0];
      SawPeerInv(w, a.key, a.info, a.env);
      AnnouncementEffect(w, a);
      AnnouncedResets(SawPeer(w, a.key, a.info, a.env), heard[1..]);
    }
  }

  /** The best timeline is one of those offered and none outranks it. */
  lemma {:induction false} BestIsMaximal(tl: Timeline, announced: seq<Timeline>)
    ensures var best := Best(tl, announced);
            (best == tl || best in announced) && best.beatOrigin >= tl.beatOrigin
            && forall t :: t in announced ==> best.beatOrigin >= t.beatOrigin
    decreases |announced|
  {
    if announced != [] {
      BestIsMaximal(if announced[0].beatOrigin > tl.beatOrigin then announced[0] else tl, announced[1..]);
    }
  }

  /** No two different timelines on offer have the same priority. */
  ghost predicate DistinctPriorities(tl: Timeline, announced: seq<Timeline>) {
    forall s, t :: (s == tl || s in announced) && (t == tl || t in announced) && s.beatOrigin == t.beatOrigin ==> s == t
  }

  /** Two nodes of one session that start from the same timeline and hear the same timelines for
      it, in any order and amid any other announcements, agree on the priority in the end, and on
      the timeline itself if priorities are distinct. Neither node may have reset on the way. */
  lemma NodesConverge(w1: World, w2: World, heard1: seq<Announcement>, heard2: seq<Announcement>)
    requires Inv(w1) && Inv(w2)
    requires w1.sessionId == w2.sessionId && w1.timeline == w2.timeline
    requires Announced(w1, heard1).resets == w1.resets && Announced(w2, heard2).resets == w2.resets
    requires multiset(TimelinesFor(w1.sessionId, heard1)) == multiset(TimelinesFor(w2.sessionId, heard2))
    ensures Announced(w1, heard1).timeline.beatOrigin == Announced(w2, heard2).timeline.beatOrigin
    ensures DistinctPriorities(w1.timeline, TimelinesFor(w1.sessionId, heard1)) ==>
              Announced(w1, heard1).timeline == Announced(w2, heard2).timeline
  {
    var ts1, ts2 := TimelinesFor(w1.sessionId, heard1), TimelinesFor(w2.sessionId, heard2);
    NodeAdoptsBest(w1, heard1);
    NodeAdoptsBest(w2, heard2);
    BestIsMaximal(w1.timeline, ts1);
    BestIsMaximal(w2.timeline, ts2);
    assert forall t :: t in ts1 <==> t in multiset(ts1);
    assert forall t :: t in ts2 <==> t in multiset(ts2);
  }

  // ---- Client commits ----

  /** A timeline set from the realtime thread is what the client reads afterwards, exactly: the
      handler that pushes it into the session cannot disturb it by rounding. */
  lemma RtCommitReadsBack(w: World, tl: Timeline, atTime: int, env: Env)
    requires Inv(w)
    ensures Next(w, ARtCommit(tl, atTime), env).client == tl
    ensures SameOrHigher(w.timeline, Next(w, ARtCommit(tl, atTime), env).timeline)
  {
    if !SessionUpToDate(w.timeline, tl, w.xform) {
      CommitReadsBack(w.timeline, tl, atTime, env.adopted, w.xform);
    }
  }

  /** After a commit every peer of the session is assumed to have adopted the timeline, so an
      announcement of the superseded one is not adopted back. */
  lemma CommitIsNotUndone(w: World, tl: Timeline, atTime: int, env: Env, key: PeerKey, stale: Timeline, env': Env)
    requires Inv(w) && stale.beatOrigin <= w.timeline.beatOrigin
    ensures var w' := Next(w, AClientCommit(tl, atTime), env);
            var w'' := SawPeer(w', key, PeerInfo(w'.sessionId, stale), env');
            w''.resets == w'.resets ==> w''.timeline == w'.timeline
  {
    var w' := Next(w, AClientCommit(tl, atTime), env);
    ClientCommitInv(w, tl, atTime, env);
    AnnouncementEffect(w', Announcement(key, PeerInfo(w'.sessionId, stale), env'));
  }

  /** The client timeline from which a handler starts: the one that is being set, or the present one. */
  function StartingClient(w: World, a: Action): Timeline {
    match a
    case AClientWrite(tl) => tl
    case ARtCommit(tl, _) => tl
    case _ => w.client
  }

  /** `after` continues `before`: at the time `now` the beat is the same, and a change brings `tempo`. */
  ghost predicate Continues(before: Timeline, after: Timeline, tempo: Tempo, now: int) {
    after.ToBeats(now) == before.ToBeats(now) && (after == before || after.tempo == tempo)
  }

  /** How a handler moves the client: at most once at the reading `adopted`, and once more at the
      reading `resetAdopted` if it ends in a reset. */
  ghost predicate MovesClient(before: Timeline, mid: Timeline, w: World, w': World, env: Env) {
    Continues(before, mid, w'.timeline.tempo, env.adopted)
    && if w'.resets == w.resets then w'.client == mid
       else Continues(mid, w'.client, w'.timeline.tempo, env.resetAdopted)
  }

  /** No handler makes the client's beat jump, whatever the clock readings: each time the handler
      adopts a session timeline, the beat at that reading is exactly what it was, through joins and
      re-entrant resets alike. */
  lemma ClientBeatNeverJumps(w: World, a: Action, env: Env)
    requires Inv(w) && Enabled(w, a)
    ensures exists mid :: MovesClient(StartingClient(w, a), mid, w, Next(w, a, env), env)
  {
    var mid := StepBeat(w, a, env);
  }

  lemma StepBeat(w: World, a: Action, env: Env) returns (mid: Timeline)
    requires Inv(w) && Enabled(w, a)
    ensures MovesClient(StartingClient(w, a), mid, w, Next(w, a, env), env)
  {
    mid := StartingClient(w, a);
    match a
    case ASawPeer(key, info) => mid := SawPeerBeat(w, key, info, env);
    case APeerLeft(key) => CountBeat(w.(peers := w.peers - {key}), env);
    case AGatewayClosed(addr) => CountBeat(w.(peers := WithoutGateway(w.peers, addr)), env);
    case AMeasurementSucceeded(id, xform) => mid := MeasuredBeat(w, id, xform, env);
    case AMeasurementFailed(_) =>
    case AMeasurementLost(_) =>
    case ARemeasure =>
    case AClientWrite(_) =>
    case AClientCommit(tl, atTime) => mid := CommitBeat(w, tl, atTime, env);
    case ARtCommit(tl, atTime) => mid := CommitBeat(w.(client := tl), tl, atTime, env);
    case AEnable => ResetBeat(w, env);
  }

  lemma UpdateBeat(w: World, tl: Timeline, xform: GhostXForm, now: int)
    requires xform.slope != 0.0
    ensures var u := UpdateTiming(w, tl, xform, now);
            Continues(w.client, u.client, tl.tempo, now) && u.timeline == tl
  {
    ClientIsContinuous(w.client, tl, now, xform);
  }

  lemma InformedBeat(w: World, key: PeerKey, info: PeerInfo, env: Env)
    requires Inv(w)
    ensures var v := Informed(w, key, info, env); Continues(w.client, v.client, v.timeline.tempo, env.adopted)
  {
    var saw := SawSession(w.(peers := w.peers[key := info]), info.session, info.timeline);
    UpdateBeat(saw, saw.current.timeline, w.xform, env.adopted);
  }

  lemma SawPeerBeat(w: World, key: PeerKey, info: PeerInfo, env: Env) returns (mid: Timeline)
    requires Inv(w)
    ensures MovesClient(w.client, mid, w, SawPeer(w, key, info, env), env)
  {
    var v := Informed(w, key, info, env);
    InformedBeat(w, key, info, env);
    InformedEffect(w, key, info, env);
    CountBeat(v, env);
    mid := v.client;
  }

  lemma CommitBeat(w: World, tl: Timeline, atTime: int, env: Env) returns (mid: Timeline)
    requires w.xform.slope != 0.0
    ensures MovesClient(w.client, mid, w, ClientCommit(w, tl, atTime, env), env)
  {
    var s := UpdateSession(w.timeline, tl, atTime, w.xform);
    UpdateBeat(w.(current := w.current.(timeline := s), peers := WithTimeline(w.peers, w.sessionId, s)), s, w.xform,
      env.adopted);
    mid := ClientCommit(w, tl, atTime, env).client;
  }

  /** Founding a session continues the beats of the old one: at the moment of the reset session and
      client are both where they were. */
  lemma ResetIsContinuous(w: World, env: Env)
    ensures var r := ResetState(w, env);
            r.timeline.ToBeats(r.xform.HostToGhost(env.resetInit)) ==
              w.timeline.ToBeats(w.xform.HostToGhost(env.resetInit))
            && r.client.ToBeats(env.resetAdopted) == w.client.ToBeats(env.resetAdopted)
            && r.timeline.tempo == w.timeline.tempo
  {
    AnchorBeat(ResetState(w, env).timeline);
    ResetBeat(w, env);
  }

  lemma ResetBeat(w: World, env: Env)
    ensures var r := ResetState(w, env);
            Continues(w.client, r.client, r.timeline.tempo, env.resetAdopted)
            && r.timeline.tempo == w.timeline.tempo && r.resets == w.resets + 1
  {
    var r := ResetState(w, env);
    UpdateBeat(w.(sessionId := env.freshId), r.timeline, r.xform, env.resetAdopted);
  }

  lemma AnchorBeat(tl: Timeline)
    ensures tl.ToBeats(tl.timeOrigin) == tl.beatOrigin
  {
    MicrosToBeatsOdd(tl.tempo, 0);
  }

  lemma CountBeat(w: World, env: Env)
    ensures var r := CountPeers(w, env);
            r.timeline.tempo == w.timeline.tempo
            && if r.resets == w.resets then r.client == w.client && r.timeline == w.timeline
               else Continues(w.client, r.client, r.timeline.tempo, env.resetAdopted)
  {
    ResetBeat(w.(peerCount := 0), env);
  }

  lemma JoinBeat(w: World, session: Session, env: Env) returns (mid: Timeline)
    requires session.xform.slope != 0.0
    ensures MovesClient(w.client, mid, w, JoinSession(w, session, env), env)
    ensures JoinSession(w, session, env).timeline.tempo == session.timeline.tempo
  {
    var joined := UpdateTiming(w.(sessionId := session.id), session.timeline, session.xform, env.adopted);
    UpdateBeat(w.(sessionId := session.id), session.timeline, session.xform, env.adopted);
    CountBeat(joined, env);
    mid := joined.client;
  }

  lemma MeasuredBeat(w: World, id: NodeId, xform: GhostXForm, env: Env) returns (mid: Timeline)
    requires Inv(w) && xform.slope == 1.0
    ensures MovesClient(w.client, mid, w, MeasurementSucceeded(w, id, xform, env), env)
  {
    var v := w.(pending := w.pending - multiset{id});
    mid := w.client;
    if id == w.current.id {
      var current := w.current.(xform := xform, timestamp := env.measured);
      mid := JoinBeat(v.(current := current), current, env);
    } else if id in w.others && Wins(id, xform, w.current, env.compared) {
      var measured := w.others[id].(xform := xform, timestamp := env.measured);
      mid := JoinBeat(Switched(v, measured), measured, env);
    }
  }

  // ---- Measurements ----

  /** An unknown session is never suppressed: when a peer announces one, its timeline is stored as
      announced and a measurement is launched, unless the announcement leads to a reset. */
  lemma NewSessionIsMeasured(w: World, key: PeerKey, info: PeerInfo, env: Env)
    requires Inv(w) && !Known(w, info.session)
    ensures var w' := SawPeer(w, key, info, env);
            w'.resets == w.resets ==>
              w'.pending == w.pending + multiset{info.session}
              && info.session in w'.others && w'.others[info.session].timeline == info.timeline
  {
    var inserted := w.(peers := w.peers[key := info]);
    assert !TimelineCached(w.peers, info);
    assert inserted.peers[key] == info && key.id in Members(inserted.peers, info.session);
    CountKeeps(Informed(w, key, info, env), env);
  }

  lemma CountKeeps(w: World, env: Env)
    ensures var w' := CountPeers(w, env);
            w'.resets == w.resets ==> w'.pending == w.pending && w'.others == w.others
  {
  }

  /** A session whose measurement failed is forgotten so thoroughly that it is measured as if new when
      it is announced again, even with a timeline that was announced before. */
  lemma FailedSessionIsRemeasured(w: World, id: NodeId, key: PeerKey, tl: Timeline, env: Env)
    requires Inv(w) && id in w.others
    ensures var failed := MeasurementFailed(w, id);
            !Known(failed, id) && Members(failed.peers, id) == {}
            && var w' := SawPeer(failed, key, PeerInfo(id, tl), env);
               w'.resets == failed.resets ==>
                 w'.pending == failed.pending + multiset{id} && id in w'.others && w'.others[id].timeline == tl
  {
    var failed := MeasurementFailed(w, id);
    MeasurementFailedInv(w, id);
    assert failed.peers == WithoutSession(w.peers, id);
    NewSessionIsMeasured(failed, key, PeerInfo(id, tl), env);
  }

  /** The transform stored for a known session. */
  ghost function XFormOf(w: World, sid: NodeId): GhostXForm
    requires Known(w, sid)
  {
    if sid == w.current.id then w.current.xform else w.others[sid].xform
  }

  /** A measurement of another session switches to it exactly when it wins; the result is stored
      either way, and the transform of the session left is kept for the time it is compared again. */
  lemma MeasurementDecides(w: World, id: NodeId, xform: GhostXForm, env: Env)
    requires Inv(w) && id in w.others && xform.slope == 1.0
    requires MeasurementSucceeded(w, id, xform, env).resets == w.resets
    ensures var w' := MeasurementSucceeded(w, id, xform, env);
            w'.sessionId == (if Wins(id, xform, w.current, env.compared) then id else w.sessionId)
            && Known(w', id) && XFormOf(w', id) == xform
            && Known(w', w.sessionId) && XFormOf(w', w.sessionId) == w.xform
            && w'.timeline == Stored(w, w'.sessionId)
  {
    var measured := w.others[id].(xform := xform, timestamp := env.measured);
    var v := w.(pending := w.pending - multiset{id});
    MeasurementSucceededInv(w, id, xform, env);
    if Wins(id, xform, w.current, env.compared) {
      JoinKeepsSessions(Switched(v, measured), measured, env);
    }
  }

  // ---- Membership ----

  ghost function OtherMembers(peers: PeerTable, key: PeerKey, sid: NodeId): set<NodeId> {
    set k | k in peers && k != key && peers[k].session == sid :: k.id
  }

  /** The test for a membership change is exact for the announced session: the number of its
      distinct peers rises by one when the test fires and stays the same otherwise. */
  lemma MembershipTestExact(peers: PeerTable, key: PeerKey, info: PeerInfo)
    ensures var before, after := Members(peers, info.session), Members(peers[key := info], info.session);
            after == before + {key.id}
            && |after| == if key.id !in before then |before| + 1 else |before|
  {
    var after := Members(peers[key := info], info.session);
    assert peers[key := info][key] == info;
    forall id | id in Members(peers, info.session)
      ensures id in after
    {
      var k :| k in peers && peers[k].session == info.session && k.id == id;
      if k != key { assert peers[key := info][k] == peers[k]; }
    }
    if key.id in Members(peers, info.session) {
      assert after == Members(peers, info.session);
    }
  }

  ghost predicate CountExact(w: World) {
    w.peerCount == |Members(w.peers, w.sessionId)|
  }

  lemma RecountIsExact(w: World, env: Env)
    ensures CountExact(CountPeers(w, env))
  {
    if |Members(w.peers, w.sessionId)| == 0 && w.peerCount != 0 {
      assert Members(map[], env.freshId) == {};
    }
  }

  /** The announcement takes a peer's last entry out of the current session while the peer is already
      known, on another gateway, in the session it announces. */
  ghost predicate LeavesUnnoticed(w: World, key: PeerKey, info: PeerInfo) {
    key in w.peers && w.peers[key].session == w.sessionId != info.session
    && key.id in Members(w.peers, info.session)
    && key.id !in OtherMembers(w.peers, key, w.sessionId)
  }

  lemma AnnouncementCount(w: World, key: PeerKey, info: PeerInfo, env: Env)
    requires Inv(w) && CountExact(w)
    ensures CountExact(SawPeer(w, key, info, env)) <==> !LeavesUnnoticed(w, key, info)
  {
    var v := Informed(w, key, info, env);
    InformedEffect(w, key, info, env);
    var others := OtherMembers(w.peers, key, w.sessionId);
    MembershipTestExact(w.peers, key, info);
    if key.id !in Members(w.peers, info.session) {
      RecountIsExact(v, env);
    } else if info.session != w.sessionId {
      MembersAfterMove(w.peers, key, info, w.sessionId);
      assert key.id !in others ==> |others + {key.id}| == |others| + 1;
      assert key.id in others ==> others + {key.id} == others;
    }
  }

  lemma EnableCount(w: World, env: Env)
    requires CountExact(w)
    ensures CountExact(ResetState(w, env)) <==> w.peerCount == 0
  {
    assert Members(map[], env.freshId) == {};
  }

  lemma JoinCount(w: World, session: Session, env: Env)
    requires session.xform.slope != 0.0 && (session.id == w.sessionId ==> CountExact(w))
    ensures CountExact(JoinSession(w, session, env))
  {
    RecountIsExact(UpdateTiming(w.(sessionId := session.id), session.timeline, session.xform, env.adopted), env);
  }

  lemma SuccessCount(w: World, id: NodeId, xform: GhostXForm, env: Env)
    requires Inv(w) && CountExact(w) && xform.slope == 1.0
    ensures CountExact(MeasurementSucceeded(w, id, xform, env))
  {
    var v := w.(pending := w.pending - multiset{id});
    if id == w.current.id {
      var current := w.current.(xform := xform, timestamp := env.measured);
      JoinCount(v.(current := current), current, env);
    } else if id in w.others && Wins(id, xform, w.current, env.compared) {
      var measured := w.others[id].(xform := xform, timestamp := env.measured);
      JoinCount(Switched(v, measured), measured, env);
    }
  }

  /** Neither forgetting another session nor rewriting timelines changes who is in the current one. */
  lemma SameMembers(peers: PeerTable, id: NodeId, sid: NodeId, tl: Timeline)
    ensures id != sid ==> Members(WithoutSession(peers, id), sid) == Members(peers, sid)
    ensures Members(WithTimeline(peers, id, tl), sid) == Members(peers, sid)
  {
    var without, retimed := WithoutSession(peers, id), WithTimeline(peers, id, tl);
    assert forall k :: k in retimed && retimed[k].session == sid <==> k in peers && peers[k].session == sid;
    if id != sid {
      assert forall k :: k in without && without[k].session == sid <==> k in peers && peers[k].session == sid;
    }
  }

  lemma CommitCount(w: World, tl: Timeline, atTime: int, env: Env)
    requires CountExact(w) && w.xform.slope != 0.0
    ensures CountExact(ClientCommit(w, tl, atTime, env))
  {
    SameMembers(w.peers, w.sessionId, w.sessionId, UpdateSession(w.timeline, tl, atTime, w.xform));
  }

  lemma FailureCount(w: World, id: NodeId)
    requires Inv(w) && CountExact(w)
    ensures CountExact(MeasurementFailed(w, id))
  {
    SameMembers(w.peers, id, w.sessionId, w.timeline);
  }

  /** Exactly two handlers leave a peer count stale that was right before: an announcement by which a
      peer leaves the current session unnoticed, and enabling Link while the count is positive, which
      forgets the peers without a recount. */
  lemma StaleCountExactly(w: World, a: Action, env: Env)
    requires Inv(w) && CountExact(w) && Enabled(w, a)
    ensures CountExact(Next(w, a, env)) <==>
            !(a.ASawPeer? && LeavesUnnoticed(w, a.key, a.info)) && !(a.AEnable? && w.peerCount > 0)
  {
    match a
    case ASawPeer(key, info) => AnnouncementCount(w, key, info, env);
    case APeerLeft(key) => RecountIsExact(w.(peers := w.peers - {key}), env);
    case AGatewayClosed(addr) => RecountIsExact(w.(peers := WithoutGateway(w.peers, addr)), env);
    case AMeasurementSucceeded(id, xform) => SuccessCount(w, id, xform, env);
    case AMeasurementFailed(id) => FailureCount(w, id);
    case AMeasurementLost(_) =>
    case ARemeasure =>
    case AClientWrite(_) =>
    case AClientCommit(tl, atTime) => CommitCount(w, tl, atTime, env);
    case ARtCommit(tl, atTime) => CommitCount(w.(client := tl), tl, atTime, env);
    case AEnable => EnableCount(w, env);
  }

  lemma RunOfOneMore(w: World, e: Event, rest: seq<Event>)
    requires Enabled(w, e.action) && IsRun(Next(w, e.action, e.env), rest)
    ensures IsRun(w, [e] + rest) && After(w, [e] + rest) == After(Next(w, e.action, e.env), rest)
  {
    assert ([e] + rest)[1..] == rest;
  }

  lemma SawPeerCount(w: World, key: PeerKey, info: PeerInfo, env: Env)
    requires Inv(w)
    requires key.id in Members(w.peers, info.session) || Members(w.peers[key := info], w.sessionId) != {}
    ensures var w' := SawPeer(w, key, info, env);
            Inv(w') && w'.peers == w.peers[key := info] && w'.sessionId == w.sessionId
            && w'.peerCount ==
               if key.id in Members(w.peers, info.session) then w.peerCount else |Members(w'.peers, w.sessionId)|
  {
    SawPeerInv(w, key, info, env);
    InformedEffect(w, key, info, env);
    var members := Members(w.peers[key := info], w.sessionId);
    assert members != {} ==> |members| > 0;
  }

  function SeenAt(id: NodeId, addr: Address, sid: NodeId, tl: Timeline, env: Env): Event {
    Event(ASawPeer(PeerKey(id, addr), PeerInfo(sid, tl)), env)
  }

  /** A peer is seen in session `sid` on two gateways, and then in session `other` on the one and on
      the other. */
  function MovingPeer(id: NodeId, near: Address, far: Address, sid: NodeId, other: NodeId, tl: Timeline, env: Env)
    : seq<Event>
  {
    [SeenAt(id, near, sid, tl, env)] + ([SeenAt(id, far, sid, tl, env)]
    + ([SeenAt(id, near, other, tl, env)] + ([SeenAt(id, far, other, tl, env)] + [])))
  }

  /** A stale count is reachable: on a new node a peer on two gateways that moves to another session
      stays counted although the session has no peer left, and so no session is founded. */
  lemma StaleCountReachable(sid: NodeId, tempo: TempoValue, now: int, timestamp: int, id: NodeId, near: Address,
      far: Address, other: NodeId, tl: Timeline, env: Env)
    requires near != far && other != sid
    ensures var w, run := Init(sid, tempo, now, timestamp), MovingPeer(id, near, far, sid, other, tl, env);
            IsRun(w, run)
            && var w' := After(w, run);
               Inv(w') && !CountExact(w') && w'.peerCount == 1
               && Members(w'.peers, w'.sessionId) == {} && w'.sessionId == sid
  {
    var w := Init(sid, tempo, now, timestamp);
    InitInv(sid, tempo, now, timestamp);
    StaleAfterMove(w, id, near, far, other, tl, env);
    RunInv(w, MovingPeer(id, near, far, sid, other, tl, env));
  }

  lemma StaleAfterMove(w: World, id: NodeId, near: Address, far: Address, other: NodeId, tl: Timeline, env: Env)
    requires Inv(w) && w.peers == map[] && w.peerCount == 0 && near != far && other != w.sessionId
    ensures var run := MovingPeer(id, near, far, w.sessionId, other, tl, env);
            IsRun(w, run)
            && var w' := After(w, run);
               !CountExact(w') && w'.peerCount == 1
               && Members(w'.peers, w'.sessionId) == {} && w'.sessionId == w.sessionId
  {
    var sid, k1, k2 := w.sessionId, PeerKey(id, near), PeerKey(id, far);
    var here, there := PeerInfo(sid, tl), PeerInfo(other, tl);
    var p1 := map[k1 := here];
    assert w.peers[k1 := here] == p1;
    var p2 := p1[k2 := here];
    var p3 := p2[k1 := there];
    var p4 := p3[k2 := there];
    assert p1[k1] == here && p3[k2] == here && p3[k1] == there;
    assert Members(p1, sid) == {id} && Members(p2, other) == {} && Members(p3, sid) == {id};
    assert id in Members(p3, other) && Members(p4, sid) == {};
    SawPeerCount(w, k1, here, env);
    var w1 := SawPeer(w, k1, here, env);
    SawPeerCount(w1, k2, here, env);
    var w2 := SawPeer(w1, k2, here, env);
    SawPeerCount(w2, k1, there, env);
    var w3 := SawPeer(w2, k1, there, env);
    SawPeerCount(w3, k2, there, env);
    var e1, e2 := SeenAt(id, near, sid, tl, env), SeenAt(id, far, sid, tl, env);
    var e3, e4 := SeenAt(id, near, other, tl, env), SeenAt(id, far, other, tl, env);
    RunOfOneMore(w3, e4, []);
    RunOfOneMore(w2, e3, [e4] + []);
    RunOfOneMore(w1, e2, [e3] + ([e4] + []));
    RunOfOneMore(w, e1, [e2] + ([e3] + ([e4] + [])));
  }

  /** Overwriting an entry takes its peer out of another session only if that entry was its last there. */
  lemma MembersAfterMove(peers: PeerTable, key: PeerKey, info: PeerInfo, sid: NodeId)
    requires info.session != sid
    ensures Members(peers[key := info], sid) == OtherMembers(peers, key, sid)
    ensures key in peers && peers[key].session == sid ==>
              Members(peers, sid) == OtherMembers(peers, key, sid) + {key.id}
    ensures !(key in peers && peers[key].session == sid) ==> Members(peers, sid) == OtherMembers(peers, key, sid)
  {
    var after := peers[key := info];
    assert forall k :: k in after && after[k].session == sid <==> k in peers && k != key && peers[k].session == sid;
  }

  // ---- The join rule ----

  /** Between two different sessions compared at one moment the rule picks exactly one, in
      whichever direction it is asked, unless their ghost times differ by exactly half a second. */
  lemma JoinRuleDecides(a: Session, b: Session, hostTime: int)
    requires a.id != b.id
    ensures !(Wins(a.id, a.xform, b, hostTime) && Wins(b.id, b.xform, a, hostTime))
    ensures Wins(a.id, a.xform, b, hostTime) || Wins(b.id, b.xform, a, hostTime) <==>
            Abs(a.xform.HostToGhost(hostTime) - b.xform.HostToGhost(hostTime)) != 500000
  {
  }

  /** Between sessions measured with slope 1 the outcome does not depend on when they are compared: the
      session founded more than half a second earlier wins, and closer than that the smaller id. */
  lemma OlderSessionWins(id: NodeId, founded: int, current: Session, currentFounded: int, hostTime: int)
    requires current.xform == GhostXForm(1.0, -currentFounded)
    ensures var wins := Wins(id, GhostXForm(1.0, -founded), current, hostTime);
            (currentFounded - founded > 500000 ==> wins)
            && (founded - currentFounded > 500000 ==> !wins)
            && (Abs(founded - currentFounded) < 500000 ==> (wins <==> id < current.id))
            && (Abs(founded - currentFounded) == 500000 ==> !wins)
  {
    UnitSlope(current.xform, hostTime, 0);
    UnitSlope(GhostXForm(1.0, -founded), hostTime, 0);
  }

  function GhostTime(s: Session, hostTime: int): int {
    s.xform.HostToGhost(hostTime)
  }

  predicate Beats(a: Session, b: Session, hostTime: int) {
    Wins(a.id, a.xform, b, hostTime)
  }

  predicate Cycle(a: Session, b: Session, c: Session, hostTime: int) {
    Beats(a, b, hostTime) && Beats(b, c, hostTime) && Beats(c, a, hostTime)
  }

  /** The ghost time of the session with the middle id ties with both others, while the one with the
      largest id is clearly ahead of the one with the smallest. */
  predicate Spread(a: Session, b: Session, c: Session, hostTime: int) {
    var ga, gb, gc := GhostTime(a, hostTime), GhostTime(b, hostTime), GhostTime(c, hostTime);
    gc - ga > SESSION_EPS && Abs(gc - gb) < SESSION_EPS && Abs(gb - ga) < SESSION_EPS
  }

  /** Three sessions, named in the order of their ids, win against each other in a circle exactly when
      they are spread like that. */
  lemma JoinRuleCyclesExactly(a: Session, b: Session, c: Session, hostTime: int)
    requires a.id < b.id < c.id
    ensures Cycle(a, b, c, hostTime) || Cycle(a, c, b, hostTime) <==> Spread(a, b, c, hostTime)
  {
  }

  /** Different ids, and no two ghost times exactly half a second apart: the rule decides every pair. */
  ghost predicate Decided(ss: set<Session>, hostTime: int) {
    forall a, b :: a in ss && b in ss && a != b ==>
      a.id != b.id && Abs(GhostTime(a, hostTime) - GhostTime(b, hostTime)) != SESSION_EPS
  }

  ghost predicate Ordered(ss: set<Session>, hostTime: int) {
    forall a, b, c :: a in ss && b in ss && c in ss && Beats(a, b, hostTime) && Beats(b, c, hostTime) ==>
      Beats(a, c, hostTime)
  }

  ghost predicate SomeSpread(ss: set<Session>, hostTime: int) {
    exists a, b, c :: a in ss && b in ss && c in ss && a.id < b.id < c.id && Spread(a, b, c, hostTime)
  }

  lemma BrokenChainIsSpread(ss: set<Session>, a: Session, b: Session, c: Session, hostTime: int)
    requires Decided(ss, hostTime) && a in ss && b in ss && c in ss
    requires Beats(a, b, hostTime) && Beats(b, c, hostTime) && !Beats(a, c, hostTime)
    ensures SomeSpread(ss, hostTime)
  {
    assert a != b && b != c && c != a;
    assert Cycle(a, b, c, hostTime) && Cycle(b, c, a, hostTime) && Cycle(c, a, b, hostTime);
    var x := if a.id < b.id && a.id < c.id then a else if b.id < c.id then b else c;
    var z := if a.id > b.id && a.id > c.id then a else if b.id > c.id then b else c;
    var y := if a != x && a != z then a else if b != x && b != z then b else c;
    assert x.id < y.id < z.id;
    JoinRuleCyclesExactly(x, y, z, hostTime);
  }

  /** Among any sessions of which every two are decided, the rule is a strict order exactly when no
      three are spread. */
  lemma JoinRuleOrdersExactly(ss: set<Session>, hostTime: int)
    requires Decided(ss, hostTime)
    ensures Ordered(ss, hostTime) <==> !SomeSpread(ss, hostTime)
  {
    if !Ordered(ss, hostTime) {
      var a, b, c :| a in ss && b in ss && c in ss
        && Beats(a, b, hostTime) && Beats(b, c, hostTime) && !Beats(a, c, hostTime);
      BrokenChainIsSpread(ss, a, b, c, hostTime);
    }
    if SomeSpread(ss, hostTime) {
      var a, b, c :| a in ss && b in ss && c in ss && a.id < b.id < c.id && Spread(a, b, c, hostTime);
      SpreadBreaksChain(a, b, c, hostTime);
    }
  }

  lemma SpreadBreaksChain(a: Session, b: Session, c: Session, hostTime: int)
    requires a.id < b.id < c.id && Spread(a, b, c, hostTime)
    ensures Beats(a, b, hostTime) && Beats(b, c, hostTime) && !Beats(a, c, hostTime)
  {
  }

  /** Such sessions exist. */
  lemma JoinRuleCycles(tl: Timeline) returns (a: Session, b: Session, c: Session)
    ensures Wins(a.id, a.xform, b, 0) && Wins(b.id, b.xform, c, 0) && Wins(c.id, c.xform, a, 0)
  {
    a := Session(1, tl, GhostXForm(1.0, 0), 0);
    b := Session(2, tl, GhostXForm(1.0, 400000), 0);
    c := Session(3, tl, GhostXForm(1.0, 800000), 0);
    UnitSlope(a.xform, 0, 0);
    UnitSlope(b.xform, 0, 0);
    UnitSlope(c.xform, 0, 0);
  }
}
