/** The classes that run the protocol, with the vectors and fields they update in place. Each
    handler is proved to take the step that module Protocol specifies for it. */
module LinkNode {
  import opened LinkTime
  import opened ClientSession
  import opened Protocol
  import opened Vectors

  // ---- Sorted vectors ----

  datatype Peer = Peer(key: PeerKey, info: PeerInfo)

  predicate KeyLess(a: PeerKey, b: PeerKey) {
    a.id < b.id || (a.id == b.id && a.addr < b.addr)
  }

  ghost predicate SortedPeers(ps: seq<Peer>) {
    forall i, j :: 0 <= i < j < |ps| ==> KeyLess(ps[i].key, ps[j].key)
  }

  /** The vector is strictly sorted by (id, address) and holds exactly the entries of the table. */
  ghost predicate Lists(ps: seq<Peer>, table: PeerTable) {
    && SortedPeers(ps)
    && (forall i :: 0 <= i < |ps| ==> ps[i].key in table && table[ps[i].key] == ps[i].info)
    && (forall k :: k in table ==> exists i :: 0 <= i < |ps| && ps[i].key == k)
  }

  lemma InsertSorted(ps: seq<Peer>, at: nat, p: Peer, qs: seq<Peer>)
    requires SortedPeers(ps) && Inserted(ps, at, p, qs)
    requires forall i :: 0 <= i < at ==> KeyLess(ps[i].key, p.key)
    requires forall i :: at <= i < |ps| ==> KeyLess(p.key, ps[i].key)
    ensures SortedPeers(qs)
  {
  }

  lemma EraseSorted(ps: seq<Peer>, at: nat, qs: seq<Peer>)
    requires SortedPeers(ps) && Erased(ps, at, qs)
    ensures SortedPeers(qs)
    ensures forall i :: 0 <= i < |qs| ==> qs[i].key != ps[at].key
  {
    forall i | 0 <= i < |qs|
      ensures qs[i].key != ps[at].key
    {
      assert if i < at then KeyLess(ps[i].key, ps[at].key) else KeyLess(ps[at].key, ps[i + 1].key);
    }
  }

  lemma InsertedListed(ps: seq<Peer>, table: PeerTable, at: nat, p: Peer, qs: seq<Peer>, k: PeerKey)
    requires Lists(ps, table) && Inserted(ps, at, p, qs) && k in table
    ensures exists i :: 0 <= i < |qs| && qs[i].key == k
  {
    var i :| 0 <= i < |ps| && ps[i].key == k;
    assert qs[if i < at then i else i + 1].key == k;
  }

  lemma ListsInsert(ps: seq<Peer>, table: PeerTable, at: nat, p: Peer, qs: seq<Peer>)
    requires Lists(ps, table) && Inserted(ps, at, p, qs)
    requires forall i :: 0 <= i < at ==> KeyLess(ps[i].key, p.key)
    requires forall i :: at <= i < |ps| ==> KeyLess(p.key, ps[i].key)
    ensures Lists(qs, table[p.key := p.info])
  {
    InsertSorted(ps, at, p, qs);
    forall k | k == p.key || k in table
      ensures exists i :: 0 <= i < |qs| && qs[i].key == k
    {
      if k == p.key { assert qs[at].key == k; } else { InsertedListed(ps, table, at, p, qs, k); }
    }
  }

  lemma ListsReplace(ps: seq<Peer>, table: PeerTable, at: nat, p: Peer)
    requires Lists(ps, table) && at < |ps| && ps[at].key == p.key
    ensures Lists(ps[at := p], table[p.key := p.info])
  {
    var qs := ps[at := p];
    forall k | k in table
      ensures exists i :: 0 <= i < |qs| && qs[i].key == k
    {
      var i :| 0 <= i < |ps| && ps[i].key == k;
      assert qs[i].key == k;
    }
  }

  lemma ErasedListed(ps: seq<Peer>, table: PeerTable, at: nat, qs: seq<Peer>, k: PeerKey)
    requires Lists(ps, table) && Erased(ps, at, qs) && k in table && k != ps[at].key
    ensures exists i :: 0 <= i < |qs| && qs[i].key == k
  {
    var i :| 0 <= i < |ps| && ps[i].key == k;
    assert qs[if i < at then i else i - 1].key == k;
  }

  lemma ListsErase(ps: seq<Peer>, table: PeerTable, at: nat, qs: seq<Peer>)
    requires Lists(ps, table) && Erased(ps, at, qs)
    ensures Lists(qs, table - {ps[at].key})
  {
    EraseSorted(ps, at, qs);
    forall i | 0 <= i < |qs|
      ensures qs[i].key in table && table[qs[i].key] == qs[i].info
    {
      assert qs[i] == ps[if i < at then i else i + 1];
    }
    forall k | k in table && k != ps[at].key
      ensures exists i :: 0 <= i < |qs| && qs[i].key == k
    {
      ErasedListed(ps, table, at, qs, k);
    }
  }

  /** `copy_if` and `remove_if` */
  function Keep(ps: seq<Peer>, p: Peer -> bool): (r: seq<Peer>)
    ensures forall i :: 0 <= i < |r| ==> r[i] in ps && p(r[i])
    ensures forall i :: 0 <= i < |ps| && p(ps[i]) ==> ps[i] in r
  {
    if ps == [] then []
    else
      assert ps == [ps[0]] + ps[1..];
      (if p(ps[0]) then [ps[0]] else []) + Keep(ps[1..], p)
  }

  lemma {:induction false} KeepSorted(ps: seq<Peer>, p: Peer -> bool)
    requires SortedPeers(ps)
    ensures SortedPeers(Keep(ps, p))
  {
    if ps != [] {
      var rest := Keep(ps[1..], p);
      KeepSorted(ps[1..], p);
      forall j | 0 <= j < |rest|
        ensures KeyLess(ps[0].key, rest[j].key)
      {
        assert rest[j] in ps[1..];
        var i :| 1 <= i < |ps| && ps[i] == rest[j];
      }
      ConsSorted(ps[0], rest);
      assert [] + rest == rest;
    }
  }

  lemma ConsSorted(p: Peer, ps: seq<Peer>)
    requires SortedPeers(ps) && forall j :: 0 <= j < |ps| ==> KeyLess(p.key, ps[j].key)
    ensures SortedPeers([p] + ps)
  {
    var qs := [p] + ps;
    forall i, j | 0 <= i < j < |qs|
      ensures KeyLess(qs[i].key, qs[j].key)
    {
      assert qs[j] == ps[j - 1] && (i > 0 ==> qs[i] == ps[i - 1]);
    }
  }

  lemma KeepLists(ps: seq<Peer>, table: PeerTable, p: Peer -> bool, kept: PeerTable)
    requires Lists(ps, table)
    requires kept == map k | k in table && p(Peer(k, table[k])) :: table[k]
    ensures Lists(Keep(ps, p), kept)
  {
    KeepSorted(ps, p);
    var r := Keep(ps, p);
    forall k | k in kept
      ensures exists i :: 0 <= i < |r| && r[i].key == k
    {
      var i :| 0 <= i < |ps| && ps[i].key == k;
      assert ps[i] == Peer(k, table[k]) && ps[i] in r;
    }
  }

  ghost function IdsOf(ps: seq<Peer>): set<NodeId> {
    set p | p in ps :: p.key.id
  }

  lemma IdsOfSnoc(ps: seq<Peer>, p: Peer)
    ensures IdsOf(ps + [p]) == IdsOf(ps) + {p.key.id}
  {
    forall id | id in IdsOf(ps) + {p.key.id}
      ensures id in IdsOf(ps + [p])
    {
      if id == p.key.id {
        assert p in ps + [p];
      } else {
        var q :| q in ps && q.key.id == id;
        assert q in ps + [p];
      }
    }
  }

  /** In a sorted vector equal ids are adjacent. */
  lemma SeenBefore(before: seq<Peer>, p: Peer)
    requires SortedPeers(before) && forall j :: 0 <= j < |before| ==> KeyLess(before[j].key, p.key)
    ensures p.key.id in IdsOf(before) <==> before != [] && before[|before| - 1].key.id == p.key.id
  {
    if before != [] {
      var last := before[|before| - 1];
      assert last in before;
      if p.key.id in IdsOf(before) {
        var q :| q in before && q.key.id == p.key.id;
        var a :| 0 <= a < |before| && before[a] == q;
        assert a < |before| - 1 ==> KeyLess(q.key, last.key);
      }
    }
  }

  lemma CountsDistinct(before: seq<Peer>, p: Peer)
    requires SortedPeers(before) && forall j :: 0 <= j < |before| ==> KeyLess(before[j].key, p.key)
    ensures |IdsOf(before + [p])| ==
            |IdsOf(before)| + if before == [] || before[|before| - 1].key.id != p.key.id then 1 else 0
  {
    SeenBefore(before, p);
    IdsOfSnoc(before, p);
    AddOne(IdsOf(before), p.key.id);
  }

  lemma AddOne<T>(s: set<T>, x: T)
    ensures |s + {x}| == |s| + if x in s then 0 else 1
  {
    if x in s { assert s + {x} == s; }
  }

  lemma IdsOfMembers(ps: seq<Peer>, table: PeerTable, sid: NodeId)
    requires Lists(ps, map k | k in table && table[k].session == sid :: table[k])
    ensures IdsOf(ps) == Members(table, sid)
    ensures ps == [] <==> Members(table, sid) == {}
  {
    var only := map k | k in table && table[k].session == sid :: table[k];
    forall id | id in Members(table, sid)
      ensures id in IdsOf(ps)
    {
      var k :| k in table && table[k].session == sid && k.id == id;
      assert k in only;
      var i :| 0 <= i < |ps| && ps[i].key == k;
      assert ps[i] in ps;
    }
    forall id | id in IdsOf(ps)
      ensures id in Members(table, sid)
    {
      var p :| p in ps && p.key.id == id;
      var i :| 0 <= i < |ps| && ps[i] == p;
      assert ps[i].key in only;
    }
    if ps != [] {
      assert ps[0] in ps && ps[0].key.id in IdsOf(ps);
    }
  }

  /** Rewriting the timelines of one session in place. */
  lemma ListsRetimed(ps: seq<Peer>, qs: seq<Peer>, table: PeerTable, sid: NodeId, tl: Timeline)
    requires Lists(ps, table) && |qs| == |ps|
    requires forall i :: 0 <= i < |ps| ==>
               qs[i] == if ps[i].info.session == sid then Peer(ps[i].key, PeerInfo(sid, tl)) else ps[i]
    ensures Lists(qs, WithTimeline(table, sid, tl))
  {
    var retimed := WithTimeline(table, sid, tl);
    assert forall i :: 0 <= i < |ps| ==> qs[i].key == ps[i].key;
    assert SortedPeers(qs);
    forall i | 0 <= i < |qs|
      ensures qs[i].key in retimed && retimed[qs[i].key] == qs[i].info
    {
      assert ps[i].key in table && table[ps[i].key] == ps[i].info;
    }
    forall k | k in retimed
      ensures exists i :: 0 <= i < |qs| && qs[i].key == k
    {
      var i :| 0 <= i < |ps| && ps[i].key == k;
      assert qs[i].key == k;
    }
  }

  class Peers {
    var mPeers: seq<Peer>
    ghost var table: PeerTable

    ghost predicate Valid()
      reads this
    {
      Lists(mPeers, table)
    }

    constructor ()
      ensures Valid() && table == map[]
    {
      mPeers, table := [], map[];
    }

    method SessionPeers(sid: NodeId) returns (r: seq<Peer>)
      requires Valid()
      ensures Lists(r, map k | k in table && table[k].session == sid :: table[k])
    {
      var isMember := (p: Peer) => p.info.session == sid;
      r := Keep(mPeers, isMember);
      KeepLists(mPeers, table, isMember, map k | k in table && table[k].session == sid :: table[k]);
    }

    /** Counts each peer once however many gateways show it: equal ids are adjacent. */
    method UniqueSessionPeerCount(sid: NodeId) returns (count: nat)
      requires Valid()
      ensures count == |Members(table, sid)|
    {
      var peerVec := SessionPeers(sid);
      count := 0;
      for i := 0 to |peerVec|
        invariant count == |IdsOf(peerVec[..i])|
      {
        CountsDistinct(peerVec[..i], peerVec[i]);
        assert peerVec[..i + 1] == peerVec[..i] + [peerVec[i]];
        if i == 0 || peerVec[i - 1].key.id != peerVec[i].key.id {
          count := count + 1;
        }
      }
      assert peerVec[..|peerVec|] == peerVec;
      IdsOfMembers(peerVec, table, sid);
    }

    method SetSessionTimeline(sid: NodeId, tl: Timeline)
      requires Valid()
      modifies this
      ensures Valid() && table == WithTimeline(old(table), sid, tl)
    {
      ghost var before := mPeers;
      for i := 0 to |mPeers|
        invariant |mPeers| == |before| && table == old(table)
        invariant forall j :: i <= j < |before| ==> mPeers[j] == before[j]
        invariant forall j :: 0 <= j < i ==>
          mPeers[j] == if before[j].info.session == sid then Peer(before[j].key, PeerInfo(sid, tl)) else before[j]
      {
        if mPeers[i].info.session == sid {
          mPeers := mPeers[i := mPeers[i].(info := mPeers[i].info.(timeline := tl))];
        }
      }
      ListsRetimed(before, mPeers, table, sid, tl);
      table := WithTimeline(table, sid, tl);
    }

    method ForgetSession(sid: NodeId)
      requires Valid()
      modifies this
      ensures Valid() && table == WithoutSession(old(table), sid)
    {
      var staysKnown := (p: Peer) => p.info.session != sid;
      KeepLists(mPeers, table, staysKnown, WithoutSession(table, sid));
      mPeers := Keep(mPeers, staysKnown);
      table := WithoutSession(table, sid);
    }

    method ResetPeers()
      modifies this
      ensures Valid() && table == map[]
    {
      mPeers, table := [], map[];
    }

    /** `equal_range` with the id comparison */
    method IdRange(id: NodeId) returns (first: nat, last: nat)
      requires Valid()
      ensures first <= last <= |mPeers|
      ensures forall i :: 0 <= i < first ==> mPeers[i].key.id < id
      ensures forall i :: first <= i < last ==> mPeers[i].key.id == id
      ensures forall i :: last <= i < |mPeers| ==> id < mPeers[i].key.id
    {
      first := 0;
      while first < |mPeers| && mPeers[first].key.id < id
        invariant first <= |mPeers|
        invariant forall i :: 0 <= i < first ==> mPeers[i].key.id < id
      {
        first := first + 1;
      }
      last := first;
      while last < |mPeers| && mPeers[last].key.id == id
        invariant first <= last <= |mPeers|
        invariant forall i :: first <= i < last ==> mPeers[i].key.id == id
      {
        last := last + 1;
      }
    }

    /** Inserts the entry at its place among the entries of its id, or overwrites the old one. */
    method Store(p: Peer, first: nat, last: nat)
      requires Valid() && first <= last <= |mPeers|
      requires forall i :: 0 <= i < first ==> mPeers[i].key.id < p.key.id
      requires forall i :: first <= i < last ==> mPeers[i].key.id == p.key.id
      requires forall i :: last <= i < |mPeers| ==> p.key.id < mPeers[i].key.id
      modifies this
      ensures Valid() && table == old(table)[p.key := p.info]
    {
      var at := first;
      while at < last && mPeers[at].key.addr < p.key.addr
        invariant first <= at <= last
        invariant forall i :: first <= i < at ==> mPeers[i].key.addr < p.key.addr
      {
        at := at + 1;
      }
      if at < last && mPeers[at].key.addr == p.key.addr {
        ListsReplace(mPeers, table, at, p);
        mPeers := mPeers[at := p];
      } else {
        assert at < last ==> forall i :: at < i < last ==> KeyLess(mPeers[at].key, mPeers[i].key);
        ListsInsert(mPeers, table, at, p, InsertAt(mPeers, at, p));
        mPeers := InsertAt(mPeers, at, p);
      }
      table := table[p.key := p.info];
    }

    method SawPeerOnGateway(p: Peer, env: Env, controller: Controller)
      requires controller.Valid() && controller.mPeers == this && controller.mGhostXForm.slope != 0.0
      modifies this, controller, controller.mSessions
      ensures controller.Valid()
      ensures controller.World() == SawPeer(old(controller.World()), p.key, p.info, env)
    {
      ghost var before := controller.World();
      var isNewSessionTimeline := !(exists i | 0 <= i < |mPeers| :: mPeers[i].info == p.info);
      assert isNewSessionTimeline <==> !TimelineCached(table, p.info);
      var first, last := IdRange(p.key.id);
      var didMembershipChange := forall i | first <= i < last :: mPeers[i].info.session != p.info.session;
      assert didMembershipChange <==> p.key.id !in Members(table, p.info.session);

      Store(p, first, last);
      assert controller.World() == before.(peers := before.peers[p.key := p.info]);
      if isNewSessionTimeline {
        controller.HandleTimelineFromSession(p.info.session, p.info.timeline, env);
      }
      if didMembershipChange {
        controller.CountSessionPeers(env);
      }
    }

    method PeerLeftGateway(key: PeerKey, env: Env, controller: Controller)
      requires controller.Valid() && controller.mPeers == this
      modifies this, controller, controller.mSessions
      ensures controller.Valid()
      ensures controller.World() == PeerLeft(old(controller.World()), key, env)
    {
      var it := 0;
      while it < |mPeers| && mPeers[it].key != key
        invariant it <= |mPeers|
        invariant forall i :: 0 <= i < it ==> mPeers[i].key != key
      {
        it := it + 1;
      }
      if it < |mPeers| {
        ListsErase(mPeers, table, it, EraseAt(mPeers, it));
        mPeers := EraseAt(mPeers, it);
        table := table - {key};
        controller.CountSessionPeers(env);
      }
    }

    method CloseGateway(addr: Address, env: Env, controller: Controller)
      requires controller.Valid() && controller.mPeers == this
      modifies this, controller, controller.mSessions
      ensures controller.Valid()
      ensures controller.World() == GatewayClosed(old(controller.World()), addr, env)
    {
      var staysVisible := (p: Peer) => p.key.addr != addr;
      KeepLists(mPeers, table, staysVisible, WithoutGateway(table, addr));
      mPeers := Keep(mPeers, staysVisible);
      table := WithoutGateway(table, addr);
      controller.CountSessionPeers(env);
    }
  }

  /** `SessionIdComp` */
  predicate IdLess(a: Session, b: Session) {
    a.id < b.id
  }

  ghost predicate SortedSessions(ss: seq<Session>) {
    forall i, j :: 0 <= i < j < |ss| ==> IdLess(ss[i], ss[j])
  }

  /** The vector is strictly sorted by id and holds exactly the sessions of the table. */
  ghost predicate ListsSessions(ss: seq<Session>, table: map<NodeId, Session>) {
    && SortedSessions(ss)
    && (forall i :: 0 <= i < |ss| ==> ss[i].id in table && table[ss[i].id] == ss[i])
    && (forall id :: id in table ==> exists i :: 0 <= i < |ss| && ss[i].id == id)
  }

  lemma InsertSortedSession(ss: seq<Session>, at: nat, s: Session, ts: seq<Session>)
    requires SortedSessions(ss) && Inserted(ss, at, s, ts)
    requires forall i :: 0 <= i < at ==> IdLess(ss[i], s)
    requires forall i :: at <= i < |ss| ==> IdLess(s, ss[i])
    ensures SortedSessions(ts)
  {
  }

  lemma EraseSortedSession(ss: seq<Session>, at: nat, ts: seq<Session>)
    requires SortedSessions(ss) && Erased(ss, at, ts)
    ensures SortedSessions(ts)
    ensures forall i :: 0 <= i < |ts| ==> ts[i].id != ss[at].id
  {
    forall i | 0 <= i < |ts|
      ensures ts[i].id != ss[at].id
    {
      assert if i < at then IdLess(ss[i], ss[at]) else IdLess(ss[at], ss[i + 1]);
    }
  }

  lemma InsertedSessionListed(ss: seq<Session>, table: map<NodeId, Session>, at: nat, s: Session, ts: seq<Session>,
      id: NodeId)
    requires ListsSessions(ss, table) && Inserted(ss, at, s, ts) && id in table
    ensures exists i :: 0 <= i < |ts| && ts[i].id == id
  {
    var i :| 0 <= i < |ss| && ss[i].id == id;
    assert ts[if i < at then i else i + 1].id == id;
  }

  lemma SessionsInsert(ss: seq<Session>, table: map<NodeId, Session>, at: nat, s: Session, ts: seq<Session>)
    requires ListsSessions(ss, table) && Inserted(ss, at, s, ts)
    requires forall i :: 0 <= i < at ==> IdLess(ss[i], s)
    requires forall i :: at <= i < |ss| ==> IdLess(s, ss[i])
    ensures ListsSessions(ts, table[s.id := s])
  {
    InsertSortedSession(ss, at, s, ts);
    forall id | id == s.id || id in table
      ensures exists i :: 0 <= i < |ts| && ts[i].id == id
    {
      if id == s.id { assert ts[at].id == id; } else { InsertedSessionListed(ss, table, at, s, ts, id); }
    }
  }

  lemma SessionsReplace(ss: seq<Session>, table: map<NodeId, Session>, at: nat, s: Session)
    requires ListsSessions(ss, table) && at < |ss| && ss[at].id == s.id
    ensures ListsSessions(ss[at := s], table[s.id := s])
  {
    var ts := ss[at := s];
    forall id | id in table
      ensures exists i :: 0 <= i < |ts| && ts[i].id == id
    {
      var i :| 0 <= i < |ss| && ss[i].id == id;
      assert ts[i].id == id;
    }
  }

  lemma ErasedSessionListed(ss: seq<Session>, table: map<NodeId, Session>, at: nat, ts: seq<Session>, id: NodeId)
    requires ListsSessions(ss, table) && Erased(ss, at, ts) && id in table && id != ss[at].id
    ensures exists i :: 0 <= i < |ts| && ts[i].id == id
  {
    var i :| 0 <= i < |ss| && ss[i].id == id;
    assert ts[if i < at then i else i - 1].id == id;
  }

  lemma SessionsErase(ss: seq<Session>, table: map<NodeId, Session>, at: nat, ts: seq<Session>)
    requires ListsSessions(ss, table) && Erased(ss, at, ts)
    ensures ListsSessions(ts, table - {ss[at].id})
  {
    EraseSortedSession(ss, at, ts);
    forall i | 0 <= i < |ts|
      ensures ts[i].id in table && table[ts[i].id] == ts[i]
    {
      assert ts[i] == ss[if i < at then i else i + 1];
    }
    forall id | id in table && id != ss[at].id
      ensures exists i :: 0 <= i < |ts| && ts[i].id == id
    {
      ErasedSessionListed(ss, table, at, ts, id);
    }
  }

  class Sessions {
    var mCurrent: Session
    var mOtherSessions: seq<Session>
    ghost var table: map<NodeId, Session>
    ghost var pending: multiset<NodeId>

    ghost predicate Valid()
      reads this
    {
      ListsSessions(mOtherSessions, table)
    }

    constructor (init: Session)
      ensures Valid() && mCurrent == init && table == map[] && pending == multiset{}
    {
      mCurrent, mOtherSessions, table, pending := init, [], map[], multiset{};
    }

    method ResetSession(session: Session)
      modifies `mCurrent, `mOtherSessions, `table
      ensures Valid() && mCurrent == session && table == map[]
    {
      mCurrent, mOtherSessions, table := session, [], map[];
    }

    method ResetTimeline(tl: Timeline)
      modifies `mCurrent
      ensures mCurrent == old(mCurrent).(timeline := tl)
    {
      mCurrent := mCurrent.(timeline := tl);
    }

    /** Where a session with this id is, or would be inserted. */
    method Find(id: NodeId) returns (at: nat, found: bool)
      requires Valid()
      ensures at <= |mOtherSessions| && (found <==> id in table)
      ensures found ==> at < |mOtherSessions| && mOtherSessions[at].id == id && mOtherSessions[at] == table[id]
      ensures forall i :: 0 <= i < at ==> mOtherSessions[i].id < id
      ensures !found ==> forall i :: at <= i < |mOtherSessions| ==> id < mOtherSessions[i].id
    {
      at := 0;
      while at < |mOtherSessions| && mOtherSessions[at].id < id
        invariant at <= |mOtherSessions|
        invariant forall i :: 0 <= i < at ==> mOtherSessions[i].id < id
      {
        at := at + 1;
      }
      found := at < |mOtherSessions| && mOtherSessions[at].id == id;
    }

    /** Measures the founding peer of the session if it is visible, else its first peer. */
    method LaunchSessionMeasurement(session: Session, peers: Peers) returns (launched: Session)
      requires peers.Valid()
      modifies `pending
      ensures Members(peers.table, session.id) == {} ==> launched == session && pending == old(pending)
      ensures Members(peers.table, session.id) != {} ==>
                launched == session.(timestamp := 0) && pending == old(pending) + multiset{session.id}
    {
      launched := session;
      var candidates := peers.SessionPeers(session.id);
      IdsOfMembers(candidates, peers.table, session.id);
      if candidates != [] {
        var peer := ChoosePeer(session.id, candidates);
        launched := session.(timestamp := 0);
        pending := pending + multiset{session.id};
      }
    }

    static method ChoosePeer(sid: NodeId, candidates: seq<Peer>) returns (peer: Peer)
      requires candidates != []
      ensures peer in candidates
      ensures (exists p :: p in candidates && p.key.id == sid) ==> peer.key.id == sid
      ensures (forall p :: p in candidates ==> p.key.id != sid) ==> peer == candidates[0]
    {
      for i := 0 to |candidates|
        invariant forall j :: 0 <= j < i ==> candidates[j].key.id != sid
      {
        if candidates[i].key.id == sid {
          return candidates[i];
        }
      }
      peer := candidates[0];
    }

    method SawSessionTimeline(sid: NodeId, tl: Timeline, controller: Controller)
      requires controller.Valid() && controller.mSessions == this
      modifies this
      ensures controller.Valid()
      ensures controller.World() == SawSession(old(controller.World()), sid, tl)
    {
      if sid == mCurrent.id {
        mCurrent := Prefer(mCurrent, tl);
      } else {
        var at, found := Find(sid);
        if !found {
          var session := LaunchSessionMeasurement(Session(sid, tl, NO_XFORM, 0), controller.mPeers);
          SessionsInsert(mOtherSessions, table, at, session, InsertAt(mOtherSessions, at, session));
          mOtherSessions := InsertAt(mOtherSessions, at, session);
          table := table[sid := session];
        } else {
          var updated := Prefer(mOtherSessions[at], tl);
          SessionsReplace(mOtherSessions, table, at, updated);
          mOtherSessions := mOtherSessions[at := updated];
          table := table[sid := updated];
        }
      }
    }

    method HandleSuccessfulMeasurement(id: NodeId, xform: GhostXForm, env: Env, controller: Controller)
      requires controller.Valid() && controller.mSessions == this && xform.slope != 0.0
      modifies this, controller, controller.mPeers
      ensures controller.Valid()
      ensures controller.World() == MeasurementSucceeded(old(controller.World()), id, xform, env)
    {
      pending := pending - multiset{id};
      if mCurrent.id == id {
        mCurrent := mCurrent.(xform := xform, timestamp := env.measured);
        controller.JoinSession(mCurrent, env);
      } else {
        MeasuredOther(id, xform, env, controller);
      }
    }

    /** Another session has been measured: join it if it wins. */
    method MeasuredOther(id: NodeId, xform: GhostXForm, env: Env, controller: Controller)
      requires controller.Valid() && controller.mSessions == this && xform.slope != 0.0
      requires id != mCurrent.id
      modifies this, controller, controller.mPeers
      ensures controller.Valid()
      ensures var w := old(controller.World());
              var measured :=
                if id in w.others then w.others[id].(xform := xform, timestamp := env.measured) else w.current;
              controller.World() ==
                if id !in w.others then w
                else if Wins(id, xform, w.current, env.compared) then
                  Protocol.JoinSession(Switched(w, measured), measured, env)
                else w.(others := w.others[id := measured])
    {
      ghost var w := controller.World();
      var at, found := Find(id);
      if found {
        var measured := mOtherSessions[at].(xform := xform, timestamp := env.measured);
        StoreMeasurement(at, measured);
        if Wins(id, xform, mCurrent, env.compared) {
          SwitchTo(at);
          assert w.others[id := measured] - {id} == w.others - {id};
          assert controller.World() == Switched(w, measured);
          controller.JoinSession(mCurrent, env);
        }
      }
    }

    method StoreMeasurement(at: nat, measured: Session)
      requires Valid() && at < |mOtherSessions| && mOtherSessions[at].id == measured.id
      modifies `mOtherSessions, `table
      ensures Valid() && table == old(table)[measured.id := measured]
      ensures |mOtherSessions| == |old(mOtherSessions)| && mOtherSessions[at] == measured
    {
      SessionsReplace(mOtherSessions, table, at, measured);
      mOtherSessions := mOtherSessions[at := measured];
      table := table[measured.id := measured];
    }

    /** Makes the session at `at` current and puts the old current session back in its place. */
    method SwitchTo(at: nat)
      requires Valid() && at < |mOtherSessions| && mCurrent.id !in table
      modifies `mCurrent, `mOtherSessions, `table
      ensures Valid() && mCurrent == old(mOtherSessions[at])
      ensures table == (old(table) - {mCurrent.id})[old(mCurrent).id := old(mCurrent)]
    {
      var current := mCurrent;
      mCurrent := mOtherSessions[at];
      SessionsErase(mOtherSessions, table, at, EraseAt(mOtherSessions, at));
      mOtherSessions := EraseAt(mOtherSessions, at);
      table := table - {mCurrent.id};
      var it, _ := Find(current.id);
      SessionsInsert(mOtherSessions, table, it, current, InsertAt(mOtherSessions, it, current));
      mOtherSessions := InsertAt(mOtherSessions, it, current);
      table := table[current.id := current];
    }

    method HandleFailedMeasurement(id: NodeId, controller: Controller)
      requires controller.Valid() && controller.mSessions == this
      modifies this, controller.mPeers
      ensures controller.Valid()
      ensures controller.World() == MeasurementFailed(old(controller.World()), id)
    {
      pending := pending - multiset{id};
      if mCurrent.id != id {
        var at, found := Find(id);
        if found {
          SessionsErase(mOtherSessions, table, at, EraseAt(mOtherSessions, at));
          mOtherSessions := EraseAt(mOtherSessions, at);
          table := table - {id};
          controller.mPeers.ForgetSession(id);
        }
      }
    }

    method RemeasureCurrent(controller: Controller)
      requires controller.Valid() && controller.mSessions == this
      modifies this
      ensures controller.Valid()
      ensures controller.World() == Remeasure(old(controller.World()))
    {
      mCurrent := LaunchSessionMeasurement(mCurrent, controller.mPeers);
    }
  }

  class Controller {
    var mSessionId: NodeId
    var mSessionTimeline: Timeline
    var mGhostXForm: GhostXForm
    var mClientTimeline: Timeline
    var mSessionPeerCount: nat
    const mPeers: Peers
    const mSessions: Sessions
    ghost var resets: nat

    ghost predicate Valid()
      reads this, mPeers, mSessions
    {
      mPeers.Valid() && mSessions.Valid() && mSessions.mCurrent.id !in mSessions.table
    }

    /** The state of the node as module Protocol sees it. */
    ghost function World(): World
      reads this, mPeers, mSessions
    {
      Protocol.World(mSessionId, mSessionTimeline, mGhostXForm, mClientTimeline, mSessionPeerCount,
        mPeers.table, mSessions.mCurrent, mSessions.table, mSessions.pending, resets)
    }

    constructor (id: NodeId, tempo: TempoValue, now: int, timestamp: int)
      ensures Valid() && World() == Init(id, tempo, now, timestamp)
      ensures fresh(mPeers) && fresh(mSessions)
    {
      var xform := GhostXForm(1.0, -now);
      var tl := ClampTempo(tempo, 0, 0);
      mSessionId, mSessionTimeline, mGhostXForm := id, tl, xform;
      mClientTimeline := Timeline(tl.tempo, 0, xform.GhostToHost(0));
      mSessionPeerCount, resets := 0, 0;
      mPeers := new Peers();
      mSessions := new Sessions(Session(id, tl, xform, timestamp));
    }

    method UpdateSessionTiming(tl: Timeline, xform: GhostXForm, now: int)
      requires xform.slope != 0.0
      modifies `mSessionTimeline, `mGhostXForm, `mClientTimeline
      ensures World() == UpdateTiming(old(World()), tl, xform, now)
    {
      if mSessionTimeline != tl || mGhostXForm != xform {
        mSessionTimeline := tl;
        mGhostXForm := xform;
        mClientTimeline := UpdateClient(mClientTimeline, mSessionTimeline, now, mGhostXForm);
      }
    }

    method HandleTimelineFromSession(sid: NodeId, tl: Timeline, env: Env)
      requires Valid() && mGhostXForm.slope != 0.0
      modifies this, mSessions
      ensures Valid() && World() == TimelineFromSession(old(World()), sid, tl, env)
    {
      mSessions.SawSessionTimeline(sid, tl, this);
      UpdateSessionTiming(mSessions.mCurrent.timeline, mGhostXForm, env.adopted);
    }

    method HandleTimelineFromClient(tl: Timeline, env: Env)
      requires Valid() && mGhostXForm.slope != 0.0
      modifies this, mSessions, mPeers
      ensures Valid() && World() == TimelineFromClient(old(World()), tl, env)
    {
      mSessions.ResetTimeline(tl);
      mPeers.SetSessionTimeline(mSessionId, tl);
      UpdateSessionTiming(tl, mGhostXForm, env.adopted);
    }

    /** The part of `setTimeline` that runs in the io thread. */
    method CommitClientTimeline(tl: Timeline, atTime: int, env: Env)
      requires Valid() && mGhostXForm.slope != 0.0
      modifies this, mSessions, mPeers
      ensures Valid() && World() == ClientCommit(old(World()), tl, atTime, env)
    {
      HandleTimelineFromClient(UpdateSession(mSessionTimeline, tl, atTime, mGhostXForm), env);
    }

    method HandleRtTimeline(tl: Timeline, atTime: int, env: Env)
      requires Valid() && mGhostXForm.slope != 0.0
      modifies this, mSessions, mPeers
      ensures Valid() && World() == ClientCommit(old(World()).(client := tl), tl, atTime, env)
    {
      mClientTimeline := tl;
      HandleTimelineFromClient(UpdateSession(mSessionTimeline, tl, atTime, mGhostXForm), env);
    }

    method JoinSession(session: Session, env: Env)
      requires Valid() && session.xform.slope != 0.0
      modifies this, mSessions, mPeers
      ensures Valid() && World() == Protocol.JoinSession(old(World()), session, env)
    {
      var sessionIdChanged := mSessionId != session.id;
      mSessionId := session.id;
      UpdateSessionTiming(session.timeline, session.xform, env.adopted);
      if sessionIdChanged {
        CountSessionPeers(env);
      }
    }

    method ResetState(env: Env)
      modifies this, mSessions, mPeers
      ensures Valid() && World() == Protocol.ResetState(old(World()), env)
    {
      mSessionId := env.freshId;
      var xform := GhostXForm(1.0, -env.resetInit);
      var hostTime := -xform.intercept;
      var newTl := Timeline(mSessionTimeline.tempo,
        mSessionTimeline.ToBeats(mGhostXForm.HostToGhost(hostTime)), xform.HostToGhost(hostTime));
      UpdateSessionTiming(newTl, xform, env.resetAdopted);
      mSessions.ResetSession(Session(env.freshId, newTl, xform, hostTime));
      mPeers.ResetPeers();
      resets := resets + 1;
    }

    /** `SessionPeerCounter` */
    method CountSessionPeers(env: Env)
      requires Valid()
      modifies this, mSessions, mPeers
      ensures Valid() && World() == CountPeers(old(World()), env)
    {
      var count := mPeers.UniqueSessionPeerCount(mSessionId);
      var oldCount := mSessionPeerCount;
      mSessionPeerCount := count;
      if oldCount != count && count == 0 {
        ResetState(env);
      }
    }
  }
}
