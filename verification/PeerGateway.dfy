/** The list of visible peers on one gateway, ordered by the time at which they expire. */
module PeerGateway {
  import opened Vectors

  /** Clock ticks are microseconds. */
  const SECOND := 1000000

  datatype PeerTimeout = PeerTimeout(deadline: int, id: nat)

  /** What the gateway tells its observer. */
  datatype Report = Saw(id: nat) | Left(id: nat) | TimedOut(id: nat)

  datatype PruneTimer = Idle | Armed(at: int)

  // ---- The list ----

  ghost predicate SortedByDeadline(ts: seq<PeerTimeout>) {
    forall i, j :: 0 <= i < j < |ts| ==> ts[i].deadline <= ts[j].deadline
  }

  ghost predicate UniqueIds(ts: seq<PeerTimeout>) {
    forall i, j :: 0 <= i < j < |ts| ==> ts[i].id != ts[j].id
  }

  ghost predicate Has(ts: seq<PeerTimeout>, id: nat) {
    exists i :: 0 <= i < |ts| && ts[i].id == id
  }

  /** The peers whose deadline has passed, in list order. */
  function Expired(ts: seq<PeerTimeout>, now: int): seq<PeerTimeout> {
    if ts == [] then []
    else (if ts[0].deadline < now then [ts[0]] else []) + Expired(ts[1..], now)
  }

  function Remaining(ts: seq<PeerTimeout>, now: int): seq<PeerTimeout> {
    if ts == [] then []
    else (if ts[0].deadline < now then [] else [ts[0]]) + Remaining(ts[1..], now)
  }

  function TimeOuts(ts: seq<PeerTimeout>): seq<Report> {
    if ts == [] then [] else [TimedOut(ts[0].id)] + TimeOuts(ts[1..])
  }

  lemma ConsSlices(t: PeerTimeout, rest: seq<PeerTimeout>, k: nat)
    requires k <= |rest|
    ensures ([t] + rest)[..k + 1] == [t] + rest[..k] && ([t] + rest)[k + 1..] == [] + rest[k..]
  {
  }

  lemma {:induction false} NoneExpired(ts: seq<PeerTimeout>, now: int)
    requires forall t :: t in ts ==> t.deadline >= now
    ensures Expired(ts, now) == [] && Remaining(ts, now) == ts
  {
    if ts != [] {
      NoneExpired(ts[1..], now);
      assert ts == [ts[0]] + ts[1..];
    }
  }

  /** In a sorted list the expired peers are the ones before the first live one. */
  lemma {:induction false} ExpiredIsPrefix(ts: seq<PeerTimeout>, now: int, k: nat)
    requires k <= |ts|
    requires forall i :: 0 <= i < k ==> ts[i].deadline < now
    requires forall i :: k <= i < |ts| ==> ts[i].deadline >= now
    ensures Expired(ts, now) == ts[..k] && Remaining(ts, now) == ts[k..]
  {
    if k == 0 {
      NoneExpired(ts, now);
    } else {
      var rest := ts[1..];
      assert forall i :: 0 <= i < |rest| ==> rest[i] == ts[i + 1];
      ExpiredIsPrefix(rest, now, k - 1);
      ConsSlices(ts[0], rest, k - 1);
      assert ts == [ts[0]] + rest;
    }
  }

  lemma {:induction false} TimeOutsSnoc(ts: seq<PeerTimeout>, t: PeerTimeout)
    ensures TimeOuts(ts + [t]) == TimeOuts(ts) + [TimedOut(t.id)]
  {
    if ts == [] {
      assert ts + [t] == [t] && [t][1..] == [];
    } else {
      TimeOutsSnoc(ts[1..], t);
      assert (ts + [t])[1..] == ts[1..] + [t];
      assert TimeOuts(ts + [t]) == [TimedOut(ts[0].id)] + (TimeOuts(ts[1..]) + [TimedOut(t.id)]);
    }
  }

  // ---- The reports ----

  /** Whether the observer has been told of the peer and not yet of its departure. */
  function Visible(reports: seq<Report>, id: nat): bool {
    if reports == [] then false
    else
      var last := reports[|reports| - 1];
      if last.id == id then last.Saw? else Visible(reports[..|reports| - 1], id)
  }

  /** A departure is reported only for a peer that is visible at that moment: at most once for each
      time it was seen. */
  ghost predicate Consistent(reports: seq<Report>) {
    forall i :: 0 <= i < |reports| && !reports[i].Saw? ==> Visible(reports[..i], reports[i].id)
  }

  lemma ReportAppended(reports: seq<Report>, r: Report)
    requires Consistent(reports) && (r.Saw? || Visible(reports, r.id))
    ensures Consistent(reports + [r])
    ensures forall id :: Visible(reports + [r], id) == if id == r.id then r.Saw? else Visible(reports, id)
  {
    var all := reports + [r];
    assert all[..|reports|] == reports;
    forall i | 0 <= i < |all| && !all[i].Saw?
      ensures Visible(all[..i], all[i].id)
    {
      if i < |reports| { assert all[..i] == reports[..i]; }
    }
  }

  ghost predicate Agrees(ts: seq<PeerTimeout>, reports: seq<Report>) {
    forall id :: Has(ts, id) <==> Visible(reports, id)
  }

  lemma EraseAgrees(ts: seq<PeerTimeout>, at: nat, rest: seq<PeerTimeout>)
    requires SortedByDeadline(ts) && UniqueIds(ts) && Erased(ts, at, rest)
    ensures SortedByDeadline(rest) && UniqueIds(rest)
    ensures forall id :: Has(rest, id) <==> Has(ts, id) && id != ts[at].id
  {
    forall id
      ensures Has(rest, id) <==> Has(ts, id) && id != ts[at].id
    {
      if Has(rest, id) {
        var i :| 0 <= i < |rest| && rest[i].id == id;
        assert ts[if i < at then i else i + 1].id == id;
      }
      if Has(ts, id) && id != ts[at].id {
        var i :| 0 <= i < |ts| && ts[i].id == id;
        assert rest[if i < at then i else i - 1].id == id;
      }
    }
  }

  lemma InsertAgrees(ts: seq<PeerTimeout>, at: nat, t: PeerTimeout, more: seq<PeerTimeout>)
    requires SortedByDeadline(ts) && UniqueIds(ts) && Inserted(ts, at, t, more) && !Has(ts, t.id)
    requires forall i :: 0 <= i < at ==> ts[i].deadline <= t.deadline
    requires forall i :: at <= i < |ts| ==> t.deadline < ts[i].deadline
    ensures SortedByDeadline(more) && UniqueIds(more)
    ensures forall id :: Has(more, id) <==> Has(ts, id) || id == t.id
  {
    forall i, j | 0 <= i < j < |more|
      ensures more[i].id != more[j].id && more[i].deadline <= more[j].deadline
    {
      if i != at && j != at {
        assert more[i] == ts[if i < at then i else i - 1] && more[j] == ts[if j < at then j else j - 1];
      }
    }
    forall id
      ensures Has(more, id) <==> Has(ts, id) || id == t.id
    {
      assert more[at].id == t.id;
      if Has(more, id) && id != t.id {
        var i :| 0 <= i < |more| && more[i].id == id;
        assert ts[if i < at then i else i - 1].id == id;
      }
      if Has(ts, id) {
        var i :| 0 <= i < |ts| && ts[i].id == id;
        assert more[if i < at then i else i + 1].id == id;
      }
    }
  }

  class PeerGateway {
    var mPeerTimeouts: seq<PeerTimeout>
    var mPruneTimer: PruneTimer
    ghost var reports: seq<Report>

    /** The list is sorted and free of duplicates, it holds exactly the peers the observer believes
        to be visible, and while it is not empty a timer will fire no later than a second after any
        deadline in it. */
    ghost predicate Valid()
      reads this
    {
      && SortedByDeadline(mPeerTimeouts) && UniqueIds(mPeerTimeouts)
      && Consistent(reports) && Agrees(mPeerTimeouts, reports)
      && TimerCovers(mPeerTimeouts)
    }

    ghost predicate TimerCovers(ts: seq<PeerTimeout>)
      reads this`mPruneTimer
    {
      forall i :: 0 <= i < |ts| ==> mPruneTimer.Armed? && mPruneTimer.at <= ts[i].deadline + 1000000
    }

    constructor ()
      ensures Valid() && mPeerTimeouts == [] && reports == []
    {
      mPeerTimeouts, mPruneTimer, reports := [], Idle, [];
    }

    method FindPeer(id: nat) returns (at: nat)
      ensures at <= |mPeerTimeouts|
      ensures forall i :: 0 <= i < at ==> mPeerTimeouts[i].id != id
      ensures at < |mPeerTimeouts| ==> mPeerTimeouts[at].id == id
    {
      at := 0;
      while at < |mPeerTimeouts| && mPeerTimeouts[at].id != id
        invariant at <= |mPeerTimeouts|
        invariant forall i :: 0 <= i < at ==> mPeerTimeouts[i].id != id
      {
        at := at + 1;
      }
    }

    /** An announced peer gets a new deadline and is reported. */
    method OnPeerState(id: nat, ttl: nat, now: int)
      requires Valid()
      modifies this
      ensures Valid()
      ensures reports == old(reports) + [Saw(id)]
      ensures PeerTimeout(now + ttl * 1000000, id) in mPeerTimeouts
      ensures forall t: PeerTimeout :: t.id != id ==> (t in mPeerTimeouts <==> t in old(mPeerTimeouts))
      ensures mPruneTimer == Armed(mPeerTimeouts[0].deadline + 1000000)
    {
      ghost var before := mPeerTimeouts;
      var existing := FindPeer(id);
      if existing < |mPeerTimeouts| {
        EraseAgrees(mPeerTimeouts, existing, EraseAt(mPeerTimeouts, existing));
        mPeerTimeouts := EraseAt(mPeerTimeouts, existing);
        EraseMembers(before, existing, mPeerTimeouts, id);
      }
      assert !Has(mPeerTimeouts, id);

      InsertTimeout(PeerTimeout(now + ttl * SECOND, id));
      ReportAppended(reports, Saw(id));
      reports := reports + [Saw(id)];
      ScheduleNextPruning();
    }

    /** Inserts a timeout behind all that are not later. */
    method InsertTimeout(newTo: PeerTimeout)
      requires SortedByDeadline(mPeerTimeouts) && UniqueIds(mPeerTimeouts) && !Has(mPeerTimeouts, newTo.id)
      modifies `mPeerTimeouts
      ensures SortedByDeadline(mPeerTimeouts) && UniqueIds(mPeerTimeouts)
      ensures forall id :: Has(mPeerTimeouts, id) <==> Has(old(mPeerTimeouts), id) || id == newTo.id
      ensures forall t: PeerTimeout :: t in mPeerTimeouts <==> t in old(mPeerTimeouts) || t == newTo
    {
      ghost var without := mPeerTimeouts;
      var at := 0;
      while at < |mPeerTimeouts| && mPeerTimeouts[at].deadline <= newTo.deadline
        invariant at <= |mPeerTimeouts|
        invariant forall i :: 0 <= i < at ==> mPeerTimeouts[i].deadline <= newTo.deadline
      {
        at := at + 1;
      }
      InsertAgrees(mPeerTimeouts, at, newTo, InsertAt(mPeerTimeouts, at, newTo));
      mPeerTimeouts := InsertAt(mPeerTimeouts, at, newTo);
      InsertMembers(without, at, newTo, mPeerTimeouts);
    }

    method OnByeBye(id: nat)
      requires Valid()
      modifies this
      ensures Valid()
      ensures reports == if Has(old(mPeerTimeouts), id) then old(reports) + [Left(id)] else old(reports)
      ensures forall t: PeerTimeout :: t in mPeerTimeouts <==> t in old(mPeerTimeouts) && t.id != id
    {
      ghost var before := mPeerTimeouts;
      var it := FindPeer(id);
      if it < |mPeerTimeouts| {
        assert Has(mPeerTimeouts, id);
        ReportAppended(reports, Left(id));
        reports := reports + [Left(id)];
        EraseAgrees(mPeerTimeouts, it, EraseAt(mPeerTimeouts, it));
        mPeerTimeouts := EraseAt(mPeerTimeouts, it);
        EraseMembers(before, it, mPeerTimeouts, id);
      } else {
        assert !Has(mPeerTimeouts, id);
      }
    }

    /** The timer fires: exactly the peers whose deadline lies before now are reported, once each and
        in order of their deadlines, and leave the list. */
    method PruneExpiredPeers(now: int)
      requires Valid()
      modifies this
      ensures Valid()
      ensures mPeerTimeouts == Remaining(old(mPeerTimeouts), now)
      ensures reports == old(reports) + TimeOuts(Expired(old(mPeerTimeouts), now))
      ensures mPeerTimeouts != [] ==> mPruneTimer == Armed(mPeerTimeouts[0].deadline + 1000000)
    {
      ghost var before := mPeerTimeouts;
      mPruneTimer := Idle;
      var endExpired := 0;
      while endExpired < |mPeerTimeouts| && mPeerTimeouts[endExpired].deadline < now
        invariant endExpired <= |before| && mPeerTimeouts == before && reports == old(reports)
        invariant forall i :: 0 <= i < endExpired ==> before[i].deadline < now
      {
        endExpired := endExpired + 1;
      }
      ReportTimedOut(endExpired);
      ExpiredIsPrefix(before, now, endExpired);
      mPeerTimeouts := mPeerTimeouts[endExpired..];
      ScheduleNextPruning();
    }

    method ReportTimedOut(endExpired: nat)
      requires endExpired <= |mPeerTimeouts| && UniqueIds(mPeerTimeouts)
      requires Consistent(reports) && Agrees(mPeerTimeouts, reports)
      modifies `reports
      ensures reports == old(reports) + TimeOuts(mPeerTimeouts[..endExpired])
      ensures Consistent(reports) && Agrees(mPeerTimeouts[endExpired..], reports)
    {
      ghost var ts := mPeerTimeouts;
      assert ts[0..] == ts;
      for i := 0 to endExpired
        invariant Consistent(reports) && reports == old(reports) + TimeOuts(ts[..i])
        invariant Agrees(ts[i..], reports)
      {
        EraseFirst(ts[i..]);
        assert ts[i..][1..] == ts[i + 1..] && ts[i..][0] == ts[i];
        ReportAppended(reports, TimedOut(ts[i].id));
        TimeOutsSnoc(ts[..i], ts[i]);
        assert ts[..i + 1] == ts[..i] + [ts[i]];
        reports := reports + [TimedOut(mPeerTimeouts[i].id)];
      }
    }

    method ScheduleNextPruning()
      requires SortedByDeadline(mPeerTimeouts)
      modifies `mPruneTimer
      ensures TimerCovers(mPeerTimeouts)
      ensures mPruneTimer ==
              if mPeerTimeouts != [] then Armed(mPeerTimeouts[0].deadline + 1000000) else old(mPruneTimer)
    {
      if mPeerTimeouts != [] {
        mPruneTimer := Armed(mPeerTimeouts[0].deadline + SECOND);
      }
    }
  }

  lemma EraseFirst(ts: seq<PeerTimeout>)
    requires ts != [] && UniqueIds(ts)
    ensures UniqueIds(ts[1..]) && Has(ts, ts[0].id)
    ensures forall id :: Has(ts[1..], id) <==> Has(ts, id) && id != ts[0].id
  {
    var rest := ts[1..];
    forall id
      ensures Has(rest, id) <==> Has(ts, id) && id != ts[0].id
    {
      if Has(rest, id) {
        var i :| 0 <= i < |rest| && rest[i].id == id;
        assert ts[i + 1].id == id;
      }
      if Has(ts, id) && id != ts[0].id {
        var i :| 0 <= i < |ts| && ts[i].id == id;
        assert rest[i - 1].id == id;
      }
    }
  }

  lemma EraseMembers(ts: seq<PeerTimeout>, at: nat, rest: seq<PeerTimeout>, id: nat)
    requires Erased(ts, at, rest) && UniqueIds(ts) && ts[at].id == id
    ensures forall t: PeerTimeout :: t in rest <==> t in ts && t.id != id
  {
    forall t
      ensures t in rest <==> t in ts && t.id != id
    {
      if t in rest {
        var i :| 0 <= i < |rest| && rest[i] == t;
        assert ts[if i < at then i else i + 1] == t;
      }
      if t in ts && t.id != id {
        var i :| 0 <= i < |ts| && ts[i] == t;
        assert rest[if i < at then i else i - 1] == t;
      }
    }
  }

  lemma InsertMembers(ts: seq<PeerTimeout>, at: nat, x: PeerTimeout, more: seq<PeerTimeout>)
    requires Inserted(ts, at, x, more)
    ensures forall t: PeerTimeout :: t in more <==> t in ts || t == x
  {
    forall t
      ensures t in more <==> t in ts || t == x
    {
      assert more[at] == x;
      if t in more && t != x {
        var i :| 0 <= i < |more| && more[i] == t;
        assert ts[if i < at then i else i - 1] == t;
      }
      if t in ts {
        var i :| 0 <= i < |ts| && ts[i] == t;
        assert more[if i < at then i else i + 1] == t;
      }
    }
  }

  /** A prune at or after the time the timer was set for the earliest peer removes that peer. */
  lemma PruneMakesProgress(ts: seq<PeerTimeout>, now: int)
    requires ts != [] && now >= ts[0].deadline + 1000000
    ensures |Remaining(ts, now)| < |ts|
  {
    RemainingShrinks(ts[1..], now);
  }

  lemma {:induction false} RemainingShrinks(ts: seq<PeerTimeout>, now: int)
    ensures |Remaining(ts, now)| + |Expired(ts, now)| == |ts|
  {
    if ts != [] {
      RemainingShrinks(ts[1..], now);
    }
  }
}
