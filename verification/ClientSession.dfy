/** Conversions between a client's timeline and the session timeline it stands for. */
module ClientSession {
  import opened Rounding
  import opened LinkTime

  /** `clampTempo`: limits a client-supplied tempo to 20..999 beats per minute. */
  function ClampTempo(tempo: TempoValue, beatOrigin: int, timeOrigin: int): (tl: Timeline)
    ensures 60060 <= MicrosPerBeat(tl.tempo) <= 3 * MICRO
    ensures 20.0 <= tempo.bpm <= 999.0 ==> tl.tempo == tempo
    ensures 20.0 <= tl.tempo.bpm <= 999.0 && tl.beatOrigin == beatOrigin && tl.timeOrigin == timeOrigin
    ensures forall bpm :: 20.0 <= bpm <= 999.0 ==> !Nearer(bpm, tl.tempo.bpm, tempo.bpm)
  {
    var low := if tempo.bpm < 20.0 then 20.0 else tempo.bpm;
    var bpm := if low > 999.0 then 999.0 else low;
    QuotientBetween(60000000.0, bpm, 60060.0, 3000000.0);
    Timeline(Bpm(bpm), beatOrigin, timeOrigin)
  }

  /** `a` is nearer to `x` than `b` is. */
  predicate Nearer(a: real, b: real, x: real) {
    AbsReal(a - x) < AbsReal(b - x)
  }

  lemma QuotientBetween(a: real, b: real, low: real, high: real)
    requires b > 0.0 && low * b <= a <= high * b
    ensures low <= a / b <= high
  {
    var q := a / b;
    assert q * b == a;
  }

  function UpdateClient(curClient: Timeline, session: Timeline, atTime: int, xform: GhostXForm): Timeline
    requires xform.slope != 0.0
  {
    var tempTl := Timeline(session.tempo, curClient.ToBeats(atTime), atTime);
    var hostBeatZero := xform.GhostToHost(session.FromBeats(0));
    Timeline(tempTl.tempo, tempTl.ToBeats(hostBeatZero), hostBeatZero)
  }

  /** The guard of `updateSessionTimelineFromClient`: beat 0 has not moved and the tempo is the same. */
  predicate SessionUpToDate(curSession: Timeline, client: Timeline, xform: GhostXForm) {
    curSession.ToBeats(xform.HostToGhost(client.timeOrigin)) == 0 && client.tempo == curSession.tempo
  }

  function UpdateSession(curSession: Timeline, client: Timeline, atTime: int, xform: GhostXForm): Timeline {
    if SessionUpToDate(curSession, client, xform) then curSession
    else
      var tempTl := Timeline(client.tempo, 0, xform.HostToGhost(client.timeOrigin));
      var newBeatOrigin := Max(curSession.ToBeats(xform.HostToGhost(atTime)), curSession.beatOrigin + 1);
      Timeline(client.tempo, newBeatOrigin, tempTl.FromBeats(newBeatOrigin))
  }

  function ShiftClient(client: Timeline, shift: int): Timeline {
    var timeDelta := client.FromBeats(shift) - client.FromBeats(0);
    client.(timeOrigin := client.timeOrigin - timeDelta)
  }

  lemma UnitSlope(x: GhostXForm, host: int, ghostTime: int)
    requires x.slope == 1.0
    ensures x.HostToGhost(host) == host + x.intercept
    ensures x.GhostToHost(ghostTime) == ghostTime - x.intercept
    ensures x.GhostToHost(x.HostToGhost(host)) == host
  {
    LRoundInt(host);
    LRoundInt(ghostTime - x.intercept);
    assert (ghostTime - x.intercept) as real / 1.0 == (ghostTime - x.intercept) as real;
  }

  // ---- The client timeline under session changes ----

  /** Adopting a session timeline never makes the client's beat jump, whatever the rounding:
      at the moment of the change the beat is exactly the old one. */
  lemma ClientIsContinuous(client: Timeline, session: Timeline, atTime: int, x: GhostXForm)
    requires x.slope != 0.0
    ensures UpdateClient(client, session, atTime, x).ToBeats(atTime) == client.ToBeats(atTime)
  {
    var hostBeatZero := x.GhostToHost(session.FromBeats(0));
    MicrosToBeatsOdd(session.tempo, hostBeatZero - atTime);
  }

  /** The adopted timeline has the session's tempo, and its origin is beat 0 of the session. */
  lemma ClientIsOnGrid(client: Timeline, session: Timeline, atTime: int, x: GhostXForm)
    requires x.slope == 1.0
    ensures var c := UpdateClient(client, session, atTime, x);
            c.tempo == session.tempo && x.HostToGhost(c.timeOrigin) == session.FromBeats(0)
  {
    UnitSlope(x, 0, session.FromBeats(0));
    UnitSlope(x, x.GhostToHost(session.FromBeats(0)), 0);
  }

  /** Adopting an unchanged session again, at any other time, changes nothing: repeated
      updates cannot accumulate rounding errors. */
  lemma NoDrift(client: Timeline, session: Timeline, atTime: int, later: int, x: GhostXForm)
    requires x.slope != 0.0
    ensures var once := UpdateClient(client, session, atTime, x);
            UpdateClient(once, session, later, x) == once
  {
    var once := UpdateClient(client, session, atTime, x);
    MicrosToBeatsOdd(session.tempo, once.timeOrigin - later);
  }

  // ---- Committing a client timeline ----

  /** A new session timeline outranks the old one, keeps beat 0 exactly at the client's origin
      in ghost time, and gives the client back exactly the timeline it committed. */
  lemma CommitReadsBack(session: Timeline, client: Timeline, atTime: int, later: int, x: GhostXForm)
    requires x.slope == 1.0
    requires !SessionUpToDate(session, client, x)
    ensures var s := UpdateSession(session, client, atTime, x);
            s.beatOrigin > session.beatOrigin
            && s.FromBeats(0) == x.HostToGhost(client.timeOrigin)
            && UpdateClient(client, s, later, x) == client
  {
    var s := UpdateSession(session, client, atTime, x);
    BeatsToMicrosOdd(client.tempo, s.beatOrigin);
    UnitSlope(x, client.timeOrigin, s.FromBeats(0));
    MicrosToBeatsOdd(client.tempo, client.timeOrigin - later);
  }

  /** The priority of a new session timeline is the least one that outranks the old timeline and is
      not below the beat at which the change takes effect. */
  lemma CommitPriority(session: Timeline, client: Timeline, atTime: int, x: GhostXForm, other: int)
    requires !SessionUpToDate(session, client, x)
    ensures var priority := UpdateSession(session, client, atTime, x).beatOrigin;
            var effective := session.ToBeats(x.HostToGhost(atTime));
            priority > session.beatOrigin && priority >= effective
            && (other > session.beatOrigin && other >= effective ==> other >= priority)
  {
  }

  /** Every commit that the session already reflects reads back as it was committed. */
  ghost predicate UnchangedReadsBack(t: Tempo) {
    forall session: Timeline, client: Timeline, later: int, intercept: int ::
      var x := GhostXForm(1.0, intercept);
      session.tempo == t && SessionUpToDate(session, client, x) ==>
        UpdateClient(client, session, later, x) == client
  }

  lemma UnchangedClient(session: Timeline, client: Timeline, later: int, x: GhostXForm)
    requires x.slope == 1.0 && SessionUpToDate(session, client, x)
    ensures UpdateClient(client, session, later, x) == client <==>
            session.FromBeats(0) == x.HostToGhost(client.timeOrigin)
  {
    UnitSlope(x, client.timeOrigin, session.FromBeats(0));
    MicrosToBeatsOdd(client.tempo, client.timeOrigin - later);
  }

  /** On the branch that keeps the session timeline, reading back is exact for a tempo exactly
      when a beat lasts at most a second. */
  lemma UnchangedReadsBackExactly(t: Tempo)
    ensures UnchangedReadsBack(t) <==> MicrosPerBeat(t) <= MICRO
  {
    if MicrosPerBeat(t) <= MICRO {
      forall session: Timeline, client: Timeline, later: int, intercept: int
        | session.tempo == t && SessionUpToDate(session, client, GhostXForm(1.0, intercept))
        ensures UpdateClient(client, session, later, GhostXForm(1.0, intercept)) == client
      {
        var x := GhostXForm(1.0, intercept);
        TimeRoundTrip(session, x.HostToGhost(client.timeOrigin));
        UnchangedClient(session, client, later, x);
      }
    } else {
      BijectionExactlyAtOneSecond(t);
      var tl: Timeline, time: int :| tl.tempo == t && tl.FromBeats(tl.ToBeats(time)) != time;
      var k := MicrosToBeats(t, time - tl.timeOrigin);
      var x := GhostXForm(1.0, 0);
      var session := Timeline(t, -k, tl.timeOrigin);
      var client := Timeline(t, 0, time);
      UnitSlope(x, time, 0);
      assert SessionUpToDate(session, client, x);
      UnchangedClient(session, client, 0, x);
      assert UpdateClient(client, session, 0, x) != client;
    }
  }

  /** Committing the same client timeline again leaves the session alone. */
  ghost predicate CommitIdempotent(t: Tempo) {
    forall session: Timeline, client: Timeline, atTime: int, again: int, intercept: int ::
      var x := GhostXForm(1.0, intercept);
      client.tempo == t ==>
        var s := UpdateSession(session, client, atTime, x);
        UpdateSession(s, client, again, x) == s
  }

  lemma SecondCommit(session: Timeline, client: Timeline, atTime: int, x: GhostXForm)
    requires x.slope == 1.0 && !SessionUpToDate(session, client, x)
    ensures var s := UpdateSession(session, client, atTime, x);
            SessionUpToDate(s, client, x) <==>
            MicrosToBeats(client.tempo, BeatsToMicros(client.tempo, s.beatOrigin)) == s.beatOrigin
  {
    var s := UpdateSession(session, client, atTime, x);
    MicrosToBeatsOdd(client.tempo, BeatsToMicros(client.tempo, s.beatOrigin));
  }

  /** A repeated commit is recognised as such exactly for tempi of at most 60 bpm; a faster tempo
      can lose beat 0 to rounding and then raises the session's priority again and again. */
  lemma CommitIdempotentExactly(t: Tempo)
    ensures CommitIdempotent(t) <==> MicrosPerBeat(t) >= MICRO
  {
    if MicrosPerBeat(t) >= MICRO {
      forall session: Timeline, client: Timeline, atTime: int, again: int, intercept: int | client.tempo == t
        ensures var x := GhostXForm(1.0, intercept);
                var s := UpdateSession(session, client, atTime, x);
                UpdateSession(s, client, again, x) == s
      {
        var x := GhostXForm(1.0, intercept);
        if !SessionUpToDate(session, client, x) {
          var s := UpdateSession(session, client, atTime, x);
          BeatRoundTrip(Timeline(t, 0, 0), s.beatOrigin);
          SecondCommit(session, client, atTime, x);
        }
      }
    } else {
      BeatsToMicrosError(t, MICRO);
      var b := FastTempoForgets(t, MICRO);
      var other := if MicrosPerBeat(t) == 1 then TempoOfMicros(2) else TempoOfMicros(1);
      var session, client, x := Timeline(other, b - 1, 0), Timeline(t, 0, 0), GhostXForm(1.0, 0);
      UnitSlope(x, 0, 0);
      var s := UpdateSession(session, client, 0, x);
      assert s.beatOrigin == b;
      SecondCommit(session, client, 0, x);
      assert UpdateSession(s, client, 0, x).beatOrigin > b;
    }
  }

  /** The documented law: shifting a client timeline shifts its beats, at every time. */
  ghost predicate ShiftExact(t: Tempo) {
    forall client: Timeline, shift: int, time: int :: client.tempo == t ==>
      ShiftClient(client, shift).ToBeats(time) == client.ToBeats(time) + shift
  }

  /** A rounded quotient by an odd number never sees a tie. */
  lemma OddRoundError(n: int, c: int)
    requires c > 0 && c % 2 == 1
    ensures -c < 2 * (RoundDiv(n, c) * c - n) < c
  {
    RoundDivError(n, c);
    NoHalf(RoundDiv(n, c) * c - n, c);
  }

  lemma NoHalf(e: int, c: int)
    requires c % 2 == 1 && -c <= 2 * e <= c
    ensures -c < 2 * e < c
  {
  }

  /** So translating the dividend by whole multiples translates the result. */
  lemma OddRoundTranslates(n: int, c: int, k: int)
    requires c > 0 && c % 2 == 1
    ensures RoundDiv(n + k * c, c) == RoundDiv(n, c) + k
  {
    var p, q := RoundDiv(n + k * c, c), RoundDiv(n, c);
    OddRoundError(n + k * c, c);
    OddRoundError(n, c);
    Distribute(p, q, k, c);
    SmallMultiple(p - q - k, c);
  }

  lemma Distribute(p: int, q: int, k: int, c: int)
    ensures (p - q - k) * c == p * c - q * c - k * c
  {
  }

  /** A beat of a whole number of seconds. */
  lemma WholeSeconds(t: Tempo, c: int, n: int)
    requires MicrosPerBeat(t) == c * MICRO
    ensures c > 0 && BeatsToMicros(t, n) == n * c && MicrosToBeats(t, n) == RoundDiv(n, c)
  {
    assert n * (c * MICRO) == (n * c) * MICRO;
    ScaledRoundDiv(n * c, 1, MICRO);
    ScaledRoundDiv(n, c, MICRO);
    RoundDivError(n * c, 1);
  }

  lemma ScaledDiv(a: int, b: int, k: int)
    requires b > 0 && k > 0
    ensures b * k > 0 && (a * k) / (b * k) == a / b
  {
    var q, m := a / b, a % b;
    assert a == q * b + m;
    ScaledBounds(a, q, m, b, k);
    ModUnique(a * k, b * k, m * k, q);
  }

  lemma ScaledBounds(a: int, q: int, r: int, b: int, k: int)
    requires k > 0 && a == q * b + r && 0 <= r < b
    ensures a * k == q * (b * k) + r * k && 0 <= r * k < b * k
  {
    assert (q * b) * k == q * (b * k);
  }

  lemma ScaledRoundDiv(n: int, d: int, k: int)
    requires d > 0 && k > 0
    ensures d * k > 0 && RoundDiv(n * k, d * k) == RoundDiv(n, d)
  {
    ScaledDiv(if n >= 0 then 2 * n + d else d - 2 * n, 2 * d, k);
    ScaledTerms(n, d, k);
  }

  lemma ScaledTerms(n: int, d: int, k: int)
    requires k > 0
    ensures (2 * n + d) * k == 2 * (n * k) + d * k && (d - 2 * n) * k == d * k - 2 * (n * k)
    ensures (2 * d) * k == 2 * (d * k) && (n >= 0 <==> n * k >= 0)
  {
  }

  /** Shifting by one beat again and again from beat 0 goes wrong somewhere before `n` steps if the
      `n` steps together do. */
  lemma {:induction false} FirstSlip(t: Tempo, step: int, n: nat) returns (time: int)
    requires MicrosToBeats(t, n * step) != n
    ensures MicrosToBeats(t, time + step) != MicrosToBeats(t, time) + 1
    decreases n
  {
    MicrosToBeatsError(t, 0);
    assert 0 * step == 0;
    if n == 0 {
      SmallMultiple(MicrosToBeats(t, 0), MicrosPerBeat(t));
    }
    assert n * step == (n - 1) * step + step;
    if MicrosToBeats(t, (n - 1) * step) == n - 1 {
      return (n - 1) * step;
    }
    time := FirstSlip(t, step, n - 1);
  }

  /** A beat that is not a whole number of seconds: the rounding of one beat's duration adds up. */
  lemma FractionSlips(t: Tempo) returns (time: int)
    requires MicrosPerBeat(t) % MICRO != 0
    ensures MicrosToBeats(t, time + BeatsToMicros(t, 1)) != MicrosToBeats(t, time) + 1
  {
    var m, step := MicrosPerBeat(t), BeatsToMicros(t, 1);
    MicrosToBeatsError(t, m * step);
    LargeError(m, step);
    assert MicrosToBeats(t, m * step) != m;
    time := FirstSlip(t, step, m);
  }

  lemma LargeError(m: int, step: int)
    requires m > 0 && m % MICRO != 0
    ensures var e := m * m - (m * step) * MICRO; e >= m || e <= -m
  {
    var d := m - step * MICRO;
    assert m * m - (m * step) * MICRO == m * d;
    NotMultiple(m, step);
    LargeMultiple(m, d);
  }

  lemma NotMultiple(m: int, step: int)
    requires m % MICRO != 0
    ensures m - step * MICRO != 0
  {
  }

  lemma LargeMultiple(m: int, e: int)
    requires m > 0 && e != 0
    ensures m * e >= m || m * e <= -m
  {
  }

  /** A beat of an even number of seconds: half of it is a tie, which goes away from zero on both
      sides. */
  lemma EvenSlips(t: Tempo, c: int)
    requires MicrosPerBeat(t) == c * MICRO && c % 2 == 0
    ensures MicrosToBeats(t, -(c / 2) + BeatsToMicros(t, 1)) != MicrosToBeats(t, -(c / 2)) + 1
  {
    WholeSeconds(t, c, 1);
    WholeSeconds(t, c, c / 2);
    WholeSeconds(t, c, -(c / 2));
    assert 2 * (c / 2) == c;
    ModUnique(c + c, 2 * c, 0, 1);
    RoundDivOdd(c / 2, c);
  }

  lemma SlipRefutes(t: Tempo, time: int)
    requires MicrosToBeats(t, time + BeatsToMicros(t, 1)) != MicrosToBeats(t, time) + 1
    ensures !ShiftExact(t)
  {
    var client := Timeline(t, 0, 0);
    BeatsToMicrosError(t, 0);
    assert ShiftClient(client, 1).timeOrigin == -BeatsToMicros(t, 1);
    assert ShiftClient(client, 1).ToBeats(time) != client.ToBeats(time) + 1;
  }

  lemma OddIsExact(client: Timeline, shift: int, time: int, c: int)
    requires MicrosPerBeat(client.tempo) == c * MICRO && c % 2 == 1
    ensures ShiftClient(client, shift).ToBeats(time) == client.ToBeats(time) + shift
  {
    var t, o, d := client.tempo, client.beatOrigin, time - client.timeOrigin;
    WholeSeconds(t, c, shift - o);
    WholeSeconds(t, c, -o);
    WholeSeconds(t, c, d);
    WholeSeconds(t, c, d + shift * c);
    ShiftDelta(shift, o, c);
    assert ShiftClient(client, shift).timeOrigin == client.timeOrigin - shift * c;
    OddRoundTranslates(d, c, shift);
  }

  lemma ShiftDelta(shift: int, o: int, c: int)
    ensures (shift - o) * c - (-o) * c == shift * c
  {
  }

  lemma OddSeconds(m: int, c: int)
    requires c == m / MICRO
    ensures m % (2 * MICRO) == MICRO <==> m == c * MICRO && c % 2 == 1
  {
  }

  /** The documented law holds for a tempo, at all times and for all shifts, exactly when a beat lasts
      an odd number of seconds. */
  lemma ShiftExactly(t: Tempo)
    ensures ShiftExact(t) <==> MicrosPerBeat(t) % (2 * MICRO) == MICRO
  {
    var m := MicrosPerBeat(t);
    var c := m / MICRO;
    OddSeconds(m, c);
    if m % MICRO != 0 {
      var time := FractionSlips(t);
      SlipRefutes(t, time);
    } else if c % 2 == 0 {
      EvenSlips(t, c);
      SlipRefutes(t, -(c / 2));
    } else {
      forall client: Timeline, shift: int, time: int | client.tempo == t
        ensures ShiftClient(client, shift).ToBeats(time) == client.ToBeats(time) + shift
      {
        OddIsExact(client, shift, time, c);
      }
    }
  }

  lemma ShiftBound(client: Timeline, shift: int, time: int)
    ensures var m := MicrosPerBeat(client.tempo);
            Abs(ShiftClient(client, shift).ToBeats(time) - client.ToBeats(time) - shift) * m <= m + MICRO
  {
    var t, o := client.tempo, client.beatOrigin;
    var d, delta := time - client.timeOrigin, client.timeOrigin - ShiftClient(client, shift).timeOrigin;
    BeatsToMicrosError(t, shift - o);
    BeatsToMicrosError(t, -o);
    MicrosToBeatsError(t, d);
    MicrosToBeatsError(t, d + delta);
    ShiftArithmetic(MicrosToBeats(t, d + delta), MicrosToBeats(t, d), d, delta, shift, o, MicrosPerBeat(t),
      BeatsToMicros(t, shift - o), BeatsToMicros(t, -o));
  }

  /** At any tempo the shifted timeline has the shifted beats up to one microbeat and the microbeats
      that fit in a microsecond. */
  lemma ShiftError(client: Timeline, shift: int, time: int)
    ensures var m := MicrosPerBeat(client.tempo);
            var e := ShiftClient(client, shift).ToBeats(time) - client.ToBeats(time) - shift;
            Abs(e) * m <= m + MICRO && (m % (2 * MICRO) == MICRO ==> e == 0)
  {
    ShiftBound(client, shift, time);
    ShiftExactly(client.tempo);
  }

  lemma ShiftArithmetic(k1: int, k0: int, d: int, delta: int, shift: int, o: int, m: int, a: int, b: int)
    requires m > 0 && delta == a - b
    requires -MICRO <= 2 * (a * MICRO - (shift - o) * m) <= MICRO
    requires -MICRO <= 2 * (b * MICRO - (-o) * m) <= MICRO
    requires -m <= 2 * (k1 * m - (d + delta) * MICRO) <= m
    requires -m <= 2 * (k0 * m - d * MICRO) <= m
    ensures Abs(k1 - k0 - shift) * m <= m + MICRO
  {
    var e := k1 - k0 - shift;
    Distribute(k1, k0, shift, m);
    ShiftDelta(shift, o, m);
    AbsBound(e, m, m + MICRO);
  }

  lemma AbsBound(e: int, m: int, bound: int)
    requires m > 0 && -bound <= e * m <= bound
    ensures Abs(e) * m <= bound
  {
  }
}
