/** Beats, Tempo, Timeline and GhostXForm: the value types of Link's shared beat grid.
    A beat value is a whole number of microbeats and a time a whole number of microseconds. */
module LinkTime {
  import opened Rounding

  const MICRO := 1000000

  /** `operator%` on Beats, guarded against a zero divisor. */
  function BeatsMod(lhs: int, rhs: int): int {
    if rhs == 0 then 0 else TruncMod(lhs, rhs)
  }

  function MicrosOfBpm(bpm: real): int
    requires bpm != 0.0
  {
    LRound(60000000.0 / bpm)
  }

  datatype TempoValue = Bpm(bpm: real) {
    predicate Valid() {
      bpm > 0.0 && MicrosOfBpm(bpm) > 0
    }
  }

  /** A tempo whose beat lasts a positive number of microseconds. */
  type Tempo = t: TempoValue | t.Valid() witness Bpm(60000000.0)

  function MicrosPerBeat(t: Tempo): (m: int)
    ensures m > 0
  {
    MicrosOfBpm(t.bpm)
  }

  /** `Tempo{microseconds}` */
  function TempoOfMicros(m: int): (t: Tempo)
    requires m > 0
    ensures MicrosPerBeat(t) == m
  {
    var bpm := 60000000.0 / m as real;
    assert bpm > 0.0;
    assert 60000000.0 / bpm == m as real by {
      assert m as real * bpm == 60000000.0;
      QuotientUnique(60000000.0, bpm, m as real);
    }
    LRoundInt(m);
    Bpm(bpm)
  }

  /** `Beats{micros / microsPerBeat}`, where `Beats{x}` is `llround(x * 1e6)` microbeats. */
  function MicrosToBeats(t: Tempo, micros: int): int {
    RoundDiv(micros * MICRO, MicrosPerBeat(t))
  }

  /** `llround(beats.floating() * microsPerBeat)`, where `floating` divides by 1e6. */
  function BeatsToMicros(t: Tempo, beats: int): int {
    RoundDiv(beats * MicrosPerBeat(t), MICRO)
  }

  datatype Timeline = Timeline(tempo: Tempo, beatOrigin: int, timeOrigin: int) {
    function ToBeats(time: int): int {
      beatOrigin + MicrosToBeats(tempo, time - timeOrigin)
    }

    function FromBeats(beats: int): int {
      timeOrigin + BeatsToMicros(tempo, beats - beatOrigin)
    }
  }

  datatype GhostXForm = GhostXForm(slope: real, intercept: int) {
    function HostToGhost(hostTime: int): int {
      LRound(slope * hostTime as real) + intercept
    }

    function GhostToHost(ghostTime: int): int
      requires slope != 0.0
    {
      LRound((ghostTime - intercept) as real / slope)
    }
  }

  /** A beat lasts the nearest whole number of microseconds, with halves rounded up. */
  lemma TempoRounds(t: Tempo)
    ensures RoundsTo(60000000.0 / t.bpm, MicrosPerBeat(t))
    ensures -t.bpm <= 2.0 * (MicrosPerBeat(t) as real * t.bpm - 60000000.0) <= t.bpm
  {
    var x, m := 60000000.0 / t.bpm, MicrosPerBeat(t) as real;
    LRoundCharacterised(x, MicrosPerBeat(t));
    ExactQuotient(60000000.0, t.bpm);
    ScaledDistance(t.bpm, m, x);
  }

  function AbsReal(r: real): real {
    if r < 0.0 then -r else r
  }

  lemma NonNegativeProduct(a: real, b: real)
    requires a >= 0.0 && b >= 0.0
    ensures a * b >= 0.0
  {
  }

  lemma DistributeOver(s: real, h: real, v: real, d: real)
    requires d == h - v
    ensures s * d == s * h - s * v
  {
  }

  lemma NegatedProduct(s: real, n: real, d: real)
    requires n == -s
    ensures n * d == -(s * d)
  {
  }

  lemma HalfScaled(s: real, d: real, p: real)
    requires s >= 0.0 && -0.5 <= d <= 0.5 && p == s * d
    ensures -0.5 * s <= p <= 0.5 * s
  {
    NonNegativeProduct(s, d + 0.5);
    NonNegativeProduct(s, 0.5 - d);
    DistributeOver(s, d, -0.5, d + 0.5);
    DistributeOver(s, 0.5, d, 0.5 - d);
  }

  /** Scaling a distance of at most a half. */
  lemma ScaledDistance(slope: real, h: real, v: real)
    requires -0.5 <= h - v <= 0.5
    ensures -0.5 * AbsReal(slope) <= slope * h - slope * v <= 0.5 * AbsReal(slope)
  {
    var d, p := h - v, slope * h - slope * v;
    DistributeOver(slope, h, v, d);
    if slope >= 0.0 {
      HalfScaled(slope, d, p);
    } else {
      NegatedProduct(slope, -slope, d);
      HalfScaled(-slope, d, -p);
    }
  }

  // ---- Ghost transforms ----

  /** Both directions are the exact affine values, rounded. */
  lemma XFormRounds(x: GhostXForm, hostTime: int, ghostTime: int)
    requires x.slope != 0.0
    ensures RoundsTo(x.slope * hostTime as real, x.HostToGhost(hostTime) - x.intercept)
    ensures RoundsTo((ghostTime - x.intercept) as real / x.slope, x.GhostToHost(ghostTime))
  {
    LRoundCharacterised(x.slope * hostTime as real, x.HostToGhost(hostTime) - x.intercept);
    LRoundCharacterised((ghostTime - x.intercept) as real / x.slope, x.GhostToHost(ghostTime));
  }

  lemma HostNear(x: GhostXForm, hostTime: int, host: real)
    requires x.slope != 0.0 && host == hostTime as real
    ensures -0.5 <= (x.HostToGhost(hostTime) - x.intercept) as real - x.slope * host <= 0.5
  {
    LRoundCharacterised(x.slope * hostTime as real, x.HostToGhost(hostTime) - x.intercept);
  }

  lemma GhostNear(x: GhostXForm, ghostTime: int) returns (exact: real)
    requires x.slope != 0.0
    ensures -0.5 <= x.GhostToHost(ghostTime) as real - exact <= 0.5
    ensures x.slope * exact == (ghostTime - x.intercept) as real
  {
    exact := (ghostTime - x.intercept) as real / x.slope;
    LRoundCharacterised(exact, x.GhostToHost(ghostTime));
    ExactQuotient((ghostTime - x.intercept) as real, x.slope);
  }

  /** For every slope, ghost time to host time and back is off by at most half a microsecond of ghost
      time and half a microsecond of host time. */
  lemma XFormRoundTrip(x: GhostXForm, ghostTime: int)
    requires x.slope != 0.0
    ensures AbsReal((x.HostToGhost(x.GhostToHost(ghostTime)) - ghostTime) as real) <= 0.5 * AbsReal(x.slope) + 0.5
  {
    var exact := GhostNear(x, ghostTime);
    BackToGhost(x, ghostTime, x.GhostToHost(ghostTime), exact);
  }

  lemma BackToGhost(x: GhostXForm, ghostTime: int, host: int, exact: real)
    requires x.slope != 0.0 && -0.5 <= host as real - exact <= 0.5
    requires x.slope * exact == (ghostTime - x.intercept) as real
    ensures AbsReal((x.HostToGhost(host) - ghostTime) as real) <= 0.5 * AbsReal(x.slope) + 0.5
  {
    HostNear(x, host, host as real);
    ErrorsScale(x.HostToGhost(host), ghostTime, x.intercept, x.slope, host as real, exact);
  }

  lemma ErrorsScale(h: int, g: int, i: int, slope: real, host: real, exact: real)
    requires -0.5 <= (h - i) as real - slope * host <= 0.5 && slope * exact == (g - i) as real
    requires -0.5 <= host - exact <= 0.5
    ensures AbsReal((h - g) as real) <= 0.5 * AbsReal(slope) + 0.5
  {
    ScaledDistance(slope, host, exact);
    ErrorsAdd(h, g, i, slope * host, slope * exact, 0.5 * AbsReal(slope));
  }

  lemma ErrorsAdd(h: int, g: int, i: int, b: real, c: real, bound: real)
    requires -0.5 <= (h - i) as real - b <= 0.5 && c == (g - i) as real && -bound <= b - c <= bound
    ensures AbsReal((h - g) as real) <= bound + 0.5
  {
  }

  lemma ExactQuotient(a: real, b: real)
    requires b != 0.0
    ensures b * (a / b) == a
  {
  }

  // ---- Conversions between beats and time ----

  /** A timeline runs forward through its two origins at its tempo: beats advance one million
      microbeats, that is one beat, for a beat's microseconds. */
  lemma TimelineRate(tl: Timeline, time: int, beats: int)
    ensures var m := MicrosPerBeat(tl.tempo);
            var b, t := tl.ToBeats(time) - tl.beatOrigin, tl.FromBeats(beats) - tl.timeOrigin;
            -m <= 2 * (b * m - (time - tl.timeOrigin) * 1000000) <= m
            && -1000000 <= 2 * (t * 1000000 - (beats - tl.beatOrigin) * m) <= 1000000
  {
    MicrosToBeatsError(tl.tempo, time - tl.timeOrigin);
    BeatsToMicrosError(tl.tempo, beats - tl.beatOrigin);
  }

  lemma MicrosToBeatsOdd(t: Tempo, micros: int)
    ensures MicrosToBeats(t, -micros) == -MicrosToBeats(t, micros)
  {
    RoundDivOdd(micros * MICRO, MicrosPerBeat(t));
  }

  lemma BeatsToMicrosOdd(t: Tempo, beats: int)
    ensures BeatsToMicros(t, -beats) == -BeatsToMicros(t, beats)
  {
    var m := MicrosPerBeat(t);
    assert (-beats) * m == -(beats * m);
    RoundDivOdd(beats * m, MICRO);
  }

  lemma MicrosToBeatsError(t: Tempo, micros: int)
    ensures var m, k := MicrosPerBeat(t), MicrosToBeats(t, micros);
            -m <= 2 * (k * m - micros * MICRO) <= m
  {
    RoundDivError(micros * MICRO, MicrosPerBeat(t));
  }

  lemma BeatsToMicrosError(t: Tempo, beats: int)
    ensures var m, d := MicrosPerBeat(t), BeatsToMicros(t, beats);
            -MICRO <= 2 * (d * MICRO - beats * m) <= MICRO
  {
    RoundDivError(beats * MicrosPerBeat(t), MICRO);
  }

  lemma BeatsToMicrosMonotone(t: Tempo, a: int, b: int)
    requires a <= b
    ensures BeatsToMicros(t, a) <= BeatsToMicros(t, b)
  {
    var m := MicrosPerBeat(t);
    assert a * m <= b * m;
    RoundDivMonotone(a * m, b * m, MICRO);
  }

  // ---- Round trips ----

  /** With one microbeat per microsecond both conversions are the identity. */
  lemma UnitTempoIsExact(t: Tempo, n: int)
    requires MicrosPerBeat(t) == MICRO
    ensures MicrosToBeats(t, n) == n == BeatsToMicros(t, n)
  {
    MicrosToBeatsError(t, n);
    BeatsToMicrosError(t, n);
  }

  /** Time to beats and back loses at most half a microbeat's duration and half a
      microsecond; a beat of at most a second loses nothing. */
  lemma TimeRoundTrip(tl: Timeline, time: int)
    ensures var m := MicrosPerBeat(tl.tempo);
            var e := tl.FromBeats(tl.ToBeats(time)) - time;
            Abs(e) * 2 * MICRO <= m + MICRO
            && (m <= MICRO ==> e == 0)
  {
    var t := tl.tempo;
    var d := time - tl.timeOrigin;
    var k := MicrosToBeats(t, d);
    MicrosToBeatsError(t, d);
    BeatsToMicrosError(t, k);
    if MicrosPerBeat(t) == MICRO {
      UnitTempoIsExact(t, d);
      UnitTempoIsExact(t, k);
    }
  }

  /** For a beat of at most three seconds, and so for every tempo a client can set, a time that went
      through beats is off by at most one microsecond. */
  lemma TimeWithinOneMicro(tl: Timeline, time: int)
    requires MicrosPerBeat(tl.tempo) <= 3 * MICRO
    ensures Abs(tl.FromBeats(tl.ToBeats(time)) - time) <= 1
  {
    var t, d := tl.tempo, time - tl.timeOrigin;
    var k := MicrosToBeats(t, d);
    TimeRoundTrip(tl, time);
    if MicrosPerBeat(t) == 3 * MICRO {
      MicrosToBeatsError(t, d);
      BeatsToMicrosError(t, k);
      SmallMultiple(BeatsToMicros(t, k) - 3 * k, MICRO);
    }
  }

  /** Beats to time and back, the same with the roles of the two units exchanged. */
  lemma BeatRoundTrip(tl: Timeline, beats: int)
    ensures var m := MicrosPerBeat(tl.tempo);
            var e := tl.ToBeats(tl.FromBeats(beats)) - beats;
            Abs(e) * 2 * m <= m + MICRO
            && (m >= MICRO ==> e == 0)
  {
    var t := tl.tempo;
    var m := MicrosPerBeat(t);
    var b := beats - tl.beatOrigin;
    var d := BeatsToMicros(t, b);
    MicrosToBeatsError(t, d);
    BeatsToMicrosError(t, b);
    var k := MicrosToBeats(t, d);
    ErrorSum(k, d, b, m);
    if m == MICRO {
      UnitTempoIsExact(t, d);
      UnitTempoIsExact(t, b);
    }
  }

  lemma ErrorSum(k: int, d: int, b: int, m: int)
    requires m > 0
    requires -m <= 2 * (k * m - d * MICRO) <= m
    requires -MICRO <= 2 * (d * MICRO - b * m) <= MICRO
    ensures Abs(k - b) * 2 * m <= m + MICRO
    ensures m > MICRO ==> k == b
  {
    assert (k - b) * m == k * m - b * m;
    AbsScaled(k - b, m, m + MICRO);
    if m > MICRO {
      SmallMultiple(k - b, m);
    }
  }

  lemma AbsScaled(e: int, m: int, bound: int)
    requires m > 0 && -bound <= 2 * (e * m) <= bound
    ensures Abs(e) * 2 * m <= bound
  {
    assert Abs(e) * 2 * m == 2 * (Abs(e) * m);
  }

  lemma SmallMultiple(e: int, m: int)
    requires m > 0 && -m < e * m < m
    ensures e == 0
  {
  }

  ghost predicate TimesSurvive(t: Tempo) {
    forall tl: Timeline, time: int :: tl.tempo == t ==> tl.FromBeats(tl.ToBeats(time)) == time
  }

  ghost predicate BeatsSurvive(t: Tempo) {
    forall tl: Timeline, beats: int :: tl.tempo == t ==> tl.ToBeats(tl.FromBeats(beats)) == beats
  }

  /** A beat longer than a second has more microseconds than microbeats, so some time
      between 0 and one beat does not come back. */
  lemma {:induction false} SlowTempoForgets(t: Tempo, n: nat) returns (d: int)
    requires MicrosPerBeat(t) > MICRO
    requires MicrosToBeats(t, n) < n
    ensures BeatsToMicros(t, MicrosToBeats(t, d)) != d
    decreases n
  {
    if BeatsToMicros(t, MicrosToBeats(t, n)) != n {
      return n;
    }
    MicrosToBeatsError(t, 0);
    RoundDivMonotone((n - 1) * MICRO, n * MICRO, MicrosPerBeat(t));
    if MicrosToBeats(t, n - 1) == MicrosToBeats(t, n) {
      return n - 1;
    }
    d := SlowTempoForgets(t, n - 1);
  }

  /** A beat shorter than a second has more microbeats than microseconds. */
  lemma {:induction false} FastTempoForgets(t: Tempo, n: nat) returns (b: int)
    requires MicrosPerBeat(t) < MICRO
    requires BeatsToMicros(t, n) < n
    ensures MicrosToBeats(t, BeatsToMicros(t, b)) != b
    decreases n
  {
    if MicrosToBeats(t, BeatsToMicros(t, n)) != n {
      return n;
    }
    BeatsToMicrosError(t, 0);
    BeatsToMicrosMonotone(t, n - 1, n);
    if BeatsToMicros(t, n - 1) == BeatsToMicros(t, n) {
      return n - 1;
    }
    b := FastTempoForgets(t, n - 1);
  }

  /** Times survive the trip through beats exactly for tempi of at least 60 bpm, beats survive
      the trip through time exactly for tempi of at most 60 bpm. The documented bijection
      therefore holds exactly when a beat lasts one second. */
  lemma BijectionExactlyAtOneSecond(t: Tempo)
    ensures TimesSurvive(t) <==> MicrosPerBeat(t) <= MICRO
    ensures BeatsSurvive(t) <==> MicrosPerBeat(t) >= MICRO
    ensures TimesSurvive(t) && BeatsSurvive(t) <==> MicrosPerBeat(t) == MICRO
  {
    var m := MicrosPerBeat(t);
    var origin := Timeline(t, 0, 0);
    if m <= MICRO {
      forall tl: Timeline, time: int | tl.tempo == t
        ensures tl.FromBeats(tl.ToBeats(time)) == time
      {
        TimeRoundTrip(tl, time);
      }
    } else {
      MicrosToBeatsError(t, m);
      assert MicrosToBeats(t, m) == MICRO by {
        assert MicrosToBeats(t, m) * m - m * MICRO == (MicrosToBeats(t, m) - MICRO) * m;
        SmallMultiple(MicrosToBeats(t, m) - MICRO, m);
      }
      var d := SlowTempoForgets(t, m);
      assert origin.FromBeats(origin.ToBeats(d)) != d;
    }
    if m >= MICRO {
      forall tl: Timeline, beats: int | tl.tempo == t
        ensures tl.ToBeats(tl.FromBeats(beats)) == beats
      {
        BeatRoundTrip(tl, beats);
      }
    } else {
      BeatsToMicrosError(t, MICRO);
      var b := FastTempoForgets(t, MICRO);
      assert origin.ToBeats(origin.FromBeats(b)) != b;
    }
  }
}
