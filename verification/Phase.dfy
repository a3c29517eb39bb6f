/** Phase matching and phase encoding of beats with respect to a quantum. */
module Phase {
  import opened Rounding
  import opened LinkTime

  function Phase(beats: int, quantum: int): int {
    if quantum == 0 then 0
    else
      var bins := TruncDiv(Abs(beats) + quantum, quantum);
      BeatsMod(beats + bins * quantum, quantum)
  }

  function NextPhaseMatch(x: int, target: int, quantum: int): int {
    var phaseDiff := BeatsMod(Phase(target, quantum) - Phase(x, quantum) + quantum, quantum);
    x + phaseDiff
  }

  /** `Beats{0.5 * quantum.floating()}`: exact arithmetic rounds the half of an odd quantum up,
      floating point may land on either neighbour. Only `q` decides which. */
  predicate IsHalf(h: int, q: int) {
    h == q / 2 || h == (q + 1) / 2
  }

  function ClosestPhaseMatch(x: int, target: int, quantum: int, half: int): int {
    NextPhaseMatch(x - half, target, quantum)
  }

  function ToPhaseEncodedBeats(tl: Timeline, time: int, quantum: int, half: int): int {
    EncodeBeat(tl.ToBeats(time), tl.beatOrigin, quantum, half)
  }

  /** The encoding of a timeline's own beat value. */
  function EncodeBeat(beat: int, origin: int, quantum: int, half: int): int {
    ClosestPhaseMatch(beat, beat - origin, quantum, half)
  }

  function FromPhaseEncodedBeats(tl: Timeline, beat: int, quantum: int, half: int): int {
    tl.FromBeats(DecodeBeat(beat, tl.beatOrigin, quantum, half))
  }

  /** The beat value that `fromPhaseEncodedBeats` hands to the timeline. */
  function DecodeBeat(beat: int, origin: int, quantum: int, half: int): int {
    var fromOrigin := beat - origin;
    var originOffset := fromOrigin - Phase(fromOrigin, quantum);
    var inversePhaseOffset :=
      ClosestPhaseMatch(quantum - Phase(fromOrigin, quantum), quantum - Phase(beat, quantum), quantum, half);
    origin + originOffset + quantum - inversePhaseOffset
  }

  // ---- Phase and phase matching ----

  /** Despite truncating division, the phase is the non-negative residue. */
  lemma PhaseIsResidue(beats: int, q: int)
    requires q > 0
    ensures Phase(beats, q) == beats % q
    ensures 0 <= Phase(beats, q) < q
  {
    var a := Abs(beats) + q;
    var bins := a / q;
    assert bins * q == a - a % q;
    ModShift(beats, q, bins);
    assert TruncMod(beats + bins * q, q) == (beats + bins * q) % q;
  }

  ghost predicate SamePhase(x: int, y: int, q: int) {
    if q == 0 then true else q > 0 && (x - y) % q == 0
  }

  lemma SamePhaseIsEqualPhase(x: int, y: int, q: int)
    requires q >= 0
    ensures SamePhase(x, y, q) <==> Phase(x, q) == Phase(y, q)
  {
    if q > 0 {
      PhaseIsResidue(x, q);
      PhaseIsResidue(y, q);
      EqualResidues(x, y, q);
    }
  }

  lemma NextIsResidueAbove(x: int, target: int, q: int)
    requires q > 0
    ensures NextPhaseMatch(x, target, q) == x + (target - x) % q
  {
    PhaseIsResidue(x, q);
    PhaseIsResidue(target, q);
    TruncModNonNegative(Phase(target, q) - Phase(x, q) + q, q);
    ResidueOfDifference(target, x, q);
  }

  /** The next match is the least value at or above x with the target's phase; when x already
      has that phase the result is x itself. */
  lemma NextPhaseMatchLeast(x: int, target: int, q: int, y: int)
    requires q >= 0
    ensures var n := NextPhaseMatch(x, target, q);
            n >= x && SamePhase(n, target, q)
            && (x <= y && q > 0 && SamePhase(y, target, q) ==> n <= y)
            && (n == x <==> SamePhase(x, target, q))
  {
    if q > 0 {
      NextIsResidueAbove(x, target, q);
      LeastCongruent(x, target, q, y);
    }
  }

  /** Encoding and decoding both translate by one offset that depends only on origin and quantum. */
  function Offset(origin: int, q: int, h: int): int {
    if q <= 0 then 0 else (h - origin) % q - h
  }

  lemma EncodeIsTranslation(beat: int, origin: int, q: int, h: int)
    requires q >= 0 && IsHalf(h, q)
    ensures EncodeBeat(beat, origin, q, h) == beat + Offset(origin, q, h)
  {
    if q > 0 {
      NextIsResidueAbove(beat - h, beat - origin, q);
    }
  }

  lemma DecodeIsTranslation(beat: int, origin: int, q: int, h: int)
    requires q >= 0 && IsHalf(h, q)
    ensures DecodeBeat(beat, origin, q, h) == beat - Offset(origin, q, h)
  {
    if q > 0 {
      var f := beat - origin;
      PhaseIsResidue(f, q);
      PhaseIsResidue(beat, q);
      NextIsResidueAbove(q - Phase(f, q) - h, q - Phase(beat, q), q);
      DecodeResidue(beat, origin, q, h);
    }
  }

  lemma DecodeResidue(beat: int, origin: int, q: int, h: int)
    requires q > 0
    ensures (q - beat % q - (q - (beat - origin) % q - h)) % q == (h - origin) % q
  {
    var f := beat - origin;
    var kb, kf, rb, rf := beat / q, f / q, beat % q, f % q;
    assert beat == kb * q + rb && f == kf * q + rf;
    ModShift(h - origin, q, kb - kf);
    assert rf - rb + h == h - origin + (kb - kf) * q;
  }

  // ---- Main results ----

  /** Phase encoding is a bijection on microbeats for every quantum and origin: each direction
      undoes the other. */
  lemma PhaseEncodingBijection(beat: int, origin: int, q: int, h: int)
    requires q >= 0 && IsHalf(h, q)
    ensures DecodeBeat(EncodeBeat(beat, origin, q, h), origin, q, h) == beat
    ensures EncodeBeat(DecodeBeat(beat, origin, q, h), origin, q, h) == beat
  {
    EncodeIsTranslation(beat, origin, q, h);
    DecodeIsTranslation(EncodeBeat(beat, origin, q, h), origin, q, h);
    DecodeIsTranslation(beat, origin, q, h);
    EncodeIsTranslation(DecodeBeat(beat, origin, q, h), origin, q, h);
  }

  /** The encoded value carries the phase relative to the timeline's origin, deviates from the
      plain beat by at most half a quantum rounded up, and keeps all distances. */
  lemma PhaseEncodingMeaning(beat: int, other: int, origin: int, q: int, h: int)
    requires q >= 0 && IsHalf(h, q)
    ensures var e := EncodeBeat(beat, origin, q, h);
            Phase(e, q) == Phase(beat - origin, q)
            && Abs(e - beat) <= (q + 1) / 2
            && EncodeBeat(other, origin, q, h) - e == other - beat
  {
    EncodeIsTranslation(beat, origin, q, h);
    EncodeIsTranslation(other, origin, q, h);
    if q > 0 {
      NextPhaseMatchLeast(beat - h, beat - origin, q, 0);
      SamePhaseIsEqualPhase(EncodeBeat(beat, origin, q, h), beat - origin, q);
    }
  }

  /** The match returned for x has the target's phase and y is not a nearer value of that phase. */
  ghost predicate NotBeatenBy(x: int, target: int, q: int, h: int, y: int) {
    var c := ClosestPhaseMatch(x, target, q, h);
    SamePhase(c, target, q) && (SamePhase(y, target, q) ==> Abs(c - x) <= Abs(y - x))
  }

  ghost predicate ReturnsNearest(q: int, h: int) {
    forall x, target, y :: NotBeatenBy(x, target, q, h, y)
  }

  lemma Nearest(x: int, target: int, q: int, h: int, y: int)
    requires q > 0 && h == q / 2
    ensures NotBeatenBy(x, target, q, h, y)
  {
    var c := ClosestPhaseMatch(x, target, q, h);
    NextPhaseMatchLeast(x - h, target, q, y);
    NextIsResidueAbove(x - h, target, q);
    if SamePhase(y, target, q) {
      EqualResidues(c, target, q);
      EqualResidues(y, target, q);
      EqualResidues(y, c, q);
      CongruentGap(y, c, q);
    }
  }

  /** The half quantum below 0 already has its own phase, but the one above is nearer. */
  lemma Overshoots(q: int, h: int)
    requires q > 0 && h > q / 2 && IsHalf(h, q)
    ensures !NotBeatenBy(0, -h, q, h, q - h)
  {
    NextIsResidueAbove(0 - h, -h, q);
    ModUnique(0, q, 0, 0);
    ModUnique(q, q, 0, 1);
    assert q - h - -h == q;
    assert ClosestPhaseMatch(0, -h, q, h) == -h;
  }

  /** `closestPhaseMatch` returns a nearest value of the requested phase exactly when the half
      quantum was rounded down. Rounding the half of an odd quantum up makes it overshoot. */
  lemma ClosestExactlyWhenHalfIsFloor(q: int, h: int)
    requires q > 0 && IsHalf(h, q)
    ensures ReturnsNearest(q, h) <==> h == q / 2
  {
    if h == q / 2 {
      forall x, target, y
        ensures NotBeatenBy(x, target, q, h, y)
      {
        Nearest(x, target, q, h, y);
      }
    } else {
      Overshoots(q, h);
    }
  }

  /** The half quantum when the product `0.5 * quantum` is exact. */
  function ExactHalf(q: int): (h: int)
    ensures q >= 0 ==> IsHalf(h, q)
  {
    RoundDiv(q, 2)
  }

  /** What a caller can tell from the quantum: for an even one the match is a nearest one however the
      half is computed; with exact arithmetic it is a nearest one for no odd quantum. */
  lemma NearestByQuantum(q: int)
    requires q > 0
    ensures (forall h :: IsHalf(h, q) ==> ReturnsNearest(q, h)) <==> q % 2 == 0
    ensures ReturnsNearest(q, ExactHalf(q)) <==> q % 2 == 0
  {
    forall h | IsHalf(h, q)
      ensures ReturnsNearest(q, h) <==> h == q / 2
    {
      ClosestExactlyWhenHalfIsFloor(q, h);
    }
    assert IsHalf((q + 1) / 2, q) && ExactHalf(q) == (q + 1) / 2;
  }

  /** What an encoded time carries: the phase of the timeline's beat relative to its origin, on a value
      near that beat. */
  lemma EncodedTimeMeaning(tl: Timeline, time: int, q: int, h: int)
    requires q >= 0 && IsHalf(h, q)
    ensures var e := ToPhaseEncodedBeats(tl, time, q, h);
            Phase(e, q) == Phase(tl.ToBeats(time) - tl.beatOrigin, q)
            && Abs(e - tl.ToBeats(time)) <= (q + 1) / 2
  {
    PhaseEncodingMeaning(tl.ToBeats(time), 0, tl.beatOrigin, q, h);
  }

  ghost predicate EncodedTimesSurvive(t: Tempo, q: int, h: int) {
    forall tl: Timeline, time: int :: tl.tempo == t ==>
      FromPhaseEncodedBeats(tl, ToPhaseEncodedBeats(tl, time, q, h), q, h) == time
  }

  lemma EncodedTime(tl: Timeline, time: int, q: int, h: int)
    requires q >= 0 && IsHalf(h, q)
    ensures FromPhaseEncodedBeats(tl, ToPhaseEncodedBeats(tl, time, q, h), q, h) == tl.FromBeats(tl.ToBeats(time))
  {
    PhaseEncodingBijection(tl.ToBeats(time), tl.beatOrigin, q, h);
  }

  /** All encoded times of a tempo come back, whatever the quantum, exactly when a beat lasts at most a
      second. */
  lemma EncodedTimesSurviveExactly(t: Tempo, q: int, h: int)
    requires q >= 0 && IsHalf(h, q)
    ensures EncodedTimesSurvive(t, q, h) <==> MicrosPerBeat(t) <= MICRO
  {
    BijectionExactlyAtOneSecond(t);
    forall tl: Timeline, time: int | tl.tempo == t
      ensures FromPhaseEncodedBeats(tl, ToPhaseEncodedBeats(tl, time, q, h), q, h) == tl.FromBeats(tl.ToBeats(time))
    {
      EncodedTime(tl, time, q, h);
    }
    if TimesSurvive(t) {
      assert EncodedTimesSurvive(t, q, h);
    } else {
      var tl: Timeline, time: int :| tl.tempo == t && tl.FromBeats(tl.ToBeats(time)) != time;
      EncodedTime(tl, time, q, h);
    }
  }

  /** `fromPhaseEncodedBeats` returns to the time that was encoded: exactly for beats of at most
      a second, and within one microsecond for every tempo of at least 20 bpm. */
  lemma PhaseEncodedTimeRoundTrip(tl: Timeline, time: int, q: int, h: int)
    requires q >= 0 && IsHalf(h, q)
    ensures var m := MicrosPerBeat(tl.tempo);
            var back := FromPhaseEncodedBeats(tl, ToPhaseEncodedBeats(tl, time, q, h), q, h);
            (m <= MICRO ==> back == time) && (m <= 3 * MICRO ==> Abs(back - time) <= 1)
  {
    PhaseEncodingBijection(tl.ToBeats(time), tl.beatOrigin, q, h);
    TimeRoundTrip(tl, time);
    if MicrosPerBeat(tl.tempo) <= 3 * MICRO { TimeWithinOneMicro(tl, time); }
  }
}
