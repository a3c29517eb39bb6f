/** Which seeds the search can draw, and which of them can be eaten. */
module SnakeSeed {
  import opened Rounding
  import opened Snake
  import opened SnakePage

  // ---- The draw ----

  /** A coordinate made from the random number `r`, of which `max` is the largest. */
  function Draw(r: nat, max: nat): int
    requires max > 0
  {
    (8.0 * r as real / max as real + 1.0).Floor
  }

  lemma DrawInIntegers(r: nat, max: nat)
    requires max > 0
    ensures Draw(r, max) == 8 * r / max + 1
  {
    FloorQuotient(8 * r, max);
  }

  /** A draw lies between 1 and 9, and is 9 exactly for the largest random number. */
  lemma DrawIsNineExactly(r: nat, max: nat)
    requires r <= max && max > 0
    ensures 1 <= Draw(r, max) <= 9 && (Draw(r, max) == 9 <==> r == max)
  {
    DrawInIntegers(r, max);
    var q, m := 8 * r / max, 8 * r % max;
    assert 8 * r == q * max + m;
    if q >= 8 { ProductMonotone(8, q, max); }
    if q < 0 { ProductMonotone(q, -1, max); }
    if r == max { ModUnique(8 * r, max, 0, 8); }
    if q >= 9 { ProductMonotone(9, q, max); }
  }

  /** Every coordinate from 1 to 9 is drawn for some random number. */
  lemma EveryCoordinateIsDrawn(v: int, max: nat) returns (r: nat)
    requires 1 <= v <= 9 && max >= 8
    ensures r <= max && Draw(r, max) == v
  {
    ProductMonotone(v - 1, 8, max);
    r := ((v - 1) * max + 7) / 8;
    DrawInIntegers(r, max);
    ModUnique(8 * r, max, 8 * r - (v - 1) * max, v - 1);
  }

  // ---- Eating ----

  /** Some tick of the run eats the seed. */
  ghost predicate EatsIn(s: State, run: seq<Step>)
    decreases |run|
  {
    run != [] && StepOk(s, run[0])
    && ((run[0].ATick? && !s.gameOver && Eats(Moved(s))) || EatsIn(Do(s, run[0]), run[1..]))
  }

  ghost predicate CanEat(s: State) {
    exists run :: EatsIn(s, run)
  }

  lemma AfterStep(s: State, step: Step)
    requires StepOk(s, step) && CanEat(Do(s, step))
    ensures CanEat(s)
  {
    var run :| EatsIn(Do(s, step), run);
    assert ([step] + run)[1..] == run;
    assert EatsIn(s, [step] + run);
  }

  /** A pad that turns the snake to `d` from a perpendicular direction. */
  function Pad(d: Direction): (note: int)
    ensures OnPad(note)
  {
    match d case N => 61 case S => 11 case E => 18 case W => 11
  }

  predicate Perpendicular(a: Direction, b: Direction) {
    (a == N || a == S) != (b == N || b == S)
  }

  lemma PadTurns(from: Direction, d: Direction)
    requires Perpendicular(from, d)
    ensures Turn(from, Pad(d)) == d
  {
    match d
    case N => assert TruncMod(61, 10) == 1;
    case S => assert TruncMod(11, 10) == 1;
    case E => assert TruncMod(18, 10) == 8;
    case W => assert TruncMod(11, 10) == 1;
  }

  lemma AfterPad(s: State, d: Direction)
    requires s.body != [] && Perpendicular(s.direction, d) && CanEat(s.(direction := d))
    ensures CanEat(s)
  {
    PadTurns(s.direction, d);
    AfterStep(s, AKey(Pad(d)));
  }

  /** At most two pads turn the snake to any direction. */
  lemma AfterPads(s: State, d: Direction)
    requires s.body != [] && CanEat(s.(direction := d))
    ensures CanEat(s)
  {
    if d == s.direction {
      assert s.(direction := d) == s;
    } else if Perpendicular(s.direction, d) {
      AfterPad(s, d);
    } else {
      var side := if d == N || d == S then W else N;
      assert s.(direction := side).(direction := d) == s.(direction := d);
      AfterPad(s.(direction := side), d);
      AfterPad(s, side);
    }
  }

  function Ahead(s: State, d: Direction): Pos
    requires s.body != []
  {
    MovePos(s.body[0].pos, d)
  }

  /** Whatever the snake eats, a seed at coordinate 9 may come next. */
  lemma EdgePick(f: State) returns (pick: Cell)
    requires GameInv(f) && !f.gameOver
    ensures PickOk(f, pick)
  {
    pick := Cell(Pos(9, 9), Red);
    CountDownInv(f);
    AdvanceInv(CountDown(f));
    FedOnBoard(Moved(f), OldTail(f));
    OffBoard(Fed(Moved(f), OldTail(f)), pick.pos);
  }

  lemma FedOnBoard(m: State, last: Cell)
    requires OnBoard(last.pos) && forall i :: 0 <= i < |m.body| ==> OnBoard(m.body[i].pos)
    ensures forall i :: 0 <= i < |Fed(m, last)| ==> OnBoard(Fed(m, last)[i].pos)
  {
  }

  lemma OffBoard(body: seq<Cell>, p: Pos)
    requires !OnBoard(p) && forall i :: 0 <= i < |body| ==> OnBoard(body[i].pos)
    ensures !Collides(body, p, 0)
  {
  }

  lemma AheadIsSeed(f: State)
    requires GameInv(f) && !f.gameOver
    ensures Eats(Moved(f)) <==> Ahead(f, f.direction) == f.seed.pos
  {
    CountDownMeets(f, f.seed.pos);
    CountDownInv(f);
  }

  /** Turning to the seed ahead and moving on eats it. */
  lemma SeedAhead(s: State, d: Direction)
    requires GameInv(s) && !s.gameOver && Ahead(s, d) == s.seed.pos
    ensures CanEat(s)
  {
    var f := s.(direction := d);
    var pick := EdgePick(f);
    AheadIsSeed(f);
    assert EatsIn(f, [ATick(pick)]);
    AfterPads(s, d);
  }

  /** Turning and moving to a cell without the seed. */
  function Gone(s: State, d: Direction): State
    requires s.body != []
  {
    Tick(s.(direction := d), s.seed)
  }

  lemma AfterMove(s: State, d: Direction)
    requires GameInv(s) && !s.gameOver && Ahead(s, d) != s.seed.pos && CanEat(Gone(s, d))
    ensures CanEat(s)
  {
    var f := s.(direction := d);
    AheadIsSeed(f);
    AfterStep(f, ATick(s.seed));
    AfterPads(s, d);
  }

  lemma MoveMeans(s: State, d: Direction)
    requires GameInv(s) && !s.gameOver && Ahead(s, d) != s.seed.pos
    ensures var t := Gone(s, d);
            GameInv(t) && t.seed == s.seed && |t.body| <= |s.body| && t.body[0].pos == Ahead(s, d)
            && (t.gameOver <==> RunsInto(s.body, Ahead(s, d)) && !Powered(s))
            && (RunsInto(s.body, Ahead(s, d)) && Powered(s) ==> !t.powerUp)
  {
    var f := s.(direction := d);
    AheadIsSeed(f);
    TickMeans(f, s.seed);
    TickGame(f, s.seed);
  }

  // ---- A snake of three cells finds every seed on the board ----

  /** Steps up from coordinate `a` to `b`, round the edge if need be. */
  function Gap(a: uint8, b: uint8): nat {
    (b - a) % 8
  }

  lemma GapCloses(a: uint8, b: uint8)
    requires 1 <= a <= 8 && 1 <= b <= 8 && a != b
    ensures Gap(Wrap(Inc(a)), b) == Gap(a, b) - 1
  {
    ModUnique(b - a, 8, if b > a then b - a else b - a + 8, if b > a then 0 else -1);
    var next := Wrap(Inc(a));
    ModUnique(b - next, 8, if b >= next then b - next else b - next + 8, if b >= next then 0 else -1);
  }

  /** Steps to the east and to the north from `p` to `q`. */
  function Distance(p: Pos, q: Pos): nat {
    Gap(p.x, q.x) + Gap(p.y, q.y)
  }

  lemma MovesCloser(p: Pos, q: Pos)
    requires OnBoard(p) && OnBoard(q) && p != q
    ensures var d := if p.x != q.x then E else N; Distance(MovePos(p, d), q) == Distance(p, q) - 1
  {
    if p.x != q.x { GapCloses(p.x, q.x); } else { GapCloses(p.y, q.y); }
  }

  lemma MovesAway(p: Pos, d: Direction)
    requires OnBoard(p)
    ensures MovePos(p, d) != p && MovePos(p, E) != MovePos(p, N)
    ensures d == E || d == N ==> MovePos(MovePos(p, d), E) != p && MovePos(MovePos(p, d), N) != p
  {
  }

  ghost predicate Short(s: State) {
    GameInv(s) && !s.gameOver && !s.powerUp && |s.body| == 3 && OnBoard(s.seed.pos)
  }

  /** Neither east nor north is blocked by the cell behind the head. */
  predicate Free(s: State) {
    |s.body| == 3 && s.body[1].pos != MovePos(s.body[0].pos, E) && s.body[1].pos != MovePos(s.body[0].pos, N)
  }

  lemma ShortMove(s: State, d: Direction)
    requires Short(s) && (d == E || d == N) && Ahead(s, d) != s.seed.pos && Ahead(s, d) != s.body[1].pos
    ensures var t := Gone(s, d);
            Short(t) && Free(t) && t.body[0].pos == Ahead(s, d) && t.seed == s.seed
  {
    var f := s.(direction := d);
    MovesAway(s.body[0].pos, d);
    MoveMeans(s, d);
    assert !RunsInto(s.body, Ahead(s, d));
    AheadIsSeed(f);
    TickCases(f, s.seed);
    ShiftMeets(f.body, d);
    ShiftAt(CountDown(f).body, d, 1);
    NothingToBite(Moved(f));
    assert Gone(s, d).body[1].pos == s.body[0].pos;
  }

  lemma {:induction false} HuntFree(s: State)
    requires Short(s) && Free(s)
    ensures CanEat(s)
    decreases Distance(s.body[0].pos, s.seed.pos)
  {
    var p, q := s.body[0].pos, s.seed.pos;
    assert p != q;
    var d := if p.x != q.x then E else N;
    MovesCloser(p, q);
    if Ahead(s, d) == q {
      SeedAhead(s, d);
    } else {
      ShortMove(s, d);
      HuntFree(Gone(s, d));
      AfterMove(s, d);
    }
  }

  lemma HuntShort(s: State)
    requires Short(s)
    ensures CanEat(s)
  {
    var d := if Ahead(s, E) != s.body[1].pos then E else N;
    MovesAway(s.body[0].pos, d);
    if Ahead(s, d) == s.seed.pos {
      SeedAhead(s, d);
    } else {
      ShortMove(s, d);
      HuntFree(Gone(s, d));
      AfterMove(s, d);
    }
  }

  // ---- Any snake can become one of three cells ----

  lemma {:induction false} HuntAfterGameOver(s: State)
    requires GameInv(s) && s.gameOver && OnBoard(s.seed.pos)
    ensures CanEat(s)
    decreases Remaining(s)
  {
    var t := EndAnimation(s);
    EndAnimationInv(s);
    if t.gameOver {
      assert Remaining(t) == Remaining(s) - 1;
      HuntAfterGameOver(t);
    } else {
      HuntShort(t);
    }
    AfterStep(s, ATick(s.seed));
  }

  function Toward(a: Pos, b: Pos): Direction {
    if MovePos(a, N) == b then N else if MovePos(a, S) == b then S else if MovePos(a, E) == b then E else W
  }

  lemma TowardNeighbour(a: Pos, b: Pos)
    requires OnBoard(a) && OnBoard(b) && Adjacent(a, b)
    ensures MovePos(a, Toward(a, b)) == b
  {
    if a.x == b.x && Near(a.y, b.y) { StepsTo(a.y, b.y); } else { StepsTo(a.x, b.x); }
  }

  lemma StepsTo(a: uint8, b: uint8)
    requires 1 <= a <= 8 && 1 <= b <= 8 && Near(a, b)
    ensures Wrap(Inc(a)) == b || Wrap(Dec(a)) == b
  {
    assert a + 255 == 256 + (a - 1);
  }

  /** Reversing into the second cell either ends the game or uses up the power-up. */
  lemma Reverse(s: State) returns (d: Direction)
    requires GameInv(s) && !s.gameOver
    ensures Ahead(s, d) != s.seed.pos
    ensures var t := Gone(s, d);
            GameInv(t) && t.seed == s.seed && (t.gameOver <==> !Powered(s)) && (Powered(s) ==> !t.powerUp)
  {
    assert Adjacent(s.body[0].pos, s.body[1].pos);
    d := Toward(s.body[0].pos, s.body[1].pos);
    TowardNeighbour(s.body[0].pos, s.body[1].pos);
    assert RunsInto(s.body, s.body[1].pos);
    assert s.body[1].pos != s.seed.pos;
    MoveMeans(s, d);
  }

  lemma HuntUnpowered(s: State)
    requires GameInv(s) && !s.gameOver && !Powered(s) && OnBoard(s.seed.pos)
    ensures CanEat(s)
  {
    var d := Reverse(s);
    HuntAfterGameOver(Gone(s, d));
    AfterMove(s, d);
  }

  lemma HuntPowered(s: State)
    requires GameInv(s) && !s.gameOver && Powered(s) && OnBoard(s.seed.pos)
    ensures CanEat(s)
  {
    var d := Reverse(s);
    HuntUnpowered(Gone(s, d));
    AfterMove(s, d);
  }

  lemma {:induction false} EdgeSeedIsNeverEaten(s: State, run: seq<Step>)
    requires GameInv(s) && !OnBoard(s.seed.pos)
    ensures !EatsIn(s, run)
    decreases |run|
  {
    if run != [] && StepOk(s, run[0]) {
      if run[0].ATick? {
        EdgeSeedTick(s, run[0].pick);
        TickGame(s, run[0].pick);
      }
      EdgeSeedIsNeverEaten(Do(s, run[0]), run[1..]);
    }
  }

  /** From every well-formed state, whatever the snake looks like, some run of ticks and keys eats the
      seed exactly when the seed lies on the board. */
  lemma SeedCanBeEatenExactly(s: State)
    requires GameInv(s)
    ensures CanEat(s) <==> OnBoard(s.seed.pos)
  {
    if !OnBoard(s.seed.pos) {
      forall run
        ensures !EatsIn(s, run)
      {
        EdgeSeedIsNeverEaten(s, run);
      }
    } else if s.gameOver {
      HuntAfterGameOver(s);
    } else if Powered(s) {
      HuntPowered(s);
    } else {
      HuntUnpowered(s);
    }
  }
}
