/** Runs of the snake game, and the page object that plays it in place. */
module SnakePage {
  import opened Rounding
  import opened Snake

  // ---- Runs ----

  datatype Step = ATick(pick: Cell) | AKey(note: int)

  ghost predicate StepOk(s: State, step: Step) {
    s.body != [] && (step.ATick? ==> PickOk(s, step.pick))
  }

  function Do(s: State, step: Step): State
    requires s.body != []
  {
    match step
    case ATick(pick) => Tick(s, pick)
    case AKey(note) => s.(direction := Turn(s.direction, note))
  }

  ghost predicate IsRun(s: State, run: seq<Step>)
    decreases |run|
  {
    run == [] || (StepOk(s, run[0]) && IsRun(Do(s, run[0]), run[1..]))
  }

  ghost function After(s: State, run: seq<Step>): State
    requires IsRun(s, run)
    decreases |run|
  {
    if run == [] then s else After(Do(s, run[0]), run[1..])
  }

  /** The state the constructor sets up, with the seed that the search has found. */
  function Start(seed: Cell, lit: set<Pos>): State {
    State([Cell(Pos(6, 5), Yellow), Cell(Pos(6, 4), Green), Cell(Pos(6, 3), Green)],
      N, seed, 0, false, 0, false, 0, lit, [])
  }

  lemma StartInv(seed: Cell, lit: set<Pos>)
    requires SeedOk(seed, Start(seed, lit).body)
    ensures GameInv(Start(seed, lit))
  {
  }

  /** So every game is well-formed at all times, and its lamps are right from the first refresh on. */
  lemma GamesInv(seed: Cell, lit: set<Pos>, run: seq<Step>)
    requires SeedOk(seed, Start(seed, lit).body)
    ensures IsRun(Start(seed, lit), run) ==> GameInv(After(Start(seed, lit), run))
    ensures IsRun(Refresh(Start(seed, lit)), run) ==>
              var t := After(Refresh(Start(seed, lit)), run); GameInv(t) && LampInv(t)
  {
    StartInv(seed, lit);
    RefreshLamps(Start(seed, lit));
    if IsRun(Start(seed, lit), run) { RunInv(Start(seed, lit), run); }
    if IsRun(Refresh(Start(seed, lit)), run) { RunInv(Refresh(Start(seed, lit)), run); }
  }

  lemma RefreshLamps(s: State)
    requires GameInv(s)
    ensures GameInv(Refresh(s)) && LampInv(Refresh(s))
  {
  }

  /** On every run of ticks and key presses the snake has at least three cells, all on the board and
      each next to the one before, the seed is off the snake, outside game over only the tail may
      overlap, and the lamps keep showing exactly this once a refresh has drawn it. */
  lemma {:induction false} RunInv(s: State, run: seq<Step>)
    requires GameInv(s) && IsRun(s, run)
    ensures GameInv(After(s, run))
    ensures LampInv(s) ==> LampInv(After(s, run))
    decreases |run|
  {
    if run != [] {
      var t := Do(s, run[0]);
      if run[0].ATick? { TickInv(s, run[0].pick); }
      assert GameInv(t) && (LampInv(s) ==> LampInv(t));
      RunInv(t, run[1..]);
    }
  }

  /** The power-up is on when the head arrives. */
  predicate Powered(s: State) {
    s.powerUp && s.powerUpTimer > 1
  }

  /** Some cell other than the tail, which is about to leave its place, is at `p`. */
  predicate RunsInto(body: seq<Cell>, p: Pos) {
    exists i :: 0 <= i < |body| - 1 && body[i].pos == p
  }

  lemma ShiftMeets(body: seq<Cell>, d: Direction)
    requires body != []
    ensures var r := Shift(body, d); Collides(r, r[0].pos, 1) <==> RunsInto(body, r[0].pos)
  {
    var r := Shift(body, d);
    if RunsInto(body, r[0].pos) {
      var i :| 0 <= i < |body| - 1 && body[i].pos == r[0].pos;
      ShiftAt(body, d, i + 1);
    }
    if Collides(r, r[0].pos, 1) {
      var i :| 1 <= i < |r| && r[i].pos == r[0].pos;
      ShiftAt(body, d, i);
    }
  }

  lemma CountDownMeets(s: State, p: Pos)
    requires GameInv(s) && !s.gameOver
    ensures var c := CountDown(s);
            (RunsInto(c.body, p) <==> RunsInto(s.body, p)) && c.powerUp == Powered(s)
            && |c.body| == |s.body| && c.body[0].pos == s.body[0].pos
            && c.body[|c.body| - 1].pos == s.body[|s.body| - 1].pos
            && c.direction == s.direction && c.score == s.score
  {
    var c := CountDown(s);
    assert forall i :: 0 <= i < |s.body| ==> c.body[i].pos == s.body[i].pos;
    if RunsInto(s.body, p) {
      var i :| 0 <= i < |s.body| - 1 && s.body[i].pos == p;
      assert c.body[i].pos == p;
    }
  }

  /** What a tick means to the player, told from the state before it: a point exactly for arriving at
      the seed, one cell more at the old tail for a red one, the power-up for a blue one; the game is
      lost exactly when the head arrives, without power-up, at a cell that is not vacated. */
  lemma TickMeans(s: State, pick: Cell)
    requires GameInv(s) && !s.gameOver && PickOk(s, pick)
    ensures var t, head := Tick(s, pick), MovePos(s.body[0].pos, s.direction);
            var eats := head == s.seed.pos;
            t.body[0].pos == head
            && t.score == s.score + (if eats then 1 else 0)
            && t.seed == (if eats then pick else s.seed)
            && (t.gameOver <==> RunsInto(s.body, head) && !Powered(s))
            && (eats && s.seed.color == Red ==>
                  |t.body| == |s.body| + 1 && t.body[|s.body|].pos == s.body[|s.body| - 1].pos
                  && t.powerUp == Powered(s))
            && (eats && s.seed.color == Blue ==> |t.body| == |s.body| && t.powerUp && t.powerUpTimer == 20)
            && (RunsInto(s.body, head) && Powered(s) ==> !t.powerUp)
            && (!eats ==> (|t.body| < |s.body| ==> RunsInto(s.body, head) && Powered(s)) && |t.body| <= |s.body|)
  {
    var head := MovePos(s.body[0].pos, s.direction);
    var c := CountDown(s);
    CountDownInv(s);
    CountDownMeets(s, head);
    ShiftMeets(c.body, c.direction);
    TickCases(s, pick);
    if head == s.seed.pos {
      EatInv(c, pick);
      assert !RunsInto(s.body, head);
    } else {
      BiteMeans(Advance(c));
    }
  }

  lemma BiteMeans(m: State)
    requires m.body != [] && !m.gameOver
    ensures var t := Bite(m);
            t.body != [] && t.body[0].pos == m.body[0].pos && t.score == m.score && t.seed == m.seed
            && (t.gameOver <==> Collides(m.body, m.body[0].pos, 1) && !m.powerUp)
            && |t.body| <= |m.body|
            && (|t.body| < |m.body| ==> Collides(m.body, m.body[0].pos, 1) && m.powerUp)
            && (Collides(m.body, m.body[0].pos, 1) ==> !t.powerUp)
  {
    if Collides(m.body, m.body[0].pos, 1) && m.powerUp {
      assert Cut(m.body)[0] == m.body[0];
    }
  }

  /** On every run every cell beyond the third has been paid for with a point. */
  lemma {:induction false} LengthIsEarned(s: State, run: seq<Step>)
    requires GameInv(s) && IsRun(s, run) && 0 <= s.score && |s.body| <= 3 + s.score
    ensures 0 <= After(s, run).score && |After(s, run).body| <= 3 + After(s, run).score
    decreases |run|
  {
    if run != [] {
      var t := Do(s, run[0]);
      if run[0].ATick? {
        TickGame(s, run[0].pick);
        if !s.gameOver { TickMeans(s, run[0].pick); }
      }
      LengthIsEarned(t, run[1..]);
    }
  }

  /** Whether a tick eats is decided by where the head arrives, which is always on the board. */
  lemma EdgeSeedTick(s: State, pick: Cell)
    requires GameInv(s) && PickOk(s, pick) && !OnBoard(s.seed.pos)
    ensures var t := Tick(s, pick);
            t.seed == s.seed && |t.body| <= |s.body| && (t.score == s.score || t.score == 0)
            && (!s.gameOver ==> !Eats(Moved(s)))
  {
    if !s.gameOver {
      CountDownInv(s);
      AdvanceInv(CountDown(s));
      assert OnBoard(Moved(s).body[0].pos);
      TickCases(s, pick);
    }
  }

  /** A seed drawn at coordinate 9 can never be eaten: on every run from there it stays, nothing is
      scored and the snake does not grow again. */
  lemma {:induction false} EdgeSeedIsForever(s: State, run: seq<Step>)
    requires GameInv(s) && IsRun(s, run) && !OnBoard(s.seed.pos)
    ensures var t := After(s, run);
            t.seed == s.seed && |t.body| <= |s.body| && (t.score == s.score || t.score == 0)
    decreases |run|
  {
    if run != [] {
      var t := Do(s, run[0]);
      if run[0].ATick? {
        EdgeSeedTick(s, run[0].pick);
        TickGame(s, run[0].pick);
      }
      EdgeSeedIsForever(t, run[1..]);
    }
  }

  lemma EatenLamps(c: State, pick: Cell)
    requires GameInv(c) && LampInv(c) && !c.gameOver && Eats(Advance(c))
    ensures var t := Eat(Advance(c), c.body[|c.body| - 1], pick);
            |t.body| <= |c.body| ==> t.lit == Places(t.body) + {t.seed.pos}
  {
    EatLamps(c, pick);
  }

  /** Incremental drawing agrees with a full redraw after every tick in which the snake has not
      grown. */
  lemma LampsExactUnlessGrown(s: State, pick: Cell)
    requires GameInv(s) && LampInv(s) && !s.gameOver && PickOk(s, pick)
    ensures var t := Tick(s, pick);
            |t.body| <= |s.body| ==> t.lit == Places(t.body) + {t.seed.pos}
  {
    var c := CountDown(s);
    CountDownInv(s);
    CountDownLamps(s);
    TickCases(s, pick);
    if Eats(Moved(s)) {
      EatenLamps(c, pick);
    } else {
      AdvanceLamps(c);
      BiteLamps(Moved(s));
    }
  }

  // ---- The length of a game over ----

  /** The ticks until the game goes on. */
  function Remaining(s: State): int {
    if |s.body| > 3 then |s.body| - 3 + 21 else s.gameOverTimer + 1
  }

  function AfterEnd(s: State, ticks: nat): State
    requires |s.body| >= 3
    decreases ticks
  {
    if ticks == 0 then s else AfterEnd(EndAnimation(s), ticks - 1)
  }

  function ScrollsLeft(s: State): seq<int> {
    if |s.body| > 3 || s.gameOverTimer == 20 then [s.score] else []
  }

  lemma GameOverStep(s: State)
    requires GameInv(s) && s.gameOver
    ensures var next := EndAnimation(s);
            GameInv(next) && Remaining(s) >= 1 && (next.gameOver <==> Remaining(s) > 1)
            && if next.gameOver then
                 Remaining(next) == Remaining(s) - 1 && next.body[..3] == s.body[..3]
                 && next.scrolled + ScrollsLeft(next) == s.scrolled + ScrollsLeft(s)
               else next.body == s.body[..3] && next.score == 0 && next.scrolled == s.scrolled + ScrollsLeft(s)
  {
    EndAnimationInv(s);
    if |s.body| > 3 {
      assert s.body[..|s.body| - 1][..3] == s.body[..3];
    } else {
      assert s.body[..3] == s.body;
    }
  }

  lemma {:induction false} GameOverLasts(s: State, ticks: nat)
    requires GameInv(s) && s.gameOver && ticks <= Remaining(s)
    ensures var t := AfterEnd(s, ticks);
            GameInv(t) && (t.gameOver <==> ticks < Remaining(s))
            && (!t.gameOver ==> t.scrolled == s.scrolled + ScrollsLeft(s) && t.body == s.body[..3] && t.score == 0)
    decreases ticks
  {
    GameOverStep(s);
    if ticks > 0 && EndAnimation(s).gameOver {
      GameOverLasts(EndAnimation(s), ticks - 1);
    }
  }

  lemma GameOverStarts(s: State, pick: Cell)
    requires s.body != [] && !s.gameOver && Tick(s, pick).gameOver
    ensures Tick(s, pick).gameOverTimer == 20
  {
  }

  /** From t on, the game over ends with tick number `total` and not before; by then the score has
      been scrolled exactly once and the snake is cut down to its first three cells. */
  ghost predicate GameOverTakes(t: State, total: nat) {
    && |t.body| >= 3
    && (forall ticks: nat :: ticks <= total ==> (AfterEnd(t, ticks).gameOver <==> ticks < total))
    && AfterEnd(t, total).scrolled == t.scrolled + [t.score]
    && AfterEnd(t, total).body == t.body[..3]
  }

  lemma FreshGameOver(t: State)
    requires GameInv(t) && t.gameOver && t.gameOverTimer == 20
    ensures GameOverTakes(t, |t.body| - 3 + 21)
  {
    var total := |t.body| - 3 + 21;
    forall ticks: nat | ticks <= total
      ensures AfterEnd(t, ticks).gameOver <==> ticks < total
    {
      GameOverLasts(t, ticks);
    }
    GameOverLasts(t, total);
  }

  lemma EntersGameOver(s: State, pick: Cell, t: State)
    requires GameInv(s) && PickOk(s, pick) && !s.gameOver && t == Tick(s, pick) && t.gameOver
    ensures GameInv(t) && t.gameOverTimer == 20
  {
    TickGame(s, pick);
    GameOverStarts(s, pick);
  }

  /** A game over with a snake of n cells ends after exactly (n - 3) + 21 further ticks. */
  lemma GameOverDuration(s: State, pick: Cell, t: State)
    requires GameInv(s) && PickOk(s, pick) && !s.gameOver && t == Tick(s, pick) && t.gameOver
    ensures |t.body| >= 3 && GameOverTakes(t, |t.body| - 3 + 21)
  {
    EntersGameOver(s, pick, t);
    FreshGameOver(t);
  }

  // ---- The page ----

  /** What the page needs of the device. */
  class Launchpad {
    var lit: set<Pos>
    var scrolled: seq<int>

    constructor ()
    {
      lit, scrolled := {}, [];
    }

    method SetLed(p: Pos, color: Color)
      modifies `lit
      ensures OnBoard(p) ==> lit == if color == Black then old(lit) - {p} else old(lit) + {p}
    {
      if 1 <= p.x <= 9 && 1 <= p.y <= 9 {
        lit := if color == Black then lit - {p} else lit + {p};
      }
    }

    /** `setLed` with the palette entry 0 */
    method ClearLed(p: Pos)
      modifies `lit
      ensures OnBoard(p) ==> lit == old(lit) - {p}
    {
      if OnBoard(p) {
        lit := lit - {p};
      }
    }

    method PulseLed(p: Pos)
      modifies `lit
      ensures lit == old(lit) + {p}
    {
      lit := lit + {p};
    }

    method SetAllLed()
      modifies `lit
      ensures lit == {}
    {
      lit := {};
    }

    method ScrollText(score: int)
      modifies `scrolled
      ensures scrolled == old(scrolled) + [score]
    {
      scrolled := scrolled + [score];
    }
  }

  /** The part of the invariant that drawing relies on. */
  ghost predicate Drawable(body: seq<Cell>) {
    body != [] && forall i :: 0 <= i < |body| ==> OnBoard(body[i].pos) && body[i].color != Black
  }

  lemma {:induction false} PlacesSplit(a: seq<Cell>, b: seq<Cell>)
    ensures Places(a + b) == Places(a) + Places(b)
    decreases |b|
  {
    if b == [] {
      assert a + b == a;
    } else {
      PlacesSplit(a, b[..|b| - 1]);
      assert (a + b)[..|a + b| - 1] == a + b[..|b| - 1];
    }
  }

  lemma PlacesCons(body: seq<Cell>, i: nat)
    requires i < |body|
    ensures Places(body[i..]) == Places(body[i + 1..]) + {body[i].pos}
  {
    assert body[i..] == [body[i]] + body[i + 1..];
    PlacesSplit([body[i]], body[i + 1..]);
    assert [body[i]][..0] == [];
  }

  class SnakePage {
    const m_launchpad: Launchpad
    var m_body: seq<Cell>
    var m_direction: Direction
    var m_seed: Cell
    var m_score: int
    var m_gameOver: bool
    var m_gameOverTimer: int
    var m_powerUp: bool
    var m_powerUpTimer: int

    ghost function View(): State
      reads this, m_launchpad
    {
      State(m_body, m_direction, m_seed, m_score, m_gameOver, m_gameOverTimer, m_powerUp, m_powerUpTimer,
        m_launchpad.lit, m_launchpad.scrolled)
    }

    constructor (launchpad: Launchpad, seed: Cell)
      requires SeedOk(seed, Start(seed, {}).body)
      ensures m_launchpad == launchpad && GameInv(View())
      ensures View() == Start(seed, launchpad.lit).(scrolled := launchpad.scrolled)
      ensures m_body == [Cell(Pos(6, 5), Yellow), Cell(Pos(6, 4), Green), Cell(Pos(6, 3), Green)]
      ensures m_direction == N && m_score == 0 && !m_gameOver && !m_powerUp && m_seed == seed
    {
      m_launchpad := launchpad;
      m_body := [Cell(Pos(6, 5), Yellow), Cell(Pos(6, 4), Green), Cell(Pos(6, 3), Green)];
      m_direction, m_seed, m_score := N, seed, 0;
      m_gameOver, m_gameOverTimer, m_powerUp, m_powerUpTimer := false, 0, false, 0;
    }

    method IsColliding(p: Pos, headIncluded: bool) returns (colliding: bool)
      ensures colliding <==> Collides(m_body, p, if headIncluded then 0 else 1)
    {
      colliding := false;
      var i := if headIncluded then 0 else 1;
      var from := i;
      while i < |m_body|
        invariant from <= i
        invariant colliding <==> exists k :: from <= k < i && k < |m_body| && m_body[k].pos == p
      {
        if m_body[i].pos == p {
          colliding := true;
        }
        i := i + 1;
      }
    }

    method RefreshLeds()
      requires Drawable(m_body)
      modifies m_launchpad`lit
      ensures View() == Refresh(old(View()))
    {
      m_launchpad.SetAllLed();
      for i := 0 to |m_body|
        invariant m_launchpad.lit == Places(m_body[..i])
      {
        m_launchpad.SetLed(m_body[i].pos, m_body[i].color);
        assert m_body[..i + 1][..i] == m_body[..i];
      }
      assert m_body[..|m_body|] == m_body;
      m_launchpad.PulseLed(m_seed.pos);
    }

    method NoteOn(note: int) returns (handled: bool)
      modifies `m_direction
      ensures handled && m_direction == Turn(old(m_direction), note)
    {
      var column := TruncMod(note, 10);
      if column > 8 { return true; }
      if note > 100 { return true; }
      if m_direction == N || m_direction == S {
        if column < 4 {
          m_direction := W;
        } else if column > 5 {
          m_direction := E;
        }
      } else {
        if note < 40 {
          m_direction := S;
        } else if note > 50 {
          m_direction := N;
        }
      }
      return true;
    }

    method RecolorBody(c: Color)
      modifies `m_body
      ensures m_body == Recolor(old(m_body), c)
    {
      var i := 1;
      while i < |m_body|
        invariant 1 <= i && |m_body| == |old(m_body)|
        invariant forall j :: 0 <= j < |m_body| ==>
          m_body[j] == if 1 <= j < i then Cell(old(m_body)[j].pos, c) else old(m_body)[j]
      {
        m_body := m_body[i := m_body[i].(color := c)];
        i := i + 1;
      }
    }

    method CountDownPowerUp()
      requires !m_gameOver
      modifies `m_body, `m_powerUp, `m_powerUpTimer
      ensures View() == CountDown(old(View()))
    {
      if m_powerUp {
        m_powerUpTimer := m_powerUpTimer - 1;
        if m_powerUpTimer == 0 {
          m_powerUp := false;
          RecolorBody(Green);
        }
      }
    }

    /** Clears the tail's lamp and moves the cells, drawing each. */
    method MoveBody() returns (lastCell: Cell)
      requires m_body != [] && OnBoard(m_body[|m_body| - 1].pos) && Drawable(Shift(m_body, m_direction))
      modifies `m_body, m_launchpad`lit
      ensures lastCell == old(m_body)[|old(m_body)| - 1]
      ensures m_body == Shift(old(m_body), m_direction)
      ensures m_launchpad.lit == old(m_launchpad.lit) - {lastCell.pos} + Places(m_body)
      ensures View() == old(View()).(body := m_body, lit := m_launchpad.lit)
    {
      lastCell := m_body[|m_body| - 1];
      m_launchpad.ClearLed(lastCell.pos);
      ShiftCells();
    }

    /** Moves the cells from the tail to the head. */
    method ShiftCells()
      requires m_body != [] && Drawable(Shift(m_body, m_direction))
      modifies `m_body, m_launchpad`lit
      ensures m_body == Shift(old(m_body), m_direction)
      ensures m_launchpad.lit == old(m_launchpad.lit) + Places(m_body)
    {
      DrawCells(Shift(m_body, m_direction));
    }

    method DrawCells(ghost moved: seq<Cell>)
      requires m_body != [] && moved == Shift(m_body, m_direction) && Drawable(moved)
      modifies `m_body, m_launchpad`lit
      ensures m_body == moved && m_launchpad.lit == old(m_launchpad.lit) + Places(moved)
    {
      DrawTail(moved);
      assert moved == [moved[0]] + moved[1..];
      m_body := m_body[0 := Cell(MovePos(m_body[0].pos, m_direction), m_body[0].color)];
      m_launchpad.SetLed(m_body[0].pos, m_body[0].color);
      PlacesCons(moved, 0);
      assert moved[0..] == moved;
    }

    /** All cells but the head, from the tail on. */
    method DrawTail(ghost moved: seq<Cell>)
      requires m_body != [] && moved == Shift(m_body, m_direction) && Drawable(moved)
      modifies `m_body, m_launchpad`lit
      ensures m_body == [old(m_body)[0]] + moved[1..]
      ensures m_launchpad.lit == old(m_launchpad.lit) + Places(moved[1..])
    {
      ghost var before := m_body;
      var i := |m_body| - 1;
      assert moved[i + 1..] == [];
      while i > 0
        invariant 0 <= i < |before| && |m_body| == |before|
        invariant m_body[..i + 1] == before[..i + 1]
        invariant m_body[i + 1..] == moved[i + 1..]
        invariant m_launchpad.lit == old(m_launchpad.lit) + Places(moved[i + 1..])
      {
        assert m_body[i] == m_body[..i + 1][i] == before[i] && m_body[i - 1] == m_body[..i + 1][i - 1] == before[i - 1];
        PlacesCons(moved, i);
        ShiftAt(before, m_direction, i);
        assert moved[i..] == [moved[i]] + moved[i + 1..];
        DrawCell(i, moved[i]);
        i := i - 1;
      }
      assert m_body == m_body[..1] + m_body[1..] && m_body[..1] == [before[0]];
    }

    /** Moves one cell to the place of its predecessor. */
    method DrawCell(i: nat, ghost moved: Cell)
      requires 0 < i < |m_body| && moved == Cell(m_body[i - 1].pos, m_body[i].color)
      requires OnBoard(moved.pos) && moved.color != Black
      modifies `m_body, m_launchpad`lit
      ensures |m_body| == |old(m_body)| && m_body[..i] == old(m_body)[..i]
      ensures m_body[i..] == [moved] + old(m_body)[i + 1..]
      ensures m_launchpad.lit == old(m_launchpad.lit) + {moved.pos}
    {
      m_body := m_body[i := Cell(m_body[i - 1].pos, m_body[i].color)];
      m_launchpad.SetLed(m_body[i].pos, m_body[i].color);
    }

    method EatSeed(lastCell: Cell, pick: Cell)
      requires m_body != [] && m_body[0].pos == m_seed.pos
      modifies this, m_launchpad`lit
      ensures View() == Eat(old(View()), lastCell, pick)
    {
      if m_seed.color == Blue {
        m_powerUp := true;
        m_powerUpTimer := 20;
        RecolorBody(Blue);
      } else {
        m_body := m_body + [lastCell];
      }
      m_score := m_score + 1;
      m_seed := pick;
      m_launchpad.PulseLed(m_seed.pos);
    }

    method CutTail()
      requires m_body != []
      modifies `m_body
      ensures m_body == Cut(old(m_body))
    {
      while m_body[|m_body| - 1].pos != m_body[0].pos
        invariant m_body != [] && m_body[0] == old(m_body)[0] && Cut(m_body) == Cut(old(m_body))
        decreases |m_body|
      {
        m_body := m_body[..|m_body| - 1];
      }
    }

    static lemma CutDrawable(body: seq<Cell>)
      requires Drawable(body)
      ensures Drawable(Recolor(Cut(body), Green))
    {
      var cut := Cut(body);
      assert forall i :: 0 <= i < |cut| ==> cut[i] == body[i];
    }

    /** The power-up is spent on the cells behind the bite. */
    method BiteOff()
      requires Drawable(m_body)
      modifies this, m_launchpad`lit
      ensures View() == Refresh(old(View()).(body := Recolor(Cut(old(m_body)), Green), powerUp := false))
    {
      CutDrawable(m_body);
      CutTail();
      m_powerUp := false;
      RecolorBody(Green);
      RefreshLeds();
    }

    method CheckCollision()
      requires Drawable(m_body) && !m_gameOver
      modifies this, m_launchpad`lit
      ensures View() == Bite(old(View()))
    {
      var colliding := IsColliding(m_body[0].pos, false);
      if colliding {
        if m_powerUp {
          BiteOff();
        } else {
          m_gameOver := true;
          m_gameOverTimer := 20;
          m_launchpad.SetLed(m_body[0].pos, Red);
        }
      }
    }

    /** One iteration of the game loop. */
    method SetCurrent(pick: Cell)
      requires GameInv(View()) && PickOk(View(), pick)
      modifies this, m_launchpad
      ensures View() == Tick(old(View()), pick) && GameInv(View())
    {
      ghost var s := View();
      TickGame(s, pick);
      if m_gameOver {
        PlayEndAnimation();
      } else {
        PlayOn(pick);
      }
    }

    method PlayOn(pick: Cell)
      requires GameInv(View()) && PickOk(View(), pick) && !m_gameOver
      modifies this, m_launchpad
      ensures View() == Tick(old(View()), pick)
    {
      ghost var s := View();
      CountDownInv(s);
      DrawableAfterMove(CountDown(s));
      CountDownPowerUp();
      var lastCell := MoveBody();
      AdvanceIs(CountDown(s), m_body, m_launchpad.lit);
      assert View() == Moved(s) && lastCell == OldTail(s);
      EatenDrawable(s, pick);
      Arrive(lastCell, pick);
    }

    /** The head has arrived: eating and biting. */
    method Arrive(lastCell: Cell, pick: Cell)
      requires m_body != [] && !m_gameOver
      requires if Eats(View()) then Drawable(Fed(View(), lastCell)) else Drawable(m_body)
      modifies this, m_launchpad`lit
      ensures var m := old(View()); View() == Bite(if Eats(m) then Eat(m, lastCell, pick) else m)
    {
      if m_body[0].pos == m_seed.pos {
        EatSeed(lastCell, pick);
      }
      CheckCollision();
    }

    /** What is moved and drawn is the state machine's move. */
    static lemma AdvanceIs(c: State, body: seq<Cell>, lit: set<Pos>)
      requires c.body != [] && body == Shift(c.body, c.direction)
      requires lit == c.lit - {c.body[|c.body| - 1].pos} + Places(body)
      ensures Advance(c) == c.(body := body, lit := lit)
    {
    }

    /** What is on the board before the collision check can be drawn. */
    static lemma EatenDrawable(s: State, pick: Cell)
      requires GameInv(s) && !s.gameOver && PickOk(s, pick)
      ensures var m := Moved(s);
              !m.gameOver && (if Eats(m) then
                Drawable(Fed(m, OldTail(s))) && !Eat(m, OldTail(s), pick).gameOver
              else Drawable(m.body))
    {
      var c := CountDown(s);
      CountDownInv(s);
      AdvanceInv(c);
      if Eats(Advance(c)) { EatInv(c, pick); }
    }

    static lemma DrawableAfterMove(c: State)
      requires GameInv(c) && !c.gameOver
      ensures Drawable(Shift(c.body, c.direction)) && !Advance(c).gameOver
    {
      AdvanceInv(c);
    }

    method PlayEndAnimation()
      requires GameInv(View()) && m_gameOver
      modifies this, m_launchpad
      ensures View() == EndAnimation(old(View()))
    {
      if |m_body| > 3 {
        var lastCell := m_body[|m_body| - 1];
        if lastCell.pos != m_body[0].pos {
          m_launchpad.SetLed(lastCell.pos, Black);
        }
        m_body := m_body[..|m_body| - 1];
        m_gameOverTimer := 21;
      } else if m_gameOverTimer == 20 {
        m_launchpad.ScrollText(m_score);
      } else if m_gameOverTimer == 0 {
        RefreshLeds();
        m_gameOver := false;
        m_score := 0;
      }
      m_gameOverTimer := m_gameOverTimer - 1;
    }
  }
}
