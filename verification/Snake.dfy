/** The snake game as a state machine: ticks and key presses on a body of cells on an 8 x 8 torus,
    and the lamps that show it. */
module Snake {
  import opened Rounding

  type uint8 = x: nat | x < 256

  datatype Color = Black | Red | Green | Blue | Yellow
  datatype Direction = N | S | E | W
  datatype Pos = Pos(x: uint8, y: uint8)
  datatype Cell = Cell(pos: Pos, color: Color)

  /** `lit` are the lamps that are on and `scrolled` the scores shown so far. */
  datatype State = State(
    body: seq<Cell>, direction: Direction, seed: Cell, score: int,
    gameOver: bool, gameOverTimer: int, powerUp: bool, powerUpTimer: int,
    lit: set<Pos>, scrolled: seq<int>)

  // ---- Moving and drawing ----

  function Inc(x: uint8): uint8 { (x + 1) % 256 }
  function Dec(x: uint8): uint8 { (x + 255) % 256 }

  /** Off one edge is on at the other. */
  function Wrap(x: uint8): uint8 {
    if x == 0 then 8 else if x == 9 then 1 else x
  }

  function MovePos(p: Pos, d: Direction): Pos {
    var q := match d
      case N => Pos(p.x, Inc(p.y))
      case S => Pos(p.x, Dec(p.y))
      case E => Pos(Inc(p.x), p.y)
      case W => Pos(Dec(p.x), p.y);
    Pos(Wrap(q.x), Wrap(q.y))
  }

  /** Every cell takes the place of the one before it, and its colour stays. */
  function Shift(body: seq<Cell>, d: Direction): (r: seq<Cell>)
    requires body != []
    ensures |r| == |body| && r[0] == Cell(MovePos(body[0].pos, d), body[0].color)
  {
    var n := |body| - 1;
    if n == 0 then [Cell(MovePos(body[0].pos, d), body[0].color)]
    else Shift(body[..n], d) + [Cell(body[n - 1].pos, body[n].color)]
  }

  lemma {:induction false} ShiftAt(body: seq<Cell>, d: Direction, i: nat)
    requires 0 < i < |body|
    ensures Shift(body, d)[i] == Cell(body[i - 1].pos, body[i].color)
    decreases |body|
  {
    if i < |body| - 1 { ShiftAt(body[..|body| - 1], d, i); }
  }

  function Recolor(body: seq<Cell>, c: Color): (r: seq<Cell>)
    ensures |r| == |body|
    ensures forall i :: 0 <= i < |r| ==> r[i] == if i == 0 then body[i] else Cell(body[i].pos, c)
  {
    seq(|body|, i requires 0 <= i < |body| => if i == 0 then body[i] else Cell(body[i].pos, c))
  }

  function Places(body: seq<Cell>): set<Pos> {
    if body == [] then {} else Places(body[..|body| - 1]) + {body[|body| - 1].pos}
  }

  predicate Collides(body: seq<Cell>, p: Pos, from: nat) {
    exists i :: from <= i < |body| && body[i].pos == p
  }

  /** Drops cells from the tail until the last one is where the head is. */
  function Cut(body: seq<Cell>): (r: seq<Cell>)
    requires body != []
    ensures r != [] && r <= body && r[|r| - 1].pos == body[0].pos
    ensures forall i :: |r| <= i < |body| ==> body[i].pos != body[0].pos
  {
    if body[|body| - 1].pos == body[0].pos then body else Cut(body[..|body| - 1])
  }

  // ---- Ticks ----

  /** The power-up runs out. */
  function CountDown(s: State): State {
    if !s.powerUp then s
    else if s.powerUpTimer - 1 == 0 then s.(powerUpTimer := 0, powerUp := false, body := Recolor(s.body, Green))
    else s.(powerUpTimer := s.powerUpTimer - 1)
  }

  /** The snake moves; the cell it leaves goes dark. */
  function Advance(s: State): State
    requires s.body != []
  {
    var body := Shift(s.body, s.direction);
    s.(body := body, lit := s.lit - {s.body[|s.body| - 1].pos} + Places(body))
  }

  predicate Eats(s: State) {
    s.body != [] && s.body[0].pos == s.seed.pos
  }

  /** The body once the seed under the head has been eaten. */
  function Fed(s: State, last: Cell): seq<Cell> {
    if s.seed.color == Blue then Recolor(s.body, Blue) else s.body + [last]
  }

  function Eat(s: State, last: Cell, pick: Cell): State {
    var fed := s.(body := Fed(s, last), score := s.score + 1, seed := pick, lit := s.lit + {pick.pos});
    if s.seed.color == Blue then fed.(powerUp := true, powerUpTimer := 20) else fed
  }

  function Refresh(s: State): State {
    s.(lit := Places(s.body) + {s.seed.pos})
  }

  function Bite(s: State): State
    requires s.body != []
  {
    if !Collides(s.body, s.body[0].pos, 1) then s
    else if s.powerUp then Refresh(s.(body := Recolor(Cut(s.body), Green), powerUp := false))
    else s.(gameOver := true, gameOverTimer := 20, lit := s.lit + {s.body[0].pos})
  }

  function EndAnimation(s: State): State
    requires s.body != []
  {
    var last := s.body[|s.body| - 1].pos;
    var t :=
      if |s.body| > 3 then
        s.(body := s.body[..|s.body| - 1], gameOverTimer := 21,
           lit := if last != s.body[0].pos then s.lit - {last} else s.lit)
      else if s.gameOverTimer == 20 then s.(scrolled := s.scrolled + [s.score])
      else if s.gameOverTimer == 0 then Refresh(s).(gameOver := false, score := 0)
      else s;
    t.(gameOverTimer := t.gameOverTimer - 1)
  }

  /** The state just before the tick finds out whether the head is on the seed, and the old tail. */
  function Moved(s: State): State
    requires s.body != []
  {
    Advance(CountDown(s))
  }

  function OldTail(s: State): Cell
    requires s.body != []
  {
    var b := CountDown(s).body;
    b[|b| - 1]
  }

  /** One iteration of the game loop. `pick` is the seed that the random search would settle on. */
  function Tick(s: State, pick: Cell): State
    requires s.body != []
  {
    if s.gameOver then EndAnimation(s)
    else
      var moved := Moved(s);
      Bite(if Eats(moved) then Eat(moved, OldTail(s), pick) else moved)
  }

  /** What the search guarantees: a cell off the body, red or blue, whose coordinates may be 9 when
      the random number is at its maximum. */
  predicate SeedOk(pick: Cell, body: seq<Cell>) {
    1 <= pick.pos.x <= 9 && 1 <= pick.pos.y <= 9 && (pick.color == Red || pick.color == Blue)
    && !Collides(body, pick.pos, 0)
  }

  predicate PickOk(s: State, pick: Cell)
    requires s.body != []
  {
    !s.gameOver && Eats(Moved(s)) ==> SeedOk(pick, Fed(Moved(s), OldTail(s)))
  }

  // ---- Keys ----

  function Turn(d: Direction, note: int): Direction {
    var column := TruncMod(note, 10);
    if column > 8 || note > 100 then d
    else if d == N || d == S then (if column < 4 then W else if column > 5 then E else d)
    else (if note < 40 then S else if note > 50 then N else d)
  }

  function Opposite(d: Direction): Direction {
    match d case N => S case S => N case E => W case W => E
  }

  /** The notes of the 8 x 8 pads. */
  predicate OnPad(note: int) {
    11 <= note <= 88 && 1 <= note % 10 <= 8
  }

  /** What a key means, by row and column of the pads: a snake that moves vertically turns to the side of
      the pressed columns, the middle two excepted, and one that moves horizontally turns to the side
      of the pressed rows, the fourth row excepted. Keys right of the pads and above them do nothing. */
  lemma TurnByPad(d: Direction, row: int, column: int)
    requires 0 <= row <= 10 && 0 <= column <= 9
    ensures var t := Turn(d, 10 * row + column);
            if column == 9 || (row == 10 && column > 0) then t == d
            else if d == N || d == S then t == if column <= 3 then W else if column >= 6 then E else d
            else t == if row <= 3 then S else if row >= 6 || (row == 5 && column > 0) then N else d
  {
    TruncModNonNegative(10 * row + column, 10);
    ModUnique(10 * row + column, 10, column, row);
  }

  /** One key press never reverses the snake, but two pads pressed between two ticks can. */
  lemma KeysReverseOnlyTogether(d: Direction, note: int)
    ensures Turn(d, note) != Opposite(d)
    ensures exists a, b :: OnPad(a) && OnPad(b) && Turn(Turn(d, a), b) == Opposite(d)
  {
    assert OnPad(11) && OnPad(18) && OnPad(61);
    match d
    case N => assert Turn(Turn(N, 11), 11) == S;
    case S => assert Turn(Turn(S, 11), 61) == N;
    case E => assert Turn(Turn(E, 11), 11) == W;
    case W => assert Turn(Turn(W, 11), 18) == E;
  }

  // ---- Invariants ----

  predicate OnBoard(p: Pos) {
    1 <= p.x <= 8 && 1 <= p.y <= 8
  }

  predicate Near(a: nat, b: nat) {
    a == b + 1 || b == a + 1 || a == b + 7 || b == a + 7
  }

  /** Neighbours on the torus. */
  predicate Adjacent(a: Pos, b: Pos) {
    (a.x == b.x && Near(a.y, b.y)) || (a.y == b.y && Near(a.x, b.x))
  }

  ghost predicate Connected(body: seq<Cell>) {
    forall i :: 0 <= i < |body| - 1 ==> Adjacent(body[i].pos, body[i + 1].pos)
  }

  ghost predicate Apart(body: seq<Cell>, i: nat, j: nat) {
    i < |body| && j < |body| && body[i].pos != body[j].pos
  }

  ghost predicate Distinct(body: seq<Cell>, from: nat, to: nat) {
    forall i: nat, j: nat :: from <= i < j < to && j < |body| ==> Apart(body, i, j)
  }

  ghost predicate Colored(body: seq<Cell>, c: Color) {
    forall i :: 0 <= i < |body| ==> body[i].color == if i == 0 then Yellow else c
  }

  ghost predicate BodyInv(body: seq<Cell>) {
    && |body| >= 3
    && (forall i :: 0 <= i < |body| ==> OnBoard(body[i].pos))
    && Connected(body)
  }

  /** Outside game over only the tail may lie on another cell; during game over only the head may. */
  ghost predicate GameInv(s: State) {
    && BodyInv(s.body)
    && SeedOk(s.seed, s.body)
    && Colored(s.body, if s.powerUp then Blue else Green)
    && (s.powerUp ==> 1 <= s.powerUpTimer <= 20)
    && (!s.gameOver ==> Distinct(s.body, 0, |s.body| - 1))
    && (s.gameOver ==>
          Distinct(s.body, 1, |s.body|) && !s.powerUp && 0 <= s.gameOverTimer <= 20
          && (|s.body| > 3 ==> s.gameOverTimer == 20))
  }

  /** The lamps show the body and the seed; outside game over the tail may be dark, which it is
      for the tick after it has grown. */
  ghost predicate LampInv(s: State)
    requires s.body != []
  {
    && s.lit <= Places(s.body) + {s.seed.pos}
    && s.lit >= Places(if s.gameOver then s.body else s.body[..|s.body| - 1]) + {s.seed.pos}
  }

  // ---- Geometry ----

  lemma MoveIsAdjacent(p: Pos, d: Direction)
    requires OnBoard(p)
    ensures OnBoard(MovePos(p, d)) && Adjacent(MovePos(p, d), p)
  {
    assert p.x + 255 == 256 + (p.x - 1) && p.y + 255 == 256 + (p.y - 1);
  }

  /** A step on the torus, as a displacement modulo 8: north and south change y, east and west change x,
      and opposite directions undo each other. */
  lemma MoveDisplaces(p: Pos, d: Direction)
    requires OnBoard(p)
    ensures var q := MovePos(p, d);
            OnBoard(q)
            && (q.x - p.x) % 8 == (if d == E then 1 else if d == W then 7 else 0)
            && (q.y - p.y) % 8 == (if d == N then 1 else if d == S then 7 else 0)
            && MovePos(q, Opposite(d)) == p
  {
    NoStep(p.x);
    NoStep(p.y);
    match d
    case N => StepUp(p.y);
    case S => StepDown(p.y);
    case E => StepUp(p.x);
    case W => StepDown(p.x);
  }

  lemma NoStep(a: uint8)
    requires 1 <= a <= 8
    ensures Wrap(a) == a && (a - a) % 8 == 0
  {
  }

  lemma StepUp(a: uint8)
    requires 1 <= a <= 8
    ensures 1 <= Wrap(Inc(a)) <= 8 && (Wrap(Inc(a)) - a) % 8 == 1 && Wrap(Dec(Wrap(Inc(a)))) == a
  {
    ModUnique(Wrap(Inc(a)) - a, 8, 1, if a == 8 then -1 else 0);
    assert Wrap(Inc(a)) + 255 == 256 + (Wrap(Inc(a)) - 1);
  }

  lemma StepDown(a: uint8)
    requires 1 <= a <= 8
    ensures 1 <= Wrap(Dec(a)) <= 8 && (Wrap(Dec(a)) - a) % 8 == 7 && Wrap(Inc(Wrap(Dec(a)))) == a
  {
    assert a + 255 == 256 + (a - 1);
    ModUnique(Wrap(Dec(a)) - a, 8, 7, if a == 1 then 0 else -1);
  }

  lemma ShiftInv(body: seq<Cell>, d: Direction)
    requires BodyInv(body) && Distinct(body, 0, |body| - 1)
    ensures BodyInv(Shift(body, d)) && Distinct(Shift(body, d), 1, |body|)
  {
    var r := Shift(body, d);
    MoveIsAdjacent(body[0].pos, d);
    forall i | 0 <= i < |r|
      ensures OnBoard(r[i].pos)
    {
      if i > 0 { ShiftAt(body, d, i); }
    }
    forall i | 0 <= i < |r| - 1
      ensures Adjacent(r[i].pos, r[i + 1].pos)
    {
      ShiftAt(body, d, i + 1);
      if i > 0 {
        ShiftAt(body, d, i);
        assert Adjacent(body[i - 1].pos, body[i].pos);
      }
    }
    ShiftDistinct(body, d);
  }

  lemma ShiftDistinct(body: seq<Cell>, d: Direction)
    requires body != [] && Distinct(body, 0, |body| - 1)
    ensures Distinct(Shift(body, d), 1, |body|)
  {
    forall i: nat, j: nat | 1 <= i < j < |body|
      ensures Apart(Shift(body, d), i, j)
    {
      ShiftAt(body, d, i);
      ShiftAt(body, d, j);
      assert Apart(body, i - 1, j - 1);
    }
  }

  lemma ShiftColored(body: seq<Cell>, d: Direction, c: Color)
    requires body != [] && Colored(body, c)
    ensures Colored(Shift(body, d), c)
  {
    forall i | 0 < i < |body|
      ensures Shift(body, d)[i].color == c
    {
      ShiftAt(body, d, i);
    }
  }

  /** The places of the moved body are the new head and those of the old one without its tail. */
  lemma {:induction false} ShiftPlaces(body: seq<Cell>, d: Direction)
    requires body != []
    ensures Places(Shift(body, d)) == Places(body[..|body| - 1]) + {MovePos(body[0].pos, d)}
  {
    var n := |body| - 1;
    var front := body[..n];
    if n > 0 {
      ShiftPlaces(front, d);
      PlacesSnoc(Shift(front, d), Cell(body[n - 1].pos, body[n].color));
    } else {
      PlacesSnoc([], Cell(MovePos(body[0].pos, d), body[0].color));
    }
  }

  lemma PlacesSnoc(body: seq<Cell>, c: Cell)
    ensures Places(body + [c]) == Places(body) + {c.pos}
  {
    assert (body + [c])[..|body|] == body;
  }

  lemma {:induction false} PlaceOf(body: seq<Cell>, p: Pos)
    ensures p in Places(body) <==> Collides(body, p, 0)
  {
    if body != [] {
      var front, n := body[..|body| - 1], |body|;
      PlaceOf(front, p);
      if Collides(front, p, 0) {
        var i :| 0 <= i < n - 1 && front[i].pos == p;
        assert body[i].pos == p;
      }
      if Collides(body, p, 0) {
        var i :| 0 <= i < n && body[i].pos == p;
        assert i < n - 1 ==> front[i].pos == p;
      }
    }
  }

  lemma {:induction false} RecolorPlaces(body: seq<Cell>, c: Color)
    ensures Places(Recolor(body, c)) == Places(body)
  {
    if body != [] {
      var front := body[..|body| - 1];
      RecolorPlaces(front, c);
      assert Recolor(body, c)[..|body| - 1] == Recolor(front, c);
    }
  }

  lemma RecolorKeeps(body: seq<Cell>, c: Color)
    ensures BodyInv(body) ==> BodyInv(Recolor(body, c))
    ensures forall p, from: nat :: Collides(Recolor(body, c), p, from) <==> Collides(body, p, from)
  {
    var r := Recolor(body, c);
    assert forall i :: 0 <= i < |body| ==> r[i].pos == body[i].pos;
    forall p, from: nat
      ensures Collides(r, p, from) <==> Collides(body, p, from)
    {
      if Collides(body, p, from) {
        var i :| from <= i < |body| && body[i].pos == p;
        assert r[i].pos == p;
      }
    }
  }

  // ---- The invariants hold in every run ----

  lemma CountDownInv(s: State)
    requires GameInv(s) && !s.gameOver
    ensures GameInv(CountDown(s))
    ensures CountDown(s).lit == s.lit && CountDown(s).seed == s.seed && !CountDown(s).gameOver
    ensures |CountDown(s).body| == |s.body|
  {
    if s.powerUp && s.powerUpTimer == 1 {
      RecolorKeeps(s.body, Green);
      forall i: nat, j: nat | 0 <= i < j < |s.body| - 1
        ensures Apart(Recolor(s.body, Green), i, j)
      {
        assert Apart(s.body, i, j);
      }
    }
  }

  lemma CountDownLamps(s: State)
    requires GameInv(s) && !s.gameOver && LampInv(s)
    ensures GameInv(CountDown(s)) && LampInv(CountDown(s))
  {
    CountDownInv(s);
    var n := |s.body|;
    RecolorPlaces(s.body, Green);
    RecolorPlaces(s.body[..n - 1], Green);
    assert Recolor(s.body, Green)[..n - 1] == Recolor(s.body[..n - 1], Green);
  }

  /** After the move the head may lie anywhere, but the rest is free of overlaps and off the seed. */
  lemma AdvanceInv(s: State)
    requires GameInv(s) && !s.gameOver
    ensures var t := Advance(s);
            BodyInv(t.body) && Distinct(t.body, 1, |t.body|) && Colored(t.body, if s.powerUp then Blue else Green)
            && !Collides(t.body, s.seed.pos, 1)
  {
    ShiftInv(s.body, s.direction);
    ShiftColored(s.body, s.direction, if s.powerUp then Blue else Green);
    ShiftAvoids(s.body, s.direction, s.seed.pos);
  }

  lemma ShiftAvoids(body: seq<Cell>, d: Direction, p: Pos)
    requires body != [] && !Collides(body, p, 0)
    ensures !Collides(Shift(body, d), p, 1)
  {
    forall i | 1 <= i < |body|
      ensures Shift(body, d)[i].pos != p
    {
      ShiftAt(body, d, i);
      assert body[i - 1].pos != p;
    }
  }

  lemma LampSets(lit: set<Pos>, front: set<Pos>, last: Pos, head: Pos, seed: Pos)
    requires front + {seed} <= lit <= front + {last} + {seed} && seed != last
    ensures lit - {last} + (front + {head}) == front + {head} + {seed}
  {
  }

  lemma AdvancePlaces(body: seq<Cell>, d: Direction, lit: set<Pos>, seed: Pos)
    requires body != [] && seed != body[|body| - 1].pos
    requires Places(body[..|body| - 1]) + {seed} <= lit <= Places(body) + {seed}
    ensures lit - {body[|body| - 1].pos} + Places(Shift(body, d)) == Places(Shift(body, d)) + {seed}
  {
    ShiftPlaces(body, d);
    LampSets(lit, Places(body[..|body| - 1]), body[|body| - 1].pos, MovePos(body[0].pos, d), seed);
  }

  /** After the move the lamps are exactly right, whether or not the tail was dark before. */
  lemma AdvanceLamps(s: State)
    requires GameInv(s) && !s.gameOver && LampInv(s)
    ensures Advance(s).lit == Places(Advance(s).body) + {s.seed.pos}
  {
    assert s.body[|s.body| - 1].pos != s.seed.pos;
    LitAfterMove(s);
  }

  lemma LitAfterMove(s: State)
    requires s.body != [] && s.body[|s.body| - 1].pos != s.seed.pos
    requires Places(s.body[..|s.body| - 1]) + {s.seed.pos} <= s.lit <= Places(s.body) + {s.seed.pos}
    ensures Advance(s).lit == Places(Advance(s).body) + {s.seed.pos}
  {
    AdvancePlaces(s.body, s.direction, s.lit, s.seed.pos);
  }

  lemma FeedBlue(body: seq<Cell>, p: Pos)
    requires BodyInv(body) && Distinct(body, 1, |body|) && !Collides(body, body[0].pos, 1)
    requires Colored(body, Green) || Colored(body, Blue)
    ensures var fed := Recolor(body, Blue);
            BodyInv(fed) && Distinct(fed, 0, |fed| - 1) && Colored(fed, Blue) && !Collides(fed, fed[0].pos, 1)
  {
    RecolorKeeps(body, Blue);
    AllApart(body);
    forall i: nat, j: nat | 0 <= i < j < |body|
      ensures Apart(Recolor(body, Blue), i, j)
    {
      assert Apart(body, i, j);
    }
  }

  /** A head that meets nothing makes the whole body free of overlaps. */
  lemma AllApart(body: seq<Cell>)
    requires body != [] && Distinct(body, 1, |body|) && !Collides(body, body[0].pos, 1)
    ensures Distinct(body, 0, |body|)
  {
    forall i: nat, j: nat | 0 <= i < j < |body|
      ensures Apart(body, i, j)
    {
      if i > 0 { assert Apart(body, i, j); }
    }
  }

  /** Eating keeps the body free of overlaps: the seed was nowhere on it. */
  lemma EatInv(s: State, pick: Cell)
    requires GameInv(s) && !s.gameOver && Eats(Advance(s))
    requires SeedOk(pick, Fed(Advance(s), s.body[|s.body| - 1]))
    ensures var t := Eat(Advance(s), s.body[|s.body| - 1], pick);
            GameInv(t) && !t.gameOver && !Collides(t.body, t.body[0].pos, 1)
  {
    AdvanceInv(s);
    if s.seed.color == Blue {
      FeedBlue(Advance(s).body, s.seed.pos);
    } else {
      GrowInv(s);
    }
  }

  lemma EatLamps(s: State, pick: Cell)
    requires GameInv(s) && !s.gameOver && Eats(Advance(s)) && LampInv(s)
    ensures var t := Eat(Advance(s), s.body[|s.body| - 1], pick);
            t.body != [] && t.lit <= Places(t.body) + {pick.pos}
            && t.lit >= Places(t.body[..|t.body| - 1]) + {pick.pos}
            && (s.seed.color == Blue ==> t.lit == Places(t.body) + {pick.pos})
  {
    AdvanceLamps(s);
    FedLamps(Advance(s), s.body[|s.body| - 1], pick);
  }

  /** The eaten seed was under the head and stays lit, the new one is lit, and an added tail is not. */
  lemma FedLamps(m: State, last: Cell, pick: Cell)
    requires Eats(m) && m.lit == Places(m.body) + {m.seed.pos}
    ensures var t := Eat(m, last, pick);
            t.body != [] && t.lit <= Places(t.body) + {pick.pos}
            && t.lit >= Places(t.body[..|t.body| - 1]) + {pick.pos}
            && (m.seed.color == Blue ==> t.lit == Places(t.body) + {pick.pos})
  {
    HeadIsPlace(m.body);
    if m.seed.color == Blue {
      RecolorPlaces(m.body, Blue);
      FrontPlaces(Recolor(m.body, Blue));
    } else {
      assert (m.body + [last])[..|m.body|] == m.body;
    }
  }

  lemma HeadIsPlace(body: seq<Cell>)
    requires body != []
    ensures body[0].pos in Places(body)
  {
    PlaceOf(body, body[0].pos);
  }

  lemma FrontPlaces(body: seq<Cell>)
    requires body != []
    ensures Places(body[..|body| - 1]) <= Places(body)
  {
  }

  /** A body that does not meet its head, with a cell added behind its tail. */
  lemma GrowBody(m: seq<Cell>, last: Cell, c: Color)
    requires BodyInv(m) && Distinct(m, 1, |m|) && !Collides(m, m[0].pos, 1) && Colored(m, c)
    requires OnBoard(last.pos) && Adjacent(m[|m| - 1].pos, last.pos) && last.pos != m[0].pos && last.color == c
    ensures var body := m + [last];
            BodyInv(body) && Distinct(body, 0, |body| - 1) && !Collides(body, body[0].pos, 1) && Colored(body, c)
  {
    var body, n := m + [last], |m|;
    forall i | 0 <= i < |body| - 1
      ensures Adjacent(body[i].pos, body[i + 1].pos)
    {
      if i < n - 1 { assert Adjacent(m[i].pos, m[i + 1].pos); }
    }
    AllApart(m);
    forall i: nat, j: nat | 0 <= i < j < n
      ensures Apart(body, i, j)
    {
      assert Apart(m, i, j);
    }
  }

  lemma GrowInv(s: State)
    requires GameInv(s) && !s.gameOver && Eats(Advance(s))
    ensures var body := Advance(s).body + [s.body[|s.body| - 1]];
            BodyInv(body) && Distinct(body, 0, |body| - 1) && !Collides(body, body[0].pos, 1)
            && Colored(body, if s.powerUp then Blue else Green)
  {
    var n := |s.body|;
    AdvanceInv(s);
    assert Adjacent(s.body[n - 2].pos, s.body[n - 1].pos);
    assert s.body[n - 1].pos != s.seed.pos;
    GrowBody(Advance(s).body, s.body[n - 1], if s.powerUp then Blue else Green);
  }

  /** The cut ends at the cell that was bitten, which is at least the third. */
  lemma CutLength(body: seq<Cell>)
    requires BodyInv(body) && Collides(body, body[0].pos, 1)
    ensures |Cut(body)| >= 3
  {
    var j :| 1 <= j < |body| && body[j].pos == body[0].pos;
    assert j < |Cut(body)|;
    assert Adjacent(body[0].pos, body[1].pos);
    assert Cut(body)[|Cut(body)| - 1] == body[|Cut(body)| - 1];
  }

  lemma PrefixInv(body: seq<Cell>, r: seq<Cell>)
    requires BodyInv(body) && r <= body && |r| >= 3
    ensures BodyInv(r)
  {
    forall i | 0 <= i < |r| - 1
      ensures Adjacent(r[i].pos, r[i + 1].pos)
    {
      assert Adjacent(body[i].pos, body[i + 1].pos);
    }
  }

  lemma CutInv(body: seq<Cell>)
    requires BodyInv(body) && Distinct(body, 1, |body|) && Collides(body, body[0].pos, 1)
    ensures BodyInv(Cut(body)) && Distinct(Cut(body), 0, |Cut(body)| - 1)
  {
    var r := Cut(body);
    var last := |r| - 1;
    CutLength(body);
    PrefixInv(body, r);
    forall i: nat, k: nat | 0 <= i < k < last
      ensures Apart(r, i, k)
    {
      assert r[i] == body[i] && r[k] == body[k] && r[last] == body[last];
      assert if i == 0 then Apart(body, k, last) else Apart(body, i, k);
    }
  }

  lemma BiteInv(s: State)
    requires BodyInv(s.body) && Distinct(s.body, 1, |s.body|) && !s.gameOver
    requires SeedOk(s.seed, s.body) && Colored(s.body, if s.powerUp then Blue else Green)
    requires s.powerUp ==> 1 <= s.powerUpTimer <= 20
    ensures GameInv(Bite(s))
  {
    if !Collides(s.body, s.body[0].pos, 1) {
      AllApart(s.body);
    } else if s.powerUp {
      CutColored(s.body, s.seed);
    }
  }

  lemma CutColored(body: seq<Cell>, seed: Cell)
    requires BodyInv(body) && Distinct(body, 1, |body|) && Collides(body, body[0].pos, 1)
    requires SeedOk(seed, body) && Colored(body, Blue)
    ensures var r := Recolor(Cut(body), Green);
            BodyInv(r) && Distinct(r, 0, |r| - 1) && SeedOk(seed, r) && Colored(r, Green)
  {
    var cut := Cut(body);
    CutInv(body);
    RecolorKeeps(cut, Green);
    assert forall i :: 0 <= i < |cut| ==> cut[i] == body[i];
    forall i: nat, j: nat | 0 <= i < j < |cut| - 1
      ensures Apart(Recolor(cut, Green), i, j)
    {
      assert Apart(cut, i, j);
    }
  }

  lemma BiteLamps(s: State)
    requires s.body != [] && !s.gameOver && s.lit == Places(s.body) + {s.seed.pos}
    ensures Bite(s).lit == Places(Bite(s).body) + {s.seed.pos}
  {
    PlaceOf(s.body, s.body[0].pos);
    assert Collides(s.body, s.body[0].pos, 0);
  }

  lemma EndAnimationInv(s: State)
    requires GameInv(s) && s.gameOver
    ensures GameInv(EndAnimation(s))
  {
    var n := |s.body|;
    if n > 3 {
      var front := s.body[..n - 1];
      PrefixInv(s.body, front);
      forall i: nat, j: nat | 1 <= i < j < n - 1
        ensures Apart(front, i, j)
      {
        assert Apart(s.body, i, j);
      }
    } else {
      assert Adjacent(s.body[0].pos, s.body[1].pos);
    }
  }

  lemma TailIsElsewhereOnlyAsHead(body: seq<Cell>)
    requires |body| > 1 && Distinct(body, 1, |body|)
    ensures var last := body[|body| - 1].pos; last in Places(body[..|body| - 1]) <==> last == body[0].pos
  {
    var front, last := body[..|body| - 1], body[|body| - 1].pos;
    PlaceOf(front, last);
    if last == body[0].pos { assert front[0].pos == last; }
    if Collides(front, last, 0) {
      var i :| 0 <= i < |front| && front[i].pos == last;
      assert i > 0 ==> Apart(body, i, |body| - 1);
    }
  }

  /** Dropping the tail darkens its place unless the head is there too. */
  lemma TailDropped(body: seq<Cell>, lit: set<Pos>, seed: Pos)
    requires |body| > 1 && Distinct(body, 1, |body|) && seed != body[|body| - 1].pos
    requires lit == Places(body) + {seed}
    ensures var last := body[|body| - 1].pos;
            (if last != body[0].pos then lit - {last} else lit) == Places(body[..|body| - 1]) + {seed}
  {
    TailIsElsewhereOnlyAsHead(body);
  }

  lemma EndAnimationLamps(s: State)
    requires GameInv(s) && s.gameOver && LampInv(s)
    ensures LampInv(EndAnimation(s))
  {
    var n := |s.body|;
    if n > 3 {
      assert s.body[n - 1].pos != s.seed.pos;
      TailDropped(s.body, s.lit, s.seed.pos);
    }
  }

  /** A tick either eats or bites: on the seed there is nothing to bite. */
  lemma TickCases(s: State, pick: Cell)
    requires GameInv(s) && !s.gameOver && PickOk(s, pick)
    ensures Tick(s, pick) == if Eats(Moved(s)) then Eat(Moved(s), OldTail(s), pick) else Bite(Moved(s))
  {
    var c := CountDown(s);
    CountDownInv(s);
    if Eats(Advance(c)) {
      EatInv(c, pick);
      NothingToBite(Eat(Advance(c), OldTail(s), pick));
    }
  }

  lemma NothingToBite(t: State)
    requires t.body != [] && !Collides(t.body, t.body[0].pos, 1)
    ensures Bite(t) == t
  {
  }

  /** A head that has not arrived at the seed leaves the seed off the body. */
  lemma SeedStaysOff(c: State)
    requires GameInv(c) && !c.gameOver && !Eats(Advance(c))
    ensures SeedOk(c.seed, Advance(c).body)
  {
    AdvanceInv(c);
    OffBehindHead(Advance(c).body, c.seed.pos);
  }

  lemma OffBehindHead(body: seq<Cell>, p: Pos)
    requires body != [] && body[0].pos != p && !Collides(body, p, 1)
    ensures !Collides(body, p, 0)
  {
  }

  lemma BitesInv(c: State)
    requires GameInv(c) && !c.gameOver && !Eats(Advance(c))
    ensures GameInv(Bite(Advance(c)))
  {
    AdvanceInv(c);
    SeedStaysOff(c);
    BiteInv(Advance(c));
  }

  lemma PlayInv(s: State, pick: Cell)
    requires GameInv(s) && !s.gameOver && PickOk(s, pick)
    ensures GameInv(Tick(s, pick))
  {
    var c := CountDown(s);
    CountDownInv(s);
    TickCases(s, pick);
    if Eats(Advance(c)) {
      EatInv(c, pick);
      assert Tick(s, pick) == Eat(Advance(c), c.body[|c.body| - 1], pick);
    } else {
      BitesInv(c);
      assert Tick(s, pick) == Bite(Advance(c));
    }
  }

  lemma TickGame(s: State, pick: Cell)
    requires GameInv(s) && PickOk(s, pick)
    ensures GameInv(Tick(s, pick))
  {
    if s.gameOver {
      EndAnimationInv(s);
    } else {
      PlayInv(s, pick);
    }
  }

  lemma EatenLampInv(c: State, pick: Cell)
    requires GameInv(c) && !c.gameOver && Eats(Advance(c)) && LampInv(c)
    ensures var t := Eat(Advance(c), c.body[|c.body| - 1], pick); t.body != [] && LampInv(t)
  {
    EatLamps(c, pick);
  }

  lemma BittenLampInv(c: State)
    requires GameInv(c) && !c.gameOver && LampInv(c)
    ensures LampInv(Bite(Advance(c)))
  {
    AdvanceLamps(c);
    BiteLamps(Advance(c));
    ExactLamps(Bite(Advance(c)));
  }

  lemma PlayLamps(s: State, pick: Cell)
    requires GameInv(s) && !s.gameOver && PickOk(s, pick) && LampInv(s)
    ensures LampInv(Tick(s, pick))
  {
    var c := CountDown(s);
    CountDownLamps(s);
    CountDownInv(s);
    TickCases(s, pick);
    if Eats(Advance(c)) {
      EatenLampInv(c, pick);
      assert Tick(s, pick) == Eat(Advance(c), c.body[|c.body| - 1], pick);
    } else {
      BittenLampInv(c);
      assert Tick(s, pick) == Bite(Advance(c));
    }
  }

  lemma TickLamps(s: State, pick: Cell)
    requires GameInv(s) && PickOk(s, pick) && LampInv(s)
    ensures LampInv(Tick(s, pick))
  {
    if s.gameOver {
      EndAnimationLamps(s);
    } else {
      PlayLamps(s, pick);
    }
  }

  lemma ExactLamps(s: State)
    requires s.body != [] && s.lit == Places(s.body) + {s.seed.pos}
    ensures LampInv(s)
  {
  }

  /** Every tick keeps the game well-formed, and once the lamps are right they stay right. */
  lemma TickInv(s: State, pick: Cell)
    requires GameInv(s) && PickOk(s, pick)
    ensures GameInv(Tick(s, pick)) && (LampInv(s) ==> LampInv(Tick(s, pick)))
  {
    TickGame(s, pick);
    if LampInv(s) { TickLamps(s, pick); }
  }
}
