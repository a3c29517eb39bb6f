/** The rules of the game, told from the state before a tick. */
module SnakeRules {
  import opened Snake
  import opened SnakePage

  function Head(s: State): Pos
    requires s.body != []
  {
    MovePos(s.body[0].pos, s.direction)
  }

  lemma CountDownPlaces(s: State, i: nat)
    requires i < |s.body|
    ensures |CountDown(s).body| == |s.body| && CountDown(s).body[i].pos == s.body[i].pos
  {
  }

  /** After the move every cell behind the head is where the one before it was. */
  lemma MovedPlaces(s: State, i: nat)
    requires GameInv(s) && !s.gameOver && 0 < i < |s.body|
    ensures |Moved(s).body| == |s.body| && Moved(s).body[i].pos == s.body[i - 1].pos
  {
    CountDownPlaces(s, i - 1);
    ShiftAt(CountDown(s).body, s.direction, i);
  }

  lemma BitePlaces(m: State, i: nat)
    requires m.body != [] && i < |Bite(m).body|
    ensures i < |m.body| && Bite(m).body[i].pos == m.body[i].pos
  {
  }

  lemma EatPlaces(m: State, last: Cell, pick: Cell, i: nat)
    requires m.body != [] && i < |Eat(m, last, pick).body|
    ensures Eat(m, last, pick).body[i].pos == if i < |m.body| then m.body[i].pos else last.pos
  {
  }

  /** Every cell behind the head takes the place of the one before it, also a cell that has grown, and
      also when the rest is bitten off. */
  lemma TickFollows(s: State, pick: Cell, i: nat)
    requires GameInv(s) && !s.gameOver && PickOk(s, pick) && 0 < i < |Tick(s, pick).body|
    ensures i <= |s.body| && Tick(s, pick).body[i].pos == s.body[i - 1].pos
  {
    var n := |s.body|;
    TickCases(s, pick);
    MovedPlaces(s, n - 1);
    if i < n { MovedPlaces(s, i); }
    CountDownPlaces(s, n - 1);
    if Eats(Moved(s)) {
      EatPlaces(Moved(s), OldTail(s), pick, i);
    } else {
      BitePlaces(Moved(s), i);
    }
  }

  lemma CutAtBite(r: seq<Cell>, k: nat)
    requires r != [] && Distinct(r, 1, |r|) && 0 < k < |r| && r[k].pos == r[0].pos
    ensures |Cut(r)| == k + 1
  {
    var last := |Cut(r)| - 1;
    assert Cut(r)[last] == r[last];
    assert last >= k;
    assert last > k ==> Apart(r, k, last);
  }

  /** A powered snake that runs into its cell `j` keeps its head, the cells up to that one, and no
      more. */
  lemma PoweredBite(s: State, pick: Cell, j: nat)
    requires GameInv(s) && !s.gameOver && PickOk(s, pick) && Powered(s)
    requires j < |s.body| - 1 && s.body[j].pos == Head(s)
    ensures |Tick(s, pick).body| == j + 2 && !Tick(s, pick).gameOver && !Tick(s, pick).powerUp
  {
    var c, r := CountDown(s), Moved(s).body;
    assert RunsInto(s.body, Head(s));
    TickMeans(s, pick);
    CountDownInv(s);
    CountDownMeets(s, Head(s));
    AdvanceInv(c);
    MovedPlaces(s, j + 1);
    TickCases(s, pick);
    assert s.body[j].pos != s.seed.pos;
    CutAtBite(r, j + 1);
    assert Collides(r, r[0].pos, 1);
  }

  // ---- How long a power-up lasts ----

  /** The tick eats no blue seed and meets nothing. */
  predicate QuietTick(s: State)
    requires s.body != []
  {
    !s.gameOver && !(Head(s) == s.seed.pos && s.seed.color == Blue) && !RunsInto(s.body, Head(s))
  }

  lemma PowerCounts(s: State, pick: Cell)
    requires GameInv(s) && PickOk(s, pick) && QuietTick(s)
    ensures var t := Tick(s, pick);
            !t.gameOver && (t.powerUp <==> Powered(s)) && (t.powerUp ==> t.powerUpTimer == s.powerUpTimer - 1)
  {
    TickMeans(s, pick);
    TickCases(s, pick);
    CountDownMeets(s, Head(s));
    CountDownInv(s);
    ShiftMeets(CountDown(s).body, s.direction);
  }

  ghost predicate Quiet(s: State, run: seq<Step>)
    requires IsRun(s, run)
    decreases |run|
  {
    run == [] || ((run[0].ATick? ==> QuietTick(s)) && Quiet(Do(s, run[0]), run[1..]))
  }

  function Ticks(run: seq<Step>): nat {
    if run == [] then 0 else (if run[0].ATick? then 1 else 0) + Ticks(run[1..])
  }

  /** Along a quiet run the power-up is counted down by the ticks alone, whatever keys are pressed. */
  lemma {:induction false} PowerLasts(s: State, run: seq<Step>)
    requires GameInv(s) && s.powerUp && !s.gameOver && IsRun(s, run) && Quiet(s, run)
    ensures var t := After(s, run);
            (t.powerUp <==> Ticks(run) < s.powerUpTimer)
            && (t.powerUp ==> t.powerUpTimer == s.powerUpTimer - Ticks(run))
    decreases |run|
  {
    if run != [] {
      var t := Do(s, run[0]);
      if run[0].ATick? {
        TickGame(s, run[0].pick);
        PowerCounts(s, run[0].pick);
      }
      if t.powerUp { PowerLasts(t, run[1..]); } else { NoPower(t, run[1..]); }
    }
  }

  lemma {:induction false} NoPower(s: State, run: seq<Step>)
    requires GameInv(s) && !s.powerUp && IsRun(s, run) && Quiet(s, run)
    ensures !After(s, run).powerUp
    decreases |run|
  {
    if run != [] {
      if run[0].ATick? {
        TickGame(s, run[0].pick);
        PowerCounts(s, run[0].pick);
      }
      NoPower(Do(s, run[0]), run[1..]);
    }
  }

  /** A blue seed protects the snake in the next 19 ticks and not in the 20th, in which the power-up runs
      out before the snake moves. */
  lemma BluePower(s: State, pick: Cell, run: seq<Step>)
    requires GameInv(s) && !s.gameOver && PickOk(s, pick) && Head(s) == s.seed.pos && s.seed.color == Blue
    requires IsRun(Tick(s, pick), run) && Quiet(Tick(s, pick), run)
    ensures Powered(After(Tick(s, pick), run)) <==> Ticks(run) < 19
  {
    TickMeans(s, pick);
    TickGame(s, pick);
    TickCases(s, pick);
    AheadNotHit(s);
    PowerLasts(Tick(s, pick), run);
  }

  lemma AheadNotHit(s: State)
    requires GameInv(s) && Head(s) == s.seed.pos
    ensures !RunsInto(s.body, Head(s))
  {
  }
}
