/**
 * One game session: the snake, the food, the score, the best score, the
 * game-over flag, the repeating timer and the two records kept in browser
 * storage. A tick of the timer moves the snake and then checks collisions.
 */
module Game {
  import opened Optional
  import opened Grid
  import opened SnakeEntity
  import opened HighScores

  /**
   * The two stored records: the best score (None when it is missing or does
   * not read as a number) and the named leaderboard.
   */
  datatype Store = Store(best: Option<int>, top: seq<Entry>)

  datatype Difficulty = Easy | Medium | Hard

  /** Milliseconds between ticks. */
  function Period(d: Difficulty): nat {
    match d
    case Easy => 200
    case Medium => 100
    case Hard => 50
  }

  /** `timer` is the period of the running repeating timer, None once cleared. */
  datatype Session = Session(
    snake: Snake,
    food: Cell,
    score: nat,
    highScore: int,
    gameOver: bool,
    timer: Option<nat>,
    store: Store)

  /** The best score read back from storage; a missing or unreadable record reads as 0. */
  function LoadBest(best: Option<int>): int {
    match best
    case None => 0
    case Some(n) => n
  }

  /**
   * What every session reachable on a board satisfies. The last conjunct,
   * that a finished game has no running timer, holds only with the guarded
   * difficulty selection `SelectDifficulty`.
   */
  predicate Valid(s: Session, b: Board) {
    && |s.snake.body| >= 3
    && WellFormed(s.snake)
    && HeadLeads(s.snake)
    && Chained(s.snake.body)
    && Inside(s.food, b)
    && AlignedCell(s.food)
    && (s.gameOver ==> s.timer.None?)
  }

  /**
   * The set-up shared by page load and every start: a fresh snake, food at
   * the drawn cell, score 0, the best score read from storage and no game
   * over. The timer is left as given.
   */
  function Reset(b: Board, g: FoodDraw, store: Store, timer: Option<nat>): (s: Session)
    requires ValidDraw(g, b)
    ensures Valid(s, b)
    ensures s.snake == Init(b) && s.score == 0 && !s.gameOver
    ensures store.best.None? ==> s.highScore == 0
    ensures store.best.Some? ==> s.highScore == store.best.value
    ensures s.store == store && s.timer == timer
  {
    Session(Init(b), FoodCell(g, b), 0, LoadBest(store.best), false, timer, store)
  }

  /** Page load: the game is set up but no timer runs yet. */
  function PageLoad(b: Board, g: FoodDraw, store: Store): (s: Session)
    requires ValidDraw(g, b)
    ensures Valid(s, b) && s.timer == None && s.score == 0
    ensures !s.gameOver && s.snake == Init(b) && s.food == FoodCell(g, b)
    ensures s.highScore == LoadBest(store.best) && s.store == store
  {
    Reset(b, g, store, None)
  }

  /**
   * The start (and play-again) button: set up afresh, keep what storage
   * holds, and run the timer at the easy period whatever was selected before.
   */
  function Start(s: Session, b: Board, g: FoodDraw): (r: Session)
    requires ValidDraw(g, b)
    ensures Valid(r, b)
    ensures r.timer == Some(Period(Easy)) && !r.gameOver && r.score == 0
    ensures r.store == s.store
    ensures s.store.best == Some(s.highScore) ==> r.highScore == s.highScore
    ensures r.snake == Init(b) && r.food == FoodCell(g, b)
    ensures r.highScore == LoadBest(s.store.best)
  {
    Reset(b, g, s.store, Some(Period(Easy)))
  }

  /** An arrow key requests a turn; any other key does nothing. */
  function KeyDown(s: Session, key: string): (r: Session)
    ensures KeyDirection(key).None? ==> r == s
    ensures KeyDirection(key).Some? ==> r == s.(snake := ChangeDirection(s.snake, KeyDirection(key).value))
  {
    match KeyDirection(key)
    case None => s
    case Some(d) => s.(snake := ChangeDirection(s.snake, d))
  }

  /**
   * The self-collision scan from index `i` on, with `hit` the flag so far:
   * the flag ends up set exactly when it was set already or some cell from
   * `i` on is the head.
   */
  function SelfHit(body: seq<Cell>, head: Cell, i: nat, hit: bool): (r: bool)
    requires i <= |body|
    ensures r <==> hit || exists j :: i <= j < |body| && body[j] == head
    decreases |body| - i
  {
    if i == |body| then hit
    else SelfHit(body, head, i + 1, hit || body[i] == head)
  }

  /** The head has left the canvas or lies on another cell of the body. */
  predicate Collides(body: seq<Cell>, b: Board)
    requires |body| >= 1
  {
    || !Inside(body[0], b)
    || exists j :: 1 <= j < |body| && body[j] == body[0]
  }

  /** A game ending with a score above the best recorded so far. */
  predicate NewBest(before: Session, after: Session) {
    after.gameOver && after.score > before.highScore
  }

  /**
   * The per-tick check, in the game's order: the wall test, the scan over
   * the cells behind the head, the food test (made whether or not the game
   * has just ended), and finally, on game over, stopping the timer and
   * recording a new best score together with the prompted name.
   * `g` is the cell the food moves to if it is eaten; `name` is the answer
   * the name prompt would give.
   */
  function CheckCollisions(s: Session, b: Board, g: FoodDraw, name: Option<string>): (r: Session)
    requires |s.snake.body| >= 1
    requires ValidDraw(g, b)
    ensures r.gameOver <==> s.gameOver || Collides(s.snake.body, b)
    ensures s.snake.body[0] == s.food ==>
      r.score == s.score + 1 && r.snake == Grow(s.snake) && r.food == FoodCell(g, b)
    ensures s.snake.body[0] != s.food ==>
      r.score == s.score && r.snake == s.snake && r.food == s.food
    ensures r.gameOver ==> r.timer == None
    ensures !r.gameOver ==> r.timer == s.timer
    ensures r.highScore != s.highScore ==> NewBest(s, r) && r.highScore == r.score
    ensures NewBest(s, r) ==> r.highScore == r.score
    ensures r.highScore >= s.highScore
    ensures r.gameOver ==> r.highScore >= r.score
    ensures NewBest(s, r) ==>
      r.store == Store(Some(r.score), UpdateTopScores(s.store.top, name, r.score))
    ensures !NewBest(s, r) ==> r.store == s.store
  {
    var head := s.snake.body[0];
    var wall := !Inside(head, b);
    var over := SelfHit(s.snake.body, head, 1, s.gameOver || wall);
    var eats := head == s.food;
    var snake := if eats then Grow(s.snake) else s.snake;
    var food := if eats then FoodCell(g, b) else s.food;
    var score := if eats then s.score + 1 else s.score;
    if !over then
      Session(snake, food, score, s.highScore, false, s.timer, s.store)
    else if score > s.highScore then
      Session(snake, food, score, score, true, None,
              Store(Some(score), UpdateTopScores(s.store.top, name, score)))
    else
      Session(snake, food, score, s.highScore, true, None, s.store)
  }

  /** One firing of the timer: move the snake, then check. */
  function Tick(s: Session, b: Board, g: FoodDraw, name: Option<string>): (r: Session)
    requires |s.snake.body| >= 1
    requires ValidDraw(g, b)
    ensures |r.snake.body| == |s.snake.body| || |r.snake.body| == |s.snake.body| + 1
    ensures r.score == s.score || r.score == s.score + 1
    ensures |r.snake.body| == |s.snake.body| + 1 <==> r.score == s.score + 1
  {
    CheckCollisions(s.(snake := Update(s.snake)), b, g, name)
  }

  /**
   * One period of the repeating timer: while it runs, each firing is one
   * tick; once cleared, nothing happens.
   */
  function TimerFire(s: Session, b: Board, g: FoodDraw, name: Option<string>): (r: Session)
    requires |s.snake.body| >= 1
    requires ValidDraw(g, b)
    ensures s.timer.None? ==> r == s
    ensures s.timer.Some? ==> r == Tick(s, b, g, name)
  {
    if s.timer.Some? then Tick(s, b, g, name) else s
  }

  /**
   * A difficulty button as the game has it: the timer is restarted at the
   * chosen period in every state, a finished game included.
   */
  function SelectDifficultyAsWritten(s: Session, d: Difficulty): (r: Session)
    ensures r.timer == Some(Period(d))
    ensures r.(timer := s.timer) == s
  {
    s.(timer := Some(Period(d)))
  }

  /**
   * A difficulty button that changes the speed of a game in progress, or
   * starts one that has not ended, but leaves a finished game stopped.
   */
  function SelectDifficulty(s: Session, d: Difficulty): (r: Session)
    ensures s.gameOver ==> r == s
    ensures !s.gameOver ==> r.timer == Some(Period(d)) && r.(timer := s.timer) == s
  {
    if s.gameOver then s else s.(timer := Some(Period(d)))
  }

  // ---------------------------------------------------------------------
  // Properties of a tick
  // ---------------------------------------------------------------------

  /** The cell the head moves to on the next tick. */
  function NextHead(s: Snake): Cell
    requires |s.body| >= 1
  {
    Step(s.body[0], NextHeading(s))
  }

  /**
   * A tick ends the game exactly when the game had ended already, or the
   * head moves off the canvas, or onto a cell of the body other than the
   * last one (which moves away in the same tick).
   */
  lemma TickGameOver(s: Session, b: Board, g: FoodDraw, name: Option<string>)
    requires |s.snake.body| >= 1
    requires ValidDraw(g, b)
    ensures var h := NextHead(s.snake);
      Tick(s, b, g, name).gameOver <==>
        s.gameOver || !Inside(h, b) || h in s.snake.body[..|s.snake.body| - 1]
  {
    var moved := Update(s.snake);
    var h := NextHead(s.snake);
    var rest := s.snake.body[..|s.snake.body| - 1];
    assert moved.body[0] == h;
    if h in rest {
      var k :| 0 <= k < |rest| && rest[k] == h;
      assert moved.body[k + 1] == h;
    }
    if exists j :: 1 <= j < |moved.body| && moved.body[j] == moved.body[0] {
      var j :| 1 <= j < |moved.body| && moved.body[j] == moved.body[0];
      assert rest[j - 1] == h;
    }
  }

  /**
   * A tick eats exactly when the head moves onto the food: then the moved
   * snake grows by a copy of its new last cell, the score rises by one and
   * the food moves to the drawn cell; otherwise the snake only moves and
   * the food stays.
   */
  lemma TickEats(s: Session, b: Board, g: FoodDraw, name: Option<string>)
    requires |s.snake.body| >= 1
    requires ValidDraw(g, b)
    ensures var r := Tick(s, b, g, name);
      NextHead(s.snake) == s.food ==>
        && r.score == s.score + 1
        && r.snake == Grow(Update(s.snake))
        && |r.snake.body| == |s.snake.body| + 1
        && r.food == FoodCell(g, b)
    ensures var r := Tick(s, b, g, name);
      NextHead(s.snake) != s.food ==>
        && r.score == s.score
        && r.snake == Update(s.snake)
        && r.food == s.food
  {
  }

  /** Every tick keeps a session valid. */
  lemma TickPreservesValid(s: Session, b: Board, g: FoodDraw, name: Option<string>)
    requires Valid(s, b)
    requires ValidDraw(g, b)
    ensures Valid(Tick(s, b, g, name), b)
  {
    UpdatePreserves(s.snake);
    UpdateKeepsChain(s.snake);
    var moved := Update(s.snake);
    if moved.body[0] == s.food {
      GrowPreserves(moved);
      GrowKeepsChain(moved);
    }
  }

  /** A tick keeps a sorted leaderboard of at most ten entries so. */
  lemma TickKeepsLeaderboard(s: Session, b: Board, g: FoodDraw, name: Option<string>)
    requires |s.snake.body| >= 1
    requires ValidDraw(g, b)
    requires Bounded(s.store.top)
    ensures Bounded(Tick(s, b, g, name).store.top)
  {
  }

  /**
   * A head that leaves the canvas eats nothing: food always lies on the
   * canvas, so the food test that runs after the wall test cannot succeed.
   */
  lemma WallTickEatsNothing(s: Session, b: Board, g: FoodDraw, name: Option<string>)
    requires Valid(s, b)
    requires ValidDraw(g, b)
    requires !Inside(NextHead(s.snake), b)
    ensures Tick(s, b, g, name).score == s.score
    ensures Tick(s, b, g, name).gameOver
  {
    TickGameOver(s, b, g, name);
  }

  /**
   * A head off the tile lattice stays off it and never reaches the food,
   * which always lies on the lattice. The first head sits at half the canvas
   * size, so on a canvas whose half-width or half-height is not a multiple
   * of the tile size the snake can never eat.
   */
  lemma MisalignedSnakeStarves(s: Session, b: Board, g: FoodDraw, name: Option<string>)
    requires Valid(s, b)
    requires ValidDraw(g, b)
    requires !AlignedCell(s.snake.body[0])
    ensures Tick(s, b, g, name).score == s.score
    ensures !AlignedCell(Tick(s, b, g, name).snake.body[0])
  {
    StepKeepsAlignment(s.snake.body[0], NextHeading(s.snake));
    var r := Tick(s, b, g, name);
    assert r.snake.body[0] == NextHead(s.snake);
  }

  /** A key press keeps a session valid. */
  lemma KeyDownPreservesValid(s: Session, b: Board, key: string)
    requires Valid(s, b)
    ensures Valid(KeyDown(s, key), b)
  {
  }

  // ---------------------------------------------------------------------
  // Difficulty selection after the game has ended
  // ---------------------------------------------------------------------

  /**
   * As written, a difficulty button pressed after the game has ended
   * restarts the timer, and its next firing moves the finished snake one
   * more tile.
   */
  lemma AsWrittenResumesFinishedGame(
    s: Session, b: Board, g: FoodDraw, name: Option<string>, d: Difficulty)
    requires Valid(s, b) && s.gameOver
    requires ValidDraw(g, b)
    ensures !Valid(SelectDifficultyAsWritten(s, d), b)
    ensures TimerFire(SelectDifficultyAsWritten(s, d), b, g, name).snake.body[0] == NextHead(s.snake)
    ensures TimerFire(SelectDifficultyAsWritten(s, d), b, g, name).snake.body[0] != s.snake.body[0]
  {
    var t := SelectDifficultyAsWritten(s, d);
    var r := TimerFire(t, b, g, name);
    assert r == Tick(t, b, g, name);
    assert r.snake.body[0] == Update(s.snake).body[0];
  }

  /**
   * With the guarded button a finished game stays as it ended: pressing a
   * difficulty button changes nothing and the timer does not fire.
   */
  lemma FinishedGameStaysStopped(
    s: Session, b: Board, g: FoodDraw, name: Option<string>, d: Difficulty)
    requires Valid(s, b) && s.gameOver
    requires ValidDraw(g, b)
    ensures Valid(SelectDifficulty(s, d), b)
    ensures TimerFire(SelectDifficulty(s, d), b, g, name) == s
  {
  }

  /** The guarded button keeps every session valid. */
  lemma SelectDifficultyPreservesValid(s: Session, b: Board, d: Difficulty)
    requires Valid(s, b)
    ensures Valid(SelectDifficulty(s, d), b)
  {
  }
}
