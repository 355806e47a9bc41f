/**
 * Concrete runs of the model on a 400 x 400 canvas (20 x 20 tiles).
 */
module Scenarios {
  import opened Optional
  import opened Grid
  import opened SnakeEntity
  import opened HighScores
  import opened Game

  const Canvas: Board := Board(400, 400)

  /** The first move of a fresh snake shifts every cell one tile right. */
  lemma FirstMove()
    ensures Init(Canvas).body == [Cell(200.0, 200.0), Cell(180.0, 200.0), Cell(160.0, 200.0)]
    ensures Update(Init(Canvas)).body == [Cell(220.0, 200.0), Cell(200.0, 200.0), Cell(180.0, 200.0)]
  {
  }

  /** A snake heading right from the last column hits the wall. */
  lemma RightWall()
    ensures var s := Session(Snake([Cell(380.0, 200.0), Cell(360.0, 200.0), Cell(340.0, 200.0)], Right, None),
                             Cell(0.0, 0.0), 3, 10, false, Some(200), Store(Some(10), []));
      var r := Tick(s, Canvas, FoodDraw(0, 0), None);
      && r.snake.body[0] == Cell(400.0, 200.0)
      && r.gameOver && r.timer == None && r.score == 3
  {
    var s := Session(Snake([Cell(380.0, 200.0), Cell(360.0, 200.0), Cell(340.0, 200.0)], Right, None),
                     Cell(0.0, 0.0), 3, 10, false, Some(200), Store(Some(10), []));
    assert Update(s.snake).body[0] == Cell(400.0, 200.0);
  }

  /** Eating the food at (100, 100): the score goes 0 to 1, the snake 3 to 4 cells, the food moves. */
  lemma EatFood()
    ensures var s := Session(Snake([Cell(80.0, 100.0), Cell(60.0, 100.0), Cell(40.0, 100.0)], Right, None),
                             Cell(100.0, 100.0), 0, 0, false, Some(200), Store(None, []));
      var r := Tick(s, Canvas, FoodDraw(7, 3), None);
      && r.score == 1 && |r.snake.body| == 4 && !r.gameOver
      && r.food == Cell(140.0, 60.0)
  {
    var s := Session(Snake([Cell(80.0, 100.0), Cell(60.0, 100.0), Cell(40.0, 100.0)], Right, None),
                     Cell(100.0, 100.0), 0, 0, false, Some(200), Store(None, []));
    assert Update(s.snake).body[0] == Cell(100.0, 100.0);
  }

  /** A game ending with 7 over a best of 5 records 7 and adds Ana's entry. */
  lemma NewBestRecorded()
    ensures var s := Session(Snake([Cell(380.0, 0.0), Cell(360.0, 0.0), Cell(340.0, 0.0)], Right, None),
                             Cell(0.0, 0.0), 7, 5, false, Some(100), Store(Some(5), [Entry("Bo", 5)]));
      var r := Tick(s, Canvas, FoodDraw(0, 0), Some("Ana"));
      && r.gameOver && r.highScore == 7
      && r.store == Store(Some(7), [Entry("Ana", 7), Entry("Bo", 5)])
  {
    var s := Session(Snake([Cell(380.0, 0.0), Cell(360.0, 0.0), Cell(340.0, 0.0)], Right, None),
                     Cell(0.0, 0.0), 7, 5, false, Some(100), Store(Some(5), [Entry("Bo", 5)]));
    assert Update(s.snake).body[0] == Cell(400.0, 0.0);
    var bo := Entry("Bo", 5);
    var ana := Entry("Ana", 7);
    assert [bo][..0] == [];
    assert SortByScore([bo]) == [bo];
    assert InsertPos([bo], ana) == 0;
    var ins := InsertByScore([bo], ana);
    assert ins[0] == ana && ins[1] == bo;
    assert ins == [ana, bo];
    UpdateTopScoresNamed([bo], "Ana", 7);
  }

  /**
   * A snake that ran into its own body, with the food just ahead of its
   * head. As written, a difficulty button pressed afterwards lets the
   * finished game eat, raise the best score and write a second leaderboard
   * entry; with the guarded button nothing happens.
   */
  const Bitten: Session := Session(
    Snake([Cell(100.0, 100.0), Cell(120.0, 100.0), Cell(120.0, 120.0), Cell(100.0, 120.0), Cell(100.0, 100.0)],
          Left, None),
    Cell(80.0, 100.0), 5, 5, true, None, Store(Some(5), [Entry("Ana", 5)]))

  lemma BittenIsValid()
    ensures Valid(Bitten, Canvas)
  {
    AlignedMultiple(4);
    AlignedMultiple(5);
    assert Bitten.food == Cell((4 * Tile) as real, (5 * Tile) as real);
  }

  lemma AsWrittenFinishedGameScores()
    ensures var r := TimerFire(SelectDifficultyAsWritten(Bitten, Hard), Canvas, FoodDraw(0, 0), Some("Ana"));
      && r.score == 6 && r.highScore == 6 && r.store.best == Some(6)
      && |r.store.top| == 2
  {
    var t := SelectDifficultyAsWritten(Bitten, Hard);
    assert Update(t.snake).body[0] == Cell(80.0, 100.0);
  }

  lemma GuardedFinishedGameStays()
    ensures TimerFire(SelectDifficulty(Bitten, Hard), Canvas, FoodDraw(0, 0), Some("Ana")) == Bitten
  {
  }
}
