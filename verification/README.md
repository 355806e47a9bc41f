# Snake game — a Dafny model of its game logic

This project models the logic of a browser Snake game. A snake moves one tile per timer tick on a grid of 20-pixel tiles. It grows when it eats the food. It dies when its head leaves the canvas or lands on its own body. When a game ends with a new best score, the player's name and score go into a top-ten leaderboard.

The model is sequential and functional. Every piece of state is an immutable value, and every operation is a pure function:

- `Grid`: cells in pixel coordinates, the four headings, one-tile steps, and food placement.
- `SnakeEntity`: the snake. Its operations are `Init`, `Update` (one move), `ChangeDirection` (a turn request) and `Grow`.
- `HighScores`: the leaderboard update. It pushes the new entry, sorts stably by descending score, and pops once past ten.
- `Game`: the session. It holds the snake, food, score, best score, game-over flag, timer and the two stored records. Its operations are the per-tick `CheckCollisions`, the `Tick` (move, then check), `Start`, key presses and the difficulty buttons.
- `Scenarios`: concrete runs on a 400 x 400 canvas.

Inputs the game takes from its environment become parameters:

- The canvas size is a `Board`.
- The two random numbers of a food placement are a `FoodDraw` of a column and a row index.
- The answer to the name prompt is an `Option<string>`. `None` is a cancelled prompt.
- The values read from browser storage are a `Store`.

Coordinates are real numbers. The first head sits at half the canvas size, which is not whole when a canvas dimension is odd. Every move adds or subtracts exactly 20.

Three behaviours of the code that a reader might not expect:

- The leaderboard pops at most one entry per update. A stored list that is already longer than ten stays longer than ten. Only lists of at most ten entries stay within the bound (`HighScores.LengthBound`).
- The sort is stable and the new entry is pushed last. So a new score that ties the lowest of ten stored scores is dropped, not only a new score that is strictly lowest (`HighScores.DroppedWhenLowest`).
- The food test runs even on a tick that ends the game. If the food lies on a body cell, a self-collision can still eat and score.

## Model

| member | source | states |
|---|---|---|
| Grid.Opposite | script.js:75-80 | the reverse of a heading differs from it and lies on the same axis |
| Grid.Step | script.js:53-68 | a move changes exactly one coordinate by exactly one tile; right/down increase x/y, left/up decrease them |
| Grid.StepOpposite | script.js:53-80 | a step followed by a step in the opposite heading returns to the starting cell |
| Grid.StepInjective | script.js:53-68 | two headings lead to the same cell only if they are the same heading |
| Grid.StepKeepsAlignment | script.js:53-68 | a step keeps a cell on the tile lattice, and keeps a cell that is off the lattice off it |
| Grid.FoodCell | script.js:98-103 | a food placement is tile-aligned and on the canvas, at the drawn column and row |
| Grid.FoodCellCovers | script.js:98-103 | every tile-aligned cell on the canvas is the placement of some draw |
| SnakeEntity.Init | script.js:37-45 | a fresh snake has three cells in a row with the head at the canvas centre, heads right, has nothing pending, and is well formed |
| SnakeEntity.Update | script.js:47-72 | a move keeps the length, applies and clears the pending heading, puts the head one step ahead, and shifts the old body back one place, dropping the last cell |
| SnakeEntity.ChangeDirection | script.js:74-85 | a request for the reverse of the current heading changes nothing; any other request replaces the pending heading; body and heading are never touched |
| SnakeEntity.Grow | script.js:87-90 | growth adds exactly one cell, a copy of the last one, and leaves all earlier cells and the headings unchanged |
| SnakeEntity.KeyDirection | script.js:121-136 | each arrow key requests its heading, and only that key does |
| SnakeEntity.UpdatePreserves | script.js:47-72 | a move keeps the snake well formed and puts the head one step ahead of the neck |
| SnakeEntity.NoReversal | script.js:47-85 | the heading after a move is never the reverse of the heading before it |
| SnakeEntity.NeverBitesNeck | script.js:47-85 | a well-formed snake never moves its head onto its neck |
| SnakeEntity.UpdateKeepsChain | script.js:53-71 | a move keeps every cell touching the next |
| SnakeEntity.GrowKeepsChain | script.js:87-90 | growth keeps every cell touching the next |
| SnakeEntity.GrowPreserves | script.js:87-90 | growth keeps a snake of two or more cells well formed with its head ahead of its neck |
| SnakeEntity.GrowThenUpdate | script.js:53-90 | the move after a growth keeps the whole old body behind the new head |
| SnakeEntity.ChangeDirectionPreserves | script.js:74-85 | a turn request keeps the snake well formed |
| SnakeEntity.LastRequestWins | script.js:74-85 | of two requests before a move, the later one wins when it is accepted; a repeated request acts once |
| HighScores.InsertPos | script.js:237 | the stable insertion position follows every entry scoring at least as much and precedes the first entry scoring less |
| HighScores.InsertByScore | script.js:237 | insertion adds exactly the new entry at its stable position, keeps the entries before it, shifts the rest back one place, and keeps a sorted list sorted |
| HighScores.InsertKeepsSorted | script.js:237 | inserting at the stable position keeps a descending list descending |
| HighScores.SortByScore | script.js:237 | the sort returns a permutation of its input in descending order of score |
| HighScores.UpdateTopScores | script.js:231-241 | without a name the list is unchanged; otherwise the result is sorted, one longer unless the list already had ten, holds exactly the old entries plus the new one when there was room, and a sorted list of at most ten stays so |
| HighScores.UpdateTopScoresNamed | script.js:235-241 | with a name, the update inserts the new entry into the sorted list and pops the last entry once past ten |
| HighScores.SortPushed | script.js:236-237 | sorting a list with an entry pushed on the end inserts that entry into the sorted list |
| HighScores.InsertBeforeEnd | script.js:237 | an entry scoring above some entry of the list is inserted before the end |
| HighScores.PopAfterInsert | script.js:237-241 | after an insertion before the end, popping the last entry keeps the new entry and removes the lowest old entry |
| HighScores.KeptWhenRoom | script.js:235-241 | when the stored list had fewer than ten entries, the new entry is kept |
| HighScores.KeptWhenOutranks | script.js:235-241 | in a full list, the new entry is kept when some stored entry scores less; the entry popped is then the lowest stored entry, and every kept entry scores at least as much |
| HighScores.DroppedWhenLowest | script.js:235-241 | in a full list where every stored entry scores at least as much as the new one, the new entry is the one popped, ties included |
| HighScores.InsertAtEnd | script.js:237 | an entry scoring no more than every entry of the list is inserted at the end |
| HighScores.LengthBound | script.js:239-241 | with a name, the result has at most ten entries exactly when the stored list had at most ten |
| Game.Reset | script.js:114-119 | set-up gives a fresh snake, food on the canvas, score 0, no game over, and the stored best score (0 when missing) |
| Game.PageLoad | script.js:110-119 | the page loads a valid session with no timer running: a fresh snake, food at the drawn cell, score 0, no game over, the stored best score (0 when missing) and the stored records as read |
| Game.Start | script.js:110-150 | start sets up a valid fresh game (a fresh snake, food at the drawn cell, score 0, no game over), re-reads the best score from storage whatever the session held, keeps the stored records, and runs the timer at the easy period |
| Game.KeyDown | script.js:121-136 | an arrow key passes its heading to the turn request; any other key changes nothing |
| Game.SelfHit | script.js:185-189 | the scan sets the flag exactly when it was set or some cell from the start index on equals the head |
| Game.CheckCollisions | script.js:173-209 | the game is over exactly when it already was, the head is off the canvas, or the head equals a later body cell; eating adds 1 to the score, grows the snake and moves the food, and not eating changes none of them; the best score changes only on game over with a higher score and then becomes that score; the stored records change exactly then |
| Game.Tick | script.js:152-156 | a tick keeps or adds one to both the length and the score, and the length grows exactly when the score does |
| Game.TimerFire | script.js:146-156 | while the timer runs, a firing is exactly one tick (move, then check); a stopped timer changes nothing |
| Game.SelectDifficultyAsWritten | script.js:12-34 | a difficulty button restarts the timer at its period and changes nothing else, in every state |
| Game.SelectDifficulty | script.js:12-34 | corrected button: a finished game is left as it is; otherwise only the timer changes |
| Game.TickGameOver | script.js:152-189 | a tick ends the game exactly when it had ended, or the next head is off the canvas, or the next head lies on a body cell other than the last |
| Game.TickEats | script.js:152-196 | a tick eats exactly when the next head is the food cell: score +1, length +1, food at the drawn cell; otherwise only the snake moves |
| Game.TickPreservesValid | script.js:152-196 | a tick keeps a valid session valid |
| Game.TickKeepsLeaderboard | script.js:198-205 | a tick keeps a sorted leaderboard of at most ten entries so |
| Game.WallTickEatsNothing | script.js:173-196 | a tick whose head leaves the canvas ends the game and does not score |
| Game.MisalignedSnakeStarves | script.js:191-196 | a head off the tile lattice stays off it and never scores |
| Game.KeyDownPreservesValid | script.js:121-136 | a key press keeps a session valid |
| Game.AsWrittenResumesFinishedGame | script.js:12-34 | as written, a difficulty button breaks the finished-game invariant, and the next firing moves the finished snake |
| Game.FinishedGameStaysStopped | script.js:12-34 | with the corrected button, a finished game stays valid and the timer does not fire |
| Game.SelectDifficultyPreservesValid | script.js:12-34 | the corrected button keeps every session valid |
| Scenarios.FirstMove | script.js:36-72 | on a 400 x 400 canvas the first move shifts [(200,200),(180,200),(160,200)] to [(220,200),(200,200),(180,200)] |
| Scenarios.RightWall | script.js:173-183 | a head moving right from x = 380 reaches x = 400 and ends the game |
| Scenarios.EatFood | script.js:191-196 | eating the food at (100,100) raises the score from 0 to 1 and the length from 3 to 4, and moves the food |
| Scenarios.NewBestRecorded | script.js:198-241 | a game ending with 7 over a best of 5 stores 7 and puts Ana's entry first |
| Scenarios.BittenIsValid | script.js:173-189 | the self-collision state used below is a valid finished session |
| Scenarios.AsWrittenFinishedGameScores | script.js:12-34 | as written, a finished game resumed by a difficulty button scores, raises the best score and writes a second leaderboard entry |
| Scenarios.GuardedFinishedGameStays | script.js:12-34 | with the corrected button, the same finished game does not change |

## Findings

| source | as written | input that shows it | evidently intended | confidence | as-written member | corrected member |
|---|---|---|---|---|---|---|
| script.js:12-34 | each difficulty button clears and restarts the repeating timer in every state, even after the game has ended | a game ended by self-collision, with the food one tile ahead of the head; then press any difficulty button | a finished game stays stopped until it is started again; a button only changes the speed of a running game | medium, not executed (the page layout is not part of this model, and it decides whether the buttons can be reached after a game ends) | Game.AsWrittenResumesFinishedGame | Game.FinishedGameStaysStopped |

With the as-written button, each press moves the finished snake one more tile. The collision check then ends the game again. On the way, the snake can eat: the score rises, the best score rises, and the name prompt writes another leaderboard entry (`Scenarios.AsWrittenFinishedGameScores`). The corrected `Game.SelectDifficulty` leaves a finished game unchanged. `Game.Valid` includes "a finished game has no running timer", and that invariant holds only with the corrected button.

## Left out

- Canvas drawing, the score and best-score text, the leaderboard list display and the game-over popup are left out. They are presentation only.
- Event listeners are left out, including their repeated registration on every start. A repeated `changeDirection` call has the effect of one (`SnakeEntity.LastRequestWins`). The repeated start handlers are not modelled.
- The timer is reduced to its period, or None once cleared. A tick is one call of `Game.Tick`; real time is not modelled.
- Browser storage, JSON and `parseInt` are left out. The stored best score is an `Option<int>` in which a missing or non-numeric record is `None`, and the stored leaderboard is a sequence of entries. Malformed JSON is not modelled.
- `Math.random` is left out. Food placement takes the drawn column and row as a `FoodDraw`. Its validity condition is exactly the range of `Math.floor(Math.random() * (canvas.width / tileSize))`.
- The name prompt is left out. Its answer is a parameter; `None` is a cancelled prompt, and an empty name is skipped like `null`.
- Floating point is left out. Coordinates are exact reals. The game's values are multiples of one half and well within double precision, so nothing is lost.
- The sort is modelled as a stable insertion sort. `Array.prototype.sort` is required to be stable, and any stable sort returns the same list.
- HighScores.SortByScore: its contract states a descending permutation. Stability is proved only for the newly pushed entry (`HighScores.InsertPos`), not for ties among stored entries.
- SnakeEntity.Update, SnakeEntity.Grow, Game.CheckCollisions and Game.Tick require at least one body cell. The game's snake always has at least three cells (`Game.Valid`), and the source would fail on an empty body.
- SnakeEntity.GrowPreserves requires two or more cells. On a one-cell snake, growth would put the neck on the head. No reachable snake has one cell.
