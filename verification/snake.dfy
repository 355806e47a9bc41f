/**
 * The snake: its body (head first), its current heading and at most one
 * pending heading that the next move applies.
 */
module SnakeEntity {
  import opened Optional
  import opened Grid

  datatype Snake = Snake(body: seq<Cell>, direction: Direction, pending: Option<Direction>)

  /**
   * What every reachable snake satisfies: it has a head, and a pending
   * heading is never the reverse of the current one.
   */
  predicate WellFormed(s: Snake) {
    && |s.body| >= 1
    && (s.pending.Some? ==> s.pending.value != Opposite(s.direction))
  }

  /**
   * The head sits one tile ahead of the neck in the current heading
   * (vacuous for a one-cell snake).
   */
  predicate HeadLeads(s: Snake) {
    |s.body| >= 2 ==> s.body[0] == Step(s.body[1], s.direction)
  }

  /** Each cell touches the next one, or coincides with it after a growth. */
  predicate Chained(body: seq<Cell>) {
    forall i :: 0 <= i < |body| - 1 ==> Touches(body[i], body[i + 1])
  }

  predicate Touches(a: Cell, b: Cell) {
    a == b || a == Step(b, Up) || a == Step(b, Down) || a == Step(b, Left) || a == Step(b, Right)
  }

  /**
   * A fresh snake: three cells in a row ending at the centre of the canvas,
   * heading right, with nothing pending.
   */
  function Init(b: Board): (s: Snake)
    ensures |s.body| == 3
    ensures s.body[0] == Cell(b.width as real / 2.0, b.height as real / 2.0)
    ensures forall i :: 0 <= i < 2 ==> s.body[i] == Step(s.body[i + 1], Right)
    ensures s.direction == Right && s.pending == None
    ensures WellFormed(s) && HeadLeads(s) && Chained(s.body)
  {
    var cx := b.width as real / 2.0;
    var cy := b.height as real / 2.0;
    Snake([Cell(cx, cy), Cell(cx - Tile as real, cy), Cell(cx - 2.0 * Tile as real, cy)], Right, None)
  }

  /** The heading the next move will use. */
  function NextHeading(s: Snake): Direction {
    if s.pending.Some? then s.pending.value else s.direction
  }

  /**
   * One move: apply the pending heading, put a new head one tile ahead on
   * the front of the body and drop the last cell.
   */
  function Update(s: Snake): (r: Snake)
    requires |s.body| >= 1
    ensures |r.body| == |s.body|
    ensures r.pending == None
    ensures s.pending.Some? ==> r.direction == s.pending.value
    ensures s.pending.None? ==> r.direction == s.direction
    ensures r.body[0] == Step(s.body[0], r.direction)
    ensures r.body[1..] == s.body[..|s.body| - 1]
  {
    var heading := NextHeading(s);
    var moved := [Step(s.body[0], heading)] + s.body;
    Snake(moved[..|moved| - 1], heading, None)
  }

  /**
   * A turn request: it becomes the pending heading unless it reverses the
   * CURRENT heading (the pending one plays no part), and it replaces any
   * earlier pending heading.
   */
  function ChangeDirection(s: Snake, d: Direction): (r: Snake)
    ensures r.body == s.body && r.direction == s.direction
    ensures d == Opposite(s.direction) ==> r.pending == s.pending
    ensures d != Opposite(s.direction) ==> r.pending == Some(d)
  {
    if d != Opposite(s.direction) then s.(pending := Some(d)) else s
  }

  /** Growth: a copy of the tail cell goes on the end of the body. */
  function Grow(s: Snake): (r: Snake)
    requires |s.body| >= 1
    ensures |r.body| == |s.body| + 1
    ensures r.body[..|s.body|] == s.body
    ensures r.body[|s.body|] == s.body[|s.body| - 1]
    ensures r.direction == s.direction && r.pending == s.pending
  {
    var tail := s.body[|s.body| - 1];
    s.(body := s.body + [tail])
  }

  /** The arrow keys and the headings they request; other keys request nothing. */
  function KeyDirection(key: string): (r: Option<Direction>)
    ensures r == Some(Up) <==> key == "ArrowUp"
    ensures r == Some(Down) <==> key == "ArrowDown"
    ensures r == Some(Left) <==> key == "ArrowLeft"
    ensures r == Some(Right) <==> key == "ArrowRight"
  {
    match key
    case "ArrowUp" => Some(Up)
    case "ArrowDown" => Some(Down)
    case "ArrowLeft" => Some(Left)
    case "ArrowRight" => Some(Right)
    case _ => None
  }

  // ---------------------------------------------------------------------
  // Properties of the operations
  // ---------------------------------------------------------------------

  /** Moving keeps the snake well formed and its head ahead of its neck. */
  lemma UpdatePreserves(s: Snake)
    requires WellFormed(s)
    ensures WellFormed(Update(s)) && HeadLeads(Update(s))
  {
  }

  /**
   * A well-formed snake never reverses in one move: the heading after a
   * move is never the opposite of the heading before it.
   */
  lemma NoReversal(s: Snake)
    requires WellFormed(s)
    ensures Update(s).direction != Opposite(s.direction)
  {
  }

  /**
   * The point of rejecting reverse turns: a well-formed snake whose head
   * leads its neck never moves its head onto its neck.
   */
  lemma NeverBitesNeck(s: Snake)
    requires WellFormed(s) && HeadLeads(s) && |s.body| >= 2
    ensures Update(s).body[0] != s.body[1]
  {
    var d := Update(s).direction;
    NoReversal(s);
    StepOpposite(s.body[1], s.direction);
    assert s.body[1] == Step(s.body[0], Opposite(s.direction));
    StepInjective(s.body[0], d, Opposite(s.direction));
  }

  /** Moving keeps the body a chain of touching cells. */
  lemma UpdateKeepsChain(s: Snake)
    requires |s.body| >= 1 && Chained(s.body)
    ensures Chained(Update(s).body)
  {
    var r := Update(s);
    forall i | 0 <= i < |r.body| - 1
      ensures Touches(r.body[i], r.body[i + 1])
    {
      if i == 0 {
        StepOpposite(s.body[0], r.direction);
        assert r.body[0] == Step(s.body[0], r.direction);
        match r.direction
        case Up => assert r.body[0] == Step(r.body[1], Up);
        case Down => assert r.body[0] == Step(r.body[1], Down);
        case Left => assert r.body[0] == Step(r.body[1], Left);
        case Right => assert r.body[0] == Step(r.body[1], Right);
      } else {
        assert r.body[i] == s.body[i - 1] && r.body[i + 1] == s.body[i];
      }
    }
  }

  /** Growing keeps the body a chain: the new last cell sits on the old one. */
  lemma GrowKeepsChain(s: Snake)
    requires |s.body| >= 1 && Chained(s.body)
    ensures Chained(Grow(s).body)
  {
    var r := Grow(s);
    forall i | 0 <= i < |r.body| - 1
      ensures Touches(r.body[i], r.body[i + 1])
    {
      if i < |s.body| - 1 {
        assert r.body[i] == s.body[i] && r.body[i + 1] == s.body[i + 1];
      }
    }
  }

  /**
   * Growing a snake of two or more cells changes neither the head, the neck
   * nor the heading. (A one-cell snake would grow a neck on its head; no
   * reachable snake has fewer than three cells.)
   */
  lemma GrowPreserves(s: Snake)
    requires WellFormed(s) && HeadLeads(s) && |s.body| >= 2
    ensures WellFormed(Grow(s)) && HeadLeads(Grow(s))
  {
    assert Grow(s).body[1] == s.body[1];
  }

  /**
   * A growth shows on the next move: the move after a growth keeps the
   * whole old body behind the new head instead of dropping its tail.
   */
  lemma GrowThenUpdate(s: Snake)
    requires |s.body| >= 1
    ensures Update(Grow(s)).body == [Step(s.body[0], NextHeading(s))] + s.body
  {
    var g := Grow(s);
    var r := Update(g);
    assert r.body[1..] == g.body[..|s.body|] == s.body;
  }

  /** A turn request keeps the snake well formed. */
  lemma ChangeDirectionPreserves(s: Snake, d: Direction)
    requires WellFormed(s) && HeadLeads(s)
    ensures WellFormed(ChangeDirection(s, d)) && HeadLeads(ChangeDirection(s, d))
  {
  }

  /**
   * Requests between two moves collapse to the last accepted one: a second
   * request overrides the first when accepted and leaves it when rejected.
   * In particular a repeated request has the effect of one.
   */
  lemma LastRequestWins(s: Snake, d1: Direction, d2: Direction)
    ensures d2 != Opposite(s.direction) ==>
      ChangeDirection(ChangeDirection(s, d1), d2) == ChangeDirection(s, d2)
    ensures d2 == Opposite(s.direction) ==>
      ChangeDirection(ChangeDirection(s, d1), d2) == ChangeDirection(s, d1)
    ensures ChangeDirection(ChangeDirection(s, d1), d1) == ChangeDirection(s, d1)
  {
  }
}
