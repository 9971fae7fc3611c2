/** Grid coordinates (Position.java). */
module Positions {

  /** An immutable (x, y) grid coordinate. Being a datatype, it is compared
      component-wise, like the record's generated `equals`. */
  datatype Position = Position(x: int, y: int)

  /** Two cells share a side. */
  predicate Adjacent(p: Position, q: Position)
  {
    (p.x == q.x && (p.y == q.y + 1 || q.y == p.y + 1)) ||
    (p.y == q.y && (p.x == q.x + 1 || q.x == p.x + 1))
  }

  /** Record equality is equality of both components. */
  lemma PositionEquality(p: Position, q: Position)
    ensures p == q <==> p.x == q.x && p.y == q.y
  {
  }

  /** The accessors return the constructor arguments. */
  lemma PositionAccessors(x: int, y: int)
    ensures Position(x, y).x == x && Position(x, y).y == y
  {
  }
}
