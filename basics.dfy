/**
  Small shared vocabulary: an optional value, and source locations.

  A location is a pair of (line, column) positions; the file name that the
  original carries along is left out. Spans compose by taking the earlier
  start and the later end.
 */
module Basics {

  datatype Option<+T> = None | Some(value: T)

  /** A (line, column) position; lines and columns count from 1. */
  datatype Pos = Pos(line: nat, col: nat)

  predicate PosLe(a: Pos, b: Pos) {
    a.line < b.line || (a.line == b.line && a.col <= b.col)
  }

  /** A span from `front` to `back`, both inclusive. */
  datatype Loc = Loc(front: Pos, back: Pos)

  /** The span that `prev_` holds before any token is consumed: line 1, column 1. */
  const StartLoc: Loc := Loc(Pos(1, 1), Pos(1, 1))

  /** `a + b`: the earliest start and the latest end of the two spans. */
  function Join(a: Loc, b: Loc): (r: Loc)
    ensures PosLe(r.front, a.front) && PosLe(r.front, b.front)
    ensures PosLe(a.back, r.back) && PosLe(b.back, r.back)
    ensures r.front == a.front || r.front == b.front
    ensures r.back == a.back || r.back == b.back
  {
    Loc(if PosLe(a.front, b.front) then a.front else b.front,
        if PosLe(a.back, b.back) then b.back else a.back)
  }
}
