/** Which half the firmware runs on, and the translation of a half's local
    matrix coordinates into the coordinates of the whole keyboard
    (`BoardType`, `COLS_PER_BOARD`, `translate` in
    Software/keyberon/src/main.rs). */
module Board {
  import opened Common
  import opened Events

  datatype Side = Left | Right

  /** Columns of one half's matrix; the right half's columns follow the left's. */
  const ColsPerBoard: u8 := 9

  /** Rows of one half's matrix. */
  const RowsPerBoard: u8 := 5

  /** A coordinate a half's own scanner can produce. */
  predicate IsLocal(e: Event) {
    e.row < RowsPerBoard && e.col < ColsPerBoard
  }

  /** `u8` addition as the firmware's release build performs it: modulo 256. */
  function WrappingAdd(a: u8, b: u8): (r: u8)
    ensures a + b < 256 ==> r == a + b
    ensures a + b >= 256 ==> r == a + b - 256
  {
    (a + b) % 256
  }

  /** `translate`: the left half's coordinates are the keyboard's; the right
      half's columns are shifted past the left half's. */
  function Translate(side: Side, e: Event): (r: Event)
    ensures side.Left? ==> r == e
    ensures r.Press? <==> e.Press?
    ensures r.row == e.row
    ensures side.Right? && e.col <= 255 - ColsPerBoard ==> r.col == ColsPerBoard + e.col
  {
    match side
    case Left => e
    case Right => Transform(e, (i, j) => (i, WrappingAdd(ColsPerBoard, j)))
  }

  /** Local coordinates of the two halves land in disjoint column ranges:
      `0..9` for the left half and `9..18` for the right. */
  lemma HalvesDisjoint(e: Event)
    requires IsLocal(e)
    ensures Translate(Left, e).col < ColsPerBoard
    ensures ColsPerBoard <= Translate(Right, e).col < 2 * ColsPerBoard
  {
  }

  /** No two local key positions, on either half, share a unified
      coordinate: the translated event tells which half and which key. */
  lemma TranslateInjective(s1: Side, e1: Event, s2: Side, e2: Event)
    requires IsLocal(e1) && IsLocal(e2)
    requires Translate(s1, e1) == Translate(s2, e2)
    ensures s1 == s2 && e1 == e2
  {
  }

  /** The key at local (2, 3) of the right half is (2, 12) of the keyboard. */
  lemma RightHalfExample()
    ensures Translate(Right, Press(2, 3)) == Press(2, 12)
    ensures Translate(Right, Release(2, 3)) == Release(2, 12)
  {
  }
}
