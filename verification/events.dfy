/** The key event exchanged between the layout engine, the serial link and the
    scanner: a press or a release at a (row, column) position, both `u8`. */
module Events {
  import opened Common

  datatype Event = Press(row: u8, col: u8) | Release(row: u8, col: u8)

  /** Applies a coordinate map to the event's (row, column), keeping the
      Press/Release tag, as the layout library's `Event::transform` does. */
  function Transform(e: Event, f: (u8, u8) -> (u8, u8)): (r: Event)
    ensures r.Press? <==> e.Press?
    ensures (r.row, r.col) == f(e.row, e.col)
  {
    var (i, j) := f(e.row, e.col);
    match e
    case Press(_, _) => Press(i, j)
    case Release(_, _) => Release(i, j)
  }
}
