/** java.util.Optional, as returned by Board.get(Position) and by the search. */
module Optional {

  datatype Option<+T> = None | Some(value: T)
}
