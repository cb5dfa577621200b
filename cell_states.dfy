/** The six states a square of the board can be in, and the two rewriting rules that
    attack propagation applies to a single square. */
module CellStates {

  datatype CellState =
    | Available      // empty and unconstrained
    | Queen          // occupied by a queen
    | Horse          // occupied by a knight
    | NotAvailable   // no piece may go here any more
    | CanPlaceQueen  // a knight could reach it: only a queen may still go here
    | CanPlaceHorse  // a queen could reach it: only a knight may still go here
  {
    /** The glyph printed for this state. */
    function Symbol(): (c: char)
      ensures c != '|' && c != '+' && c != '-' && c != '\n'
    {
      match this
      case Available => ' '
      case Queen => '\U{265B}'
      case Horse => '\U{265E}'
      case NotAvailable => '*'
      case CanPlaceQueen => 'Q'
      case CanPlaceHorse => 'H'
    }

    /** canPlaceQueen: a queen may be put on a square in this state. */
    predicate AcceptsQueen()
      ensures AcceptsQueen() <==> !IsPiece() && this != NotAvailable && this != CanPlaceHorse
    {
      this == Available || this == CanPlaceQueen
    }

    /** canPlaceHorse: a knight may be put on a square in this state. */
    predicate AcceptsHorse()
      ensures AcceptsHorse() <==> !IsPiece() && this != NotAvailable && this != CanPlaceQueen
    {
      this == Available || this == CanPlaceHorse
    }

    predicate IsPiece() {
      this == Queen || this == Horse
    }
  }

  /** What a square reachable by a queen becomes. Forced, it is banned outright; otherwise a
      queen-only square is banned, a free square is left to knights, and every other state
      stays as it is. */
  function QueenBan(s: CellState, forceRewrite: bool): (r: CellState)
    ensures !r.AcceptsQueen()
    ensures r == NotAvailable || r == s || (s == Available && r == CanPlaceHorse)
    ensures forceRewrite ==> r == NotAvailable
    ensures !forceRewrite ==> (r.AcceptsHorse() <==> s.AcceptsHorse())
    ensures !forceRewrite && !s.AcceptsQueen() ==> r == s
  {
    if forceRewrite || s == CanPlaceQueen then NotAvailable
    else if s == Available then CanPlaceHorse
    else s
  }

  /** What a square reachable by a knight becomes: the mirror image of QueenBan. */
  function HorseBan(s: CellState, forceRewrite: bool): (r: CellState)
    ensures !r.AcceptsHorse()
    ensures r == NotAvailable || r == s || (s == Available && r == CanPlaceQueen)
    ensures forceRewrite ==> r == NotAvailable
    ensures !forceRewrite ==> (r.AcceptsQueen() <==> s.AcceptsQueen())
    ensures !forceRewrite && !s.AcceptsHorse() ==> r == s
  {
    if forceRewrite || s == CanPlaceHorse then NotAvailable
    else if s == Available then CanPlaceQueen
    else s
  }

  /** The two rules are idempotent, so a square visited twice by one pass (the queen pass
      visits the queen's own square from its column loop and again from its row loop) ends
      as if visited once. */
  lemma BansAreIdempotent(s: CellState, forceRewrite: bool)
    ensures QueenBan(QueenBan(s, forceRewrite), forceRewrite) == QueenBan(s, forceRewrite)
    ensures HorseBan(HorseBan(s, forceRewrite), forceRewrite) == HorseBan(s, forceRewrite)
  {
  }

  /** A square marked for one kind of piece is never offered to the other, and a piece or
      a banned square is offered to neither. */
  lemma NoCrossOffers(s: CellState)
    ensures s == CanPlaceQueen ==> s.AcceptsQueen() && !s.AcceptsHorse()
    ensures s == CanPlaceHorse ==> s.AcceptsHorse() && !s.AcceptsQueen()
    ensures s.IsPiece() || s == NotAvailable ==> !s.AcceptsQueen() && !s.AcceptsHorse()
  {
  }

  /** The glyphs tell the six states apart. */
  lemma SymbolIsInjective(s: CellState, t: CellState)
    ensures s.Symbol() == t.Symbol() <==> s == t
  {
  }
}
