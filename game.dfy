/** The game wrapper of crates/othello_game/src/lib.rs (and its older copy
    src/game/mod.rs): a board with the player to move, the `Game` trait
    methods, the text format read by `TryFrom<&str>` and written by `Debug`,
    and the conversions between board kinds. */
module Games {
  import opened Core
  import Boards

  /** `GameRepr<B>`: whose turn it is and the board. */
  datatype GameRepr = GameRepr(nextTurn: Colour, board: Boards.Board)

  /** A game whose board invariant holds. */
  ghost predicate Valid(g: GameRepr)
  {
    Boards.Valid(g.board)
  }

  /** `GameRepr::empty`: no discs, Black to move. */
  function Empty(kind: Boards.Kind): GameRepr
  {
    GameRepr(Black, Boards.Empty(kind))
  }

  /** `GameRepr::new`: the four centre discs, Black to move. */
  function New(kind: Boards.Kind): GameRepr
  {
    GameRepr(Black, Boards.New(kind))
  }

  /** The starting game: Black moves first on the standard four-disc centre;
      the empty game has no disc at all. */
  lemma NewStart(kind: Boards.Kind)
    ensures New(kind).nextTurn == Black && Valid(New(kind)) && Boards.KindOf(New(kind).board) == kind
    ensures forall r, c :: OnBoard(r, c) ==> GetPiece(New(kind), r, c) == Boards.StartPiece(r, c)
    ensures Empty(kind).nextTurn == Black && Valid(Empty(kind))
    ensures forall r, c :: OnBoard(r, c) ==> GetPiece(Empty(kind), r, c) == None
  {
    Boards.NewCells(kind);
    Boards.EmptyCells(kind);
  }

  /** `GameRepr::apply`: the board's `apply`, and the turn passes. */
  function Apply(g: GameRepr, mov: Move): GameRepr
    requires Boards.CanApply(g.board, mov)
  {
    GameRepr(g.nextTurn.Opponent(), Boards.Apply(g.board, mov))
  }

  /** Applying a listed move passes the turn to the other player, keeps the
      board kind and validity, and makes the reference board's move. */
  lemma ApplyListed(g: GameRepr, player: Colour, mov: Move)
    requires Valid(g) && mov in ValidMoves(g, player)
    ensures OnBoard(mov.row, mov.col) && Boards.CanApply(g.board, mov)
    ensures Apply(g, mov).nextTurn == g.nextTurn.Opponent() && Apply(g, mov).nextTurn != g.nextTurn
    ensures Valid(Apply(g, mov)) && Boards.KindOf(Apply(g, mov).board) == Boards.KindOf(g.board)
    ensures Boards.DenseOf(Apply(g, mov).board) == DB_Applied(g, mov)
  {
    Boards.MovesLegal(g.board, player);
    Boards.ListedCanApply(g.board, player, mov);
    Boards.ApplyReference(g.board, mov);
    Boards.DB.Extensionality(Boards.DenseOf(Apply(g, mov).board), DB_Applied(g, mov));
  }

  /** The default board after the reference `apply` of a legal move. */
  ghost function DB_Applied(g: GameRepr, mov: Move): Boards.DB.DefaultBoard
    requires OnBoard(mov.row, mov.col)
  {
    Boards.DB.Applied(Boards.DenseOf(g.board), mov)
  }

  // ---------------------------------------------------------------------
  // The `Game` trait.

  function NextTurn(g: GameRepr): Colour
  {
    g.nextTurn
  }

  /** `is_valid_move`: delegated to the board, so only a default board can
      answer (the bit board's is `todo!()`). */
  function IsValidMove(g: GameRepr, mov: Move): (valid: bool)
    requires g.board.Dense? && OnBoard(mov.row, mov.col)
    ensures valid == Boards.Legal(g.board, mov)
  {
    Boards.IsValidMove(g.board, mov)
  }

  /** `valid_moves`: the board's moves, collected. */
  function ValidMoves(g: GameRepr, player: Colour): seq<Move>
  {
    Boards.Moves(g.board, player)
  }

  /** `get_piece`. */
  function GetPiece(g: GameRepr, row: int, col: int): Piece
    requires OnBoard(row, col)
  {
    Boards.Get(g.board, row, col)
  }

  /** `scores`. */
  function Scores(g: GameRepr): (int, int)
  {
    Boards.Scores(g.board)
  }

  /** A `GameRepr` held in a variable, for `apply_in_place(&mut self)`. */
  class GameState {
    var game: GameRepr

    constructor (game: GameRepr)
      ensures this.game == game
    {
      this.game := game;
    }

    /** `apply_in_place`: overwrites the game with what `apply` returns. */
    method ApplyInPlace(mov: Move)
      requires Boards.CanApply(game.board, mov)
      modifies this
      ensures game == Apply(old(game), mov)
    {
      game := GameRepr(game.nextTurn.Opponent(), Boards.Apply(game.board, mov));
    }
  }

  // ---------------------------------------------------------------------
  // The text format.

  const BLACK_GLYPH: char := '\U{25CB}'
  const WHITE_GLYPH: char := '\U{25CF}'
  const EMPTY_GLYPH: char := '\U{00B7}'

  /** The glyph `Debug` writes for a square. */
  function Glyph(p: Piece): char
  {
    match p
    case Some(Black) => BLACK_GLYPH
    case Some(White) => WHITE_GLYPH
    case None => EMPTY_GLYPH
  }

  /** The piece `try_from` reads for a character, or None for a character
      that is not one of the three glyphs. */
  function GlyphPiece(ch: char): Option<Piece>
  {
    if ch == BLACK_GLYPH then Some(Some(Black))
    else if ch == WHITE_GLYPH then Some(Some(White))
    else if ch == EMPTY_GLYPH then Some(None)
    else None
  }

  /** The piece of a character that is a glyph (empty otherwise). */
  function PieceOf(ch: char): Piece
  {
    if GlyphPiece(ch).Some? then GlyphPiece(ch).value else None
  }

  /** Reading a written glyph gives back the piece, and only the three
      glyphs are read. */
  lemma GlyphRoundTrip(p: Piece, ch: char)
    ensures GlyphPiece(Glyph(p)) == Some(p)
    ensures GlyphPiece(ch).Some? <==> ch in {BLACK_GLYPH, WHITE_GLYPH, EMPTY_GLYPH}
    ensures GlyphPiece(ch).Some? ==> Glyph(GlyphPiece(ch).value) == ch
  {
  }

  /** Row i as `Debug` writes it, without its newline. */
  function RowText(b: Boards.Board, i: int): (line: string)
    requires 0 <= i < 8
    ensures |line| == 8 && forall j :: 0 <= j < 8 ==> line[j] == Glyph(Boards.Get(b, i, j))
  {
    seq(8, j requires 0 <= j < 8 => Glyph(Boards.Get(b, i, j)))
  }

  /** The first n rows as `Debug` writes them, each followed by a newline. */
  function RowsText(b: Boards.Board, n: nat): string
    requires n <= 8
  {
    if n == 0 then "" else RowsText(b, n - 1) + RowText(b, n - 1) + "\n"
  }

  /** `Debug`: the eight rows, each ending in a newline. */
  function Render(g: GameRepr): string
  {
    RowsText(g.board, 8)
  }

  /** The rows of a board. */
  function Rows(b: Boards.Board): seq<string>
  {
    seq(8, i requires 0 <= i < 8 => RowText(b, i))
  }

  /** The first n rows, written, are those rows joined by newlines with a
      final newline. */
  lemma {:induction false} RowsTextJoin(b: Boards.Board, n: nat)
    requires 1 <= n <= 8
    ensures RowsText(b, n) == Join(Rows(b)[..n] + [""], '\n')
  {
    var rows := Rows(b);
    if n == 1 {
      assert RowsText(b, 0) == "";
      assert rows[..1] + [""] == [rows[0], ""];
    } else {
      RowsTextJoin(b, n - 1);
      assert rows[..n - 1] + [""] == rows[..n - 1] + [""];
      JoinSnoc(rows[..n - 1], "", '\n');
      JoinSnoc(rows[..n - 1], rows[n - 1], '\n');
      assert rows[..n - 1] + [rows[n - 1]] == rows[..n];
      JoinSnoc(rows[..n], "", '\n');
    }
  }

  /** `Debug` writes 72 characters: 8 lines of 8 glyphs, split by the
      newlines that end them. */
  lemma RenderLines(g: GameRepr)
    ensures |Render(g)| == 72
    ensures SplitTerminator(Render(g), '\n') == Rows(g.board)
    ensures forall i, j :: 0 <= i < 8 && 0 <= j < 8 ==> Rows(g.board)[i][j] == Glyph(GetPiece(g, i, j))
  {
    var rows := Rows(g.board);
    RowsTextJoin(g.board, 8);
    assert rows[..8] == rows;
    var parts := rows + [""];
    forall i | 0 <= i < |parts|
      ensures '\n' !in parts[i]
    {
      if i < 8 {
        assert forall j :: 0 <= j < 8 ==> parts[i][j] in {BLACK_GLYPH, WHITE_GLYPH, EMPTY_GLYPH};
      }
    }
    SplitTerminatorJoin(parts, '\n');
    assert parts[..|parts| - 1] == rows;
    JoinLength(rows, '\n', 8);
    JoinSnoc(rows, "", '\n');
  }

  /** The errors of `try_from`. */
  datatype ParseError = TooManyRows | TooManyColumns | InvalidPiece

  /** The board after reading characters j.. of line i into b, or the error
      the first offending character raises: an unknown character first, then
      a row index of 8 or more, then a column index of 8 or more. */
  function ParseLine(b: Boards.Board, i: nat, line: string, j: nat): Result<Boards.Board, ParseError>
    requires j <= |line|
    decreases |line| - j
  {
    if j == |line| then Ok(b)
    else if GlyphPiece(line[j]).None? then Err(InvalidPiece)
    else if i >= 8 then Err(TooManyRows)
    else if j >= 8 then Err(TooManyColumns)
    else ParseLine(Boards.Set(b, i, j, GlyphPiece(line[j]).value), i, line, j + 1)
  }

  /** The board after reading lines i.. into b, or the first error. */
  function ParseLines(b: Boards.Board, lines: seq<string>, i: nat): Result<Boards.Board, ParseError>
    requires i <= |lines|
    decreases |lines| - i
  {
    if i == |lines| then Ok(b)
    else ParseRest(b, lines, i, 0)
  }

  /** The rest of line i from character j, then the lines after it. */
  function ParseRest(b: Boards.Board, lines: seq<string>, i: nat, j: nat): Result<Boards.Board, ParseError>
    requires i < |lines| && j <= |lines[i]|
    decreases |lines| - i, 1
  {
    match ParseLine(b, i, lines[i], j)
    case Err(e) => Err(e)
    case Ok(b2) => ParseLines(b2, lines, i + 1)
  }

  /** What `try_from` returns: the lines of `split_terminator('\n')` read
      into an empty board, with Black to move. */
  function Parse(value: string, kind: Boards.Kind): Result<GameRepr, ParseError>
  {
    match ParseLines(Boards.Empty(kind), SplitTerminator(value, '\n'), 0)
    case Err(e) => Err(e)
    case Ok(b) => Ok(GameRepr(Black, b))
  }

  /** `TryFrom<&str>`. */
  method TryFrom(value: string, kind: Boards.Kind) returns (result: Result<GameRepr, ParseError>)
    ensures result == Parse(value, kind)
  {
    var game := Empty(kind);
    var lines := SplitTerminator(value, '\n');
    ghost var target := ParseLines(Boards.Empty(kind), lines, 0);
    for i := 0 to |lines|
      invariant game.nextTurn == Black
      invariant ParseLines(game.board, lines, i) == target
    {
      var line := lines[i];
      for j := 0 to |line|
        invariant game.nextTurn == Black
        invariant ParseRest(game.board, lines, i, j) == target
      {
        var ch := line[j];
        var piece := GlyphPiece(ch);
        if piece.None? {
          return Err(InvalidPiece);
        }
        if i >= 8 {
          return Err(TooManyRows);
        }
        if j >= 8 {
          return Err(TooManyColumns);
        }
        game := game.(board := Boards.Set(game.board, i, j, piece.value));
      }
    }
    return Ok(game);
  }

  /** A character of the text that `try_from` accepts at line i, column j. */
  predicate Fits(lines: seq<string>, i: int, j: int)
    requires 0 <= i < |lines| && 0 <= j < |lines[i]|
  {
    GlyphPiece(lines[i][j]).Some? && i < 8 && j < 8
  }

  /** Every character of the lines is accepted. */
  predicate AllFit(lines: seq<string>)
  {
    forall i, j :: 0 <= i < |lines| && 0 <= j < |lines[i]| ==> Fits(lines, i, j)
  }

  /** The square (r, c) after reading the lines i.. into b, when all fit. */
  function ReadSquare(b: Boards.Board, lines: seq<string>, i: nat, r: int, c: int): Piece
    requires OnBoard(r, c)
  {
    if i <= r < |lines| && c < |lines[r]| then PieceOf(lines[r][c]) else Boards.Get(b, r, c)
  }

  /** Reading a line that fits from column j sets those squares of row i and
      nothing else. */
  lemma {:induction false} ParseLineOk(b: Boards.Board, lines: seq<string>, i: nat, j: nat)
    requires AllFit(lines) && i < |lines| && j <= |lines[i]|
    ensures ParseLine(b, i, lines[i], j).Ok?
    ensures Boards.KindOf(ParseLine(b, i, lines[i], j).value) == Boards.KindOf(b)
    ensures Boards.Valid(b) ==> Boards.Valid(ParseLine(b, i, lines[i], j).value)
    ensures forall r, c :: OnBoard(r, c) ==>
      Boards.Get(ParseLine(b, i, lines[i], j).value, r, c) ==
        if r == i && j <= c < |lines[i]| then PieceOf(lines[i][c]) else Boards.Get(b, r, c)
    decreases |lines[i]| - j
  {
    var line := lines[i];
    if j < |line| {
      assert Fits(lines, i, j);
      var b2 := Boards.Set(b, i, j, GlyphPiece(line[j]).value);
      Boards.SetGet(b, i, j, GlyphPiece(line[j]).value);
      ParseLineOk(b2, lines, i, j + 1);
    }
  }

  /** Reading lines that all fit succeeds: each listed character sets its
      square, and every other square keeps its disc. */
  lemma {:induction false} ParseLinesOk(b: Boards.Board, lines: seq<string>, i: nat)
    requires AllFit(lines) && i <= |lines|
    ensures ParseLines(b, lines, i).Ok?
    ensures Boards.KindOf(ParseLines(b, lines, i).value) == Boards.KindOf(b)
    ensures Boards.Valid(b) ==> Boards.Valid(ParseLines(b, lines, i).value)
    ensures forall r, c :: OnBoard(r, c) ==> Boards.Get(ParseLines(b, lines, i).value, r, c) == ReadSquare(b, lines, i, r, c)
    decreases |lines| - i
  {
    if i < |lines| {
      ParseLineOk(b, lines, i, 0);
      var b2 := ParseLine(b, i, lines[i], 0).value;
      ParseLinesOk(b2, lines, i + 1);
    }
  }

  /** A character that does not fit in line i, at or after column j, makes
      reading the line fail. */
  lemma {:induction false} ParseLineBad(b: Boards.Board, lines: seq<string>, i: nat, j: nat, k: nat)
    requires i < |lines| && j <= k < |lines[i]| && !Fits(lines, i, k)
    ensures ParseLine(b, i, lines[i], j).Err?
    decreases |lines[i]| - j
  {
    var line := lines[i];
    if j < k && GlyphPiece(line[j]).Some? && i < 8 && j < 8 {
      ParseLineBad(Boards.Set(b, i, j, GlyphPiece(line[j]).value), lines, i, j + 1, k);
    }
  }

  /** A character that does not fit anywhere in lines i.. makes reading fail. */
  lemma {:induction false} ParseLinesBad(b: Boards.Board, lines: seq<string>, i: nat, r: nat, c: nat)
    requires i <= r < |lines| && c < |lines[r]| && !Fits(lines, r, c)
    ensures ParseLines(b, lines, i).Err?
    decreases |lines| - i
  {
    if i == r {
      ParseLineBad(b, lines, i, 0, c);
    } else {
      match ParseLine(b, i, lines[i], 0)
      case Err(_) =>
      case Ok(b2) => ParseLinesBad(b2, lines, i + 1, r, c);
    }
  }

  /** `try_from` succeeds exactly when every character is a glyph at a row
      and column below 8; then it reads each glyph into its square, leaves
      every other square empty, and gives Black the move. */
  lemma ParseOkIff(value: string, kind: Boards.Kind)
    ensures Parse(value, kind).Ok? <==> AllFit(SplitTerminator(value, '\n'))
    ensures Parse(value, kind).Ok? ==>
      var lines := SplitTerminator(value, '\n');
      var g := Parse(value, kind).value;
      && g.nextTurn == Black && Valid(g) && Boards.KindOf(g.board) == kind
      && forall r, c :: OnBoard(r, c) ==>
           GetPiece(g, r, c) == if r < |lines| && c < |lines[r]| then PieceOf(lines[r][c]) else None
  {
    var lines := SplitTerminator(value, '\n');
    Boards.EmptyCells(kind);
    if AllFit(lines) {
      ParseLinesOk(Boards.Empty(kind), lines, 0);
    } else {
      var r, c :| 0 <= r < |lines| && 0 <= c < |lines[r]| && !Fits(lines, r, c);
      ParseLinesBad(Boards.Empty(kind), lines, 0, r, c);
    }
  }

  /** The error a character that does not fit raises: an unknown character
      is reported before either bound. */
  function ErrorAt(lines: seq<string>, i: int, j: int): ParseError
    requires 0 <= i < |lines| && 0 <= j < |lines[i]|
  {
    if GlyphPiece(lines[i][j]).None? then InvalidPiece
    else if i >= 8 then TooManyRows
    else TooManyColumns
  }

  /** Every character before column k of line i fits. */
  predicate FitsBefore(lines: seq<string>, i: int, k: int)
    requires 0 <= i < |lines| && k <= |lines[i]|
  {
    forall j :: 0 <= j < k ==> Fits(lines, i, j)
  }

  lemma {:induction false} ParseLineFirst(b: Boards.Board, lines: seq<string>, i: nat, j: nat, k: nat)
    requires i < |lines| && j <= k < |lines[i]| && !Fits(lines, i, k) && FitsBefore(lines, i, k)
    ensures ParseLine(b, i, lines[i], j) == Err(ErrorAt(lines, i, k))
    decreases |lines[i]| - j
  {
    if j < k {
      assert Fits(lines, i, j);
      ParseLineFirst(Boards.Set(b, i, j, GlyphPiece(lines[i][j]).value), lines, i, j + 1, k);
    }
  }

  lemma {:induction false} ParseLinesFirst(b: Boards.Board, lines: seq<string>, i: nat, r: nat, c: nat)
    requires i <= r < |lines| && c < |lines[r]| && !Fits(lines, r, c) && FitsBefore(lines, r, c)
    requires forall i2, j2 :: i <= i2 < r && 0 <= j2 < |lines[i2]| ==> Fits(lines, i2, j2)
    ensures ParseLines(b, lines, i) == Err(ErrorAt(lines, r, c))
    decreases |lines| - i
  {
    if i == r {
      ParseLineFirst(b, lines, i, 0, c);
    } else {
      ParseLineFits(b, lines, i, 0);
      ParseLinesFirst(ParseLine(b, i, lines[i], 0).value, lines, i + 1, r, c);
    }
  }

  /** A line whose characters all fit reads without error. */
  lemma {:induction false} ParseLineFits(b: Boards.Board, lines: seq<string>, i: nat, j: nat)
    requires i < |lines| && j <= |lines[i]|
    requires forall j2 :: j <= j2 < |lines[i]| ==> Fits(lines, i, j2)
    ensures ParseLine(b, i, lines[i], j).Ok?
    decreases |lines[i]| - j
  {
    if j < |lines[i]| {
      assert Fits(lines, i, j);
      ParseLineFits(Boards.Set(b, i, j, GlyphPiece(lines[i][j]).value), lines, i, j + 1);
    }
  }

  /** `try_from` reports the first character, in reading order, that does
      not fit: `InvalidPiece` if it is no glyph, else `TooManyRows` if its
      row is 8 or more, else `TooManyColumns`. */
  lemma ParseFirstError(value: string, kind: Boards.Kind, r: nat, c: nat)
    requires r < |SplitTerminator(value, '\n')| && c < |SplitTerminator(value, '\n')[r]|
    requires !Fits(SplitTerminator(value, '\n'), r, c) && FitsBefore(SplitTerminator(value, '\n'), r, c)
    requires forall i2, j2 :: 0 <= i2 < r && 0 <= j2 < |SplitTerminator(value, '\n')[i2]| ==> Fits(SplitTerminator(value, '\n'), i2, j2)
    ensures Parse(value, kind) == Err(ErrorAt(SplitTerminator(value, '\n'), r, c))
  {
    ParseLinesFirst(Boards.Empty(kind), SplitTerminator(value, '\n'), 0, r, c);
  }

  /** Reading what `Debug` writes gives back every square, with Black to
      move, on a board of the requested kind. */
  lemma ParseRender(g: GameRepr, kind: Boards.Kind)
    ensures Parse(Render(g), kind).Ok?
    ensures Parse(Render(g), kind).value.nextTurn == Black
    ensures Boards.KindOf(Parse(Render(g), kind).value.board) == kind
    ensures Boards.SameCells(Parse(Render(g), kind).value.board, g.board)
  {
    RenderLines(g);
    var lines := Rows(g.board);
    forall i, j | 0 <= i < |lines| && 0 <= j < |lines[i]|
      ensures Fits(lines, i, j)
    {
      GlyphRoundTrip(GetPiece(g, i, j), lines[i][j]);
    }
    ParseOkIff(Render(g), kind);
    forall r, c | OnBoard(r, c)
      ensures GetPiece(Parse(Render(g), kind).value, r, c) == GetPiece(g, r, c)
    {
      GlyphRoundTrip(GetPiece(g, r, c), lines[r][c]);
    }
  }

  // ---------------------------------------------------------------------
  // Conversions.

  /** `convert` (crates/othello_game/src/lib.rs): every square, read with
      `get_piece`, written over a new default board, which `convert_board`
      then turns into the requested kind; the turn is kept. */
  method Convert(g: GameRepr, kind: Boards.Kind) returns (result: GameRepr)
    ensures result.nextTurn == g.nextTurn && Valid(result) && Boards.KindOf(result.board) == kind
    ensures Boards.SameCells(result.board, g.board)
  {
    var b := Boards.New(Boards.DefaultKind);
    Boards.NewCells(Boards.DefaultKind);
    for i := 0 to 8
      invariant Boards.KindOf(b) == Boards.DefaultKind && Boards.Valid(b)
      invariant forall r, c :: OnBoard(r, c) ==>
        Boards.Get(b, r, c) == if r < i then GetPiece(g, r, c) else Boards.StartPiece(r, c)
    {
      for j := 0 to 8
        invariant Boards.KindOf(b) == Boards.DefaultKind && Boards.Valid(b)
        invariant forall r, c :: OnBoard(r, c) ==>
          Boards.Get(b, r, c) == if r < i || (r == i && c < j) then GetPiece(g, r, c) else Boards.StartPiece(r, c)
      {
        var piece := GetPiece(g, i, j);
        Boards.SetGet(b, i, j, piece);
        b := Boards.Set(b, i, j, piece);
      }
    }
    var board := Boards.ConvertBoard(b, kind);
    result := GameRepr(g.nextTurn, board);
  }

  /** `convert` (src/game/mod.rs): the board converted directly. */
  method ConvertGame(g: GameRepr, kind: Boards.Kind) returns (result: GameRepr)
    ensures result.nextTurn == g.nextTurn && Valid(result) && Boards.KindOf(result.board) == kind
    ensures Boards.SameCells(result.board, g.board)
  {
    var board := Boards.ConvertBoard(g.board, kind);
    result := GameRepr(g.nextTurn, board);
  }
}
