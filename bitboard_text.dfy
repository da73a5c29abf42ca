/** The conversions between masks, square lists and text in
    crates/othello_game/src/bitboard.rs: `From<&[(i8, i8)]>`, `From<&str>`
    and `Display`. */
module BitboardText {
  import opened Core
  import opened Bitboard

  /** A pair `From<(i8, i8)>` accepts: `row * 8` fits an `i8` and the bit
      index `row * 8 + col` is a valid shift of a `u64`. */
  predicate Placeable(p: (int, int))
  {
    IsI8(p.0 * 8) && 0 <= p.0 * 8 + p.1 < 64
  }

  /** The mask of a list of squares: each one or-ed in, in order. */
  function Squares(list: seq<(int, int)>): BitBoard
    requires forall k :: 0 <= k < |list| ==> Placeable(list[k])
  {
    if |list| == 0 then EMPTY
    else
      var init, last := list[..|list| - 1], list[|list| - 1];
      assert Placeable(list[|list| - 1]) && forall k :: 0 <= k < |init| ==> init[k] == list[k];
      Or(Squares(init), FromSquare(last.0, last.1))
  }

  /** `From<&[(i8, i8)]>`. */
  method FromSquares(list: seq<(int, int)>) returns (bb: BitBoard)
    requires forall k :: 0 <= k < |list| ==> Placeable(list[k])
    ensures bb == Squares(list)
  {
    bb := EMPTY;
    for k := 0 to |list|
      invariant bb == Squares(list[..k])
    {
      var (row, col) := list[k];
      assert list[..k + 1][..k] == list[..k];
      bb := Or(bb, FromSquare(row, col));
    }
    assert list[..|list|] == list;
  }

  /** On-board squares are placeable. */
  lemma OnBoardPlaceable(list: seq<(int, int)>)
    requires forall k :: 0 <= k < |list| ==> OnBoard(list[k].0, list[k].1)
    ensures forall k :: 0 <= k < |list| ==> Placeable(list[k])
  {
  }

  /** For on-board squares, the mask holds exactly the listed squares. */
  lemma {:induction false} SquaresCell(list: seq<(int, int)>, row: int, col: int)
    requires forall k :: 0 <= k < |list| ==> OnBoard(list[k].0, list[k].1)
    requires OnBoard(row, col)
    ensures forall k :: 0 <= k < |list| ==> Placeable(list[k])
    ensures Bit(Squares(list), row, col) <==> (row, col) in list
    decreases |list|
  {
    OnBoardPlaceable(list);
    if |list| == 0 {
      EmptyCell(row, col);
    } else {
      var init, last := list[..|list| - 1], list[|list| - 1];
      assert forall k :: 0 <= k < |init| ==> init[k] == list[k];
      assert list == init + [last];
      assert (row, col) in list <==> (row, col) in init || (row, col) == last;
      SquaresCell(init, row, col);
      FromSquareCell(last.0, last.1, row, col);
      OrCell(Squares(init), FromSquare(last.0, last.1), row, col);
    }
  }

  /** Every 'X' of the lines has a bit index below 64 (line i, character j
      is bit i * 8 + j). */
  predicate MarksFit(lines: seq<string>)
  {
    forall i, j :: 0 <= i < |lines| && 0 <= j < |lines[i]| && lines[i][j] == 'X' ==> i * 8 + j < 64
  }

  /** The mask after or-ing into `acc` the marks among the first n
      characters of line i. */
  function LineMarks(acc: BitBoard, i: nat, line: string, n: nat): BitBoard
    requires n <= |line|
    requires forall j :: 0 <= j < |line| && line[j] == 'X' ==> i * 8 + j < 64
  {
    if n == 0 then acc
    else
      var prev := LineMarks(acc, i, line, n - 1);
      if line[n - 1] == 'X' then Or(prev, FromSquare(i, n - 1)) else prev
  }

  /** The mask of the marks of the first n lines. */
  function Marks(lines: seq<string>, n: nat): BitBoard
    requires n <= |lines| && MarksFit(lines)
  {
    if n == 0 then EMPTY
    else LineMarks(Marks(lines, n - 1), n - 1, lines[n - 1], |lines[n - 1]|)
  }

  /** What `From<&str>` computes from a text. */
  function Parse(text: string): BitBoard
    requires MarksFit(SplitTerminator(text, '\n'))
  {
    var lines := SplitTerminator(text, '\n');
    Marks(lines, |lines|)
  }

  /** `From<&str>`: line i (split on '\n'), character j sets bit i * 8 + j
      when it is an 'X'. A line longer than 8 characters runs on into the
      next row; a mark at index 64 or beyond would overflow the shift, which
      the precondition excludes. */
  method FromStr(text: string) returns (bb: BitBoard)
    requires MarksFit(SplitTerminator(text, '\n'))
    ensures bb == Parse(text)
  {
    var lines := SplitTerminator(text, '\n');
    bb := EMPTY;
    for i := 0 to |lines|
      invariant bb == Marks(lines, i)
    {
      var line := lines[i];
      ghost var start := bb;
      for j := 0 to |line|
        invariant bb == LineMarks(start, i, line, j)
      {
        if line[j] == 'X' {
          bb := Or(bb, FromSquare(i, j));
        }
      }
    }
  }

  /** Within a line of at most 8 characters, character col of line i marks
      exactly square (i, col). */
  lemma {:induction false} LineMarksCell(acc: BitBoard, i: nat, line: string, n: nat, row: int, col: int)
    requires n <= |line| <= 8
    requires forall j :: 0 <= j < |line| && line[j] == 'X' ==> i * 8 + j < 64
    requires OnBoard(row, col)
    ensures Bit(LineMarks(acc, i, line, n), row, col) <==>
      Bit(acc, row, col) || (row == i && col < n && line[col] == 'X')
    decreases n
  {
    if n > 0 {
      var prev := LineMarks(acc, i, line, n - 1);
      LineMarksCell(acc, i, line, n - 1, row, col);
      if line[n - 1] == 'X' {
        OrCell(prev, FromSquare(i, n - 1), row, col);
        FromSquareOnly(i, n - 1);
      }
    }
  }

  /** For lines of at most 8 characters, the marks are exactly the 'X's. */
  lemma {:induction false} MarksCell(lines: seq<string>, n: nat, row: int, col: int)
    requires n <= |lines| && MarksFit(lines)
    requires forall i :: 0 <= i < |lines| ==> |lines[i]| <= 8
    requires OnBoard(row, col)
    ensures Bit(Marks(lines, n), row, col) <==> row < n && col < |lines[row]| && lines[row][col] == 'X'
    decreases n
  {
    if n == 0 {
      EmptyCell(row, col);
    } else {
      MarksCell(lines, n - 1, row, col);
      LineMarksCell(Marks(lines, n - 1), n - 1, lines[n - 1], |lines[n - 1]|, row, col);
    }
  }

  /** The glyph `Display` writes for a square. */
  function Glyph(b: BitBoard, row: int, col: int): char
    requires OnBoard(row, col)
  {
    if Bit(b, row, col) then 'X' else '·'
  }

  /** Row `row` of the picture: its 8 glyphs. */
  function RowText(b: BitBoard, row: int): string
    requires 0 <= row < 8
  {
    seq(8, col requires 0 <= col < 8 => Glyph(b, row, col))
  }

  function Rows(b: BitBoard): seq<string>
  {
    seq(8, row requires 0 <= row < 8 => RowText(b, row))
  }

  /** What `Display` writes: the 8 rows, a newline between consecutive ones. */
  function Picture(b: BitBoard): string
  {
    Join(Rows(b), '\n')
  }

  /** The text written before row i. */
  function Written(b: BitBoard, i: int): string
    requires 0 <= i <= 8
  {
    if i == 0 then "" else if i < 8 then Join(Rows(b)[..i], '\n') + "\n" else Picture(b)
  }

  /** `Display`. */
  method Render(b: BitBoard) returns (s: string)
    ensures s == Picture(b)
  {
    s := "";
    for i := 0 to 8
      invariant s == Written(b, i)
    {
      ghost var head := s;
      for j := 0 to 8
        invariant s == head + RowText(b, i)[..j]
      {
        var ch := if Bit(b, i, j) then 'X' else '·';
        s := s + [ch];
      }
      assert RowText(b, i)[..8] == RowText(b, i);
      if i == 0 {
        assert Rows(b)[..1] == [RowText(b, 0)];
      } else {
        JoinSnoc(Rows(b)[..i], RowText(b, i), '\n');
        assert Rows(b)[..i] + [RowText(b, i)] == Rows(b)[..i + 1];
      }
      if i != 7 {
        s := s + "\n";
      } else {
        assert Rows(b)[..8] == Rows(b);
      }
    }
  }

  /** The picture is 71 characters: 8 lines of 8 glyphs, split back by '\n'. */
  lemma PictureLines(b: BitBoard)
    ensures |Picture(b)| == 71
    ensures SplitTerminator(Picture(b), '\n') == Rows(b)
    ensures |Rows(b)| == 8 && forall r :: 0 <= r < 8 ==> |Rows(b)[r]| == 8
    ensures forall r, c :: 0 <= r < 8 && 0 <= c < 8 ==> Rows(b)[r][c] in {'X', '·'}
  {
    JoinLength(Rows(b), '\n', 8);
    SplitTerminatorJoin(Rows(b), '\n');
  }

  /** Parsing the picture gives back the mask. */
  lemma DisplayRoundTrip(b: BitBoard)
    ensures MarksFit(SplitTerminator(Picture(b), '\n'))
    ensures Parse(Picture(b)) == b
  {
    PictureLines(b);
    RowsMarks(b);
  }

  /** The rows' marks are the mask's squares. */
  lemma RowsMarks(b: BitBoard)
    ensures MarksFit(Rows(b))
    ensures Marks(Rows(b), 8) == b
  {
    var lines := Rows(b);
    assert forall i :: 0 <= i < |lines| ==> |lines[i]| == 8;
    forall r, c | OnBoard(r, c)
      ensures Bit(Marks(lines, 8), r, c) == Bit(b, r, c)
    {
      MarksCell(lines, 8, r, c);
      assert lines[r][c] == Glyph(b, r, c);
    }
    Extensionality(Marks(lines, 8), b);
  }

  /** The source's examples: `"X·····X·"` marks (0,0) and (0,6), and the
      lowest of those is (0,0). */
  lemma ParseExample()
    ensures MarksFit(SplitTerminator("X·····X·", '\n'))
    ensures Parse("X·····X·") == Squares([(0, 0), (0, 6)])
  {
    var line := "X·····X·";
    SplitPlain(line, '\n');
    assert SplitTerminator(line, '\n') == [line];
    assert Marks([line], 1) == LineMarks(EMPTY, 0, line, 8);
    assert LineMarks(EMPTY, 0, line, 6) == LineMarks(EMPTY, 0, line, 1);
    assert Squares([(0, 0), (0, 6)]) == Or(Squares([(0, 0)]), FromSquare(0, 6));
  }

  lemma NextBitExample()
    ensures NextBit(Squares([(0, 0), (0, 6)])) == Squares([(0, 0)])
  {
    assert Squares([(0, 0), (0, 6)]) == BitBoard(0x41);
    assert Squares([(0, 0)]) == BitBoard(0x1);
  }

  /** A mark past column 7 runs on into the next row. */
  lemma WrapExample()
    ensures MarksFit(SplitTerminator("········X", '\n'))
    ensures Parse("········X") == FromSquare(1, 0)
  {
    var line := "········X";
    SplitPlain(line, '\n');
    assert SplitTerminator(line, '\n') == [line];
    assert Marks([line], 1) == LineMarks(EMPTY, 0, line, 9);
  }
}
