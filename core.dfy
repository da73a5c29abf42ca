/** Colours, moves and coordinates shared by every board and search module
    (the plain types of crates/othello_game/src/lib.rs). */
module Core {

  /** Rust's `Option`. */
  datatype Option<+T> = None | Some(value: T)

  /** Rust's `Result`, used for the parser. */
  datatype Result<+T, +E> = Ok(value: T) | Err(error: E)

  /** The two players. */
  datatype Colour = Black | White {

    /** The other player: never the same colour, and applying it twice goes back. */
    function Opponent(): (c: Colour)
      ensures c != this
      ensures this == Black ==> c == White
    {
      match this
      case Black => White
      case White => Black
    }

    /** The negamax sign: +1 for Black, -1 for White. */
    function Sign(): (s: int)
      ensures s == 1 <==> this == Black
      ensures s == -1 <==> this == White
    {
      match this
      case Black => 1
      case White => -1
    }
  }

  /** What a square holds (`Option<Colour>` in the source). */
  type Piece = Option<Colour>

  /** A move: the player and the target square. Rows and columns are `i8` in
      the source; the model keeps them as integers. */
  datatype Move = Move(player: Colour, row: int, col: int)

  const BOARD_SIZE: int := 8

  predicate OnBoard(row: int, col: int)
  {
    0 <= row < BOARD_SIZE && 0 <= col < BOARD_SIZE
  }

  predicate IsI8(x: int)
  {
    -128 <= x < 128
  }

  /** The bit pattern of an `i8` reinterpreted as `u8` (the `as u8` cast). */
  function ToU8(x: int): (b: bv8)
    requires IsI8(x)
  {
    if x >= 0 then x as bv8 else (x + 256) as bv8
  }

  /** `out_of_range`: or-ing the two coordinates and testing the top five bits
      of the `u8` reinterpretation catches both negative values and values of
      8 or more. */
  predicate OutOfRange(row: int, col: int)
    requires IsI8(row) && IsI8(col)
  {
    (ToU8(row) | ToU8(col)) & 0xF8 != 0
  }

  lemma HighBitsClear(x: int)
    requires IsI8(x)
    ensures (ToU8(x) & 0xF8 == 0) <==> 0 <= x < 8
  {
  }

  /** The bit trick is exactly the on-board test. */
  lemma OutOfRangeIff(row: int, col: int)
    requires IsI8(row) && IsI8(col)
    ensures OutOfRange(row, col) <==> !OnBoard(row, col)
  {
    HighBitsClear(row);
    HighBitsClear(col);
    assert (ToU8(row) | ToU8(col)) & 0xF8 == (ToU8(row) & 0xF8) | (ToU8(col) & 0xF8);
  }

  lemma OpponentInvolution(c: Colour)
    ensures c.Opponent().Opponent() == c
    ensures c.Opponent() != c
    ensures c.Opponent().Sign() == -c.Sign()
  {
  }

  /** `Display for Move`: the column as a letter from 'A', then the row as a
      digit from '1'.  Both are `u8` additions, which panic on overflow. */
  function MoveName(m: Move): (s: string)
    requires IsI8(m.row) && IsI8(m.col)
    requires ToU8(m.col) as int + 65 < 256 && ToU8(m.row) as int + 49 < 256
    ensures |s| == 2
    ensures OnBoard(m.row, m.col) ==> 'A' <= s[0] <= 'H' && '1' <= s[1] <= '8'
    ensures OnBoard(m.row, m.col) ==> s[0] as int - 'A' as int == m.col && s[1] as int - '1' as int == m.row
  {
    [(ToU8(m.col) as int + 65) as char, (ToU8(m.row) as int + 49) as char]
  }

  /** Two on-board moves with the same name target the same square. */
  lemma MoveNameInjective(m1: Move, m2: Move)
    requires OnBoard(m1.row, m1.col) && OnBoard(m2.row, m2.col)
    requires MoveName(m1) == MoveName(m2)
    ensures m1.row == m2.row && m1.col == m2.col
  {
  }

  /** `str::split` on one separator character: the pieces between the
      separators, at least one, none containing the separator. */
  function Split(s: string, sep: char): (parts: seq<string>)
    ensures |parts| >= 1
    ensures forall i :: 0 <= i < |parts| ==> sep !in parts[i]
  {
    if |s| == 0 then [""]
    else
      var rest := Split(s[1..], sep);
      if s[0] == sep then [""] + rest else [[s[0]] + rest[0]] + rest[1..]
  }

  /** `str::split_terminator`: `split` without a final empty piece, so the
      empty string has no lines and a trailing separator ends the last line. */
  function SplitTerminator(s: string, sep: char): seq<string>
  {
    var parts := Split(s, sep);
    if parts[|parts| - 1] == "" then parts[..|parts| - 1] else parts
  }

  /** The pieces with the separator between consecutive ones. */
  function Join(parts: seq<string>, sep: char): string
    requires |parts| >= 1
  {
    if |parts| == 1 then parts[0] else parts[0] + [sep] + Join(parts[1..], sep)
  }

  /** Splitting reverses joining, and joining reverses splitting. */
  lemma {:induction false} SplitJoin(parts: seq<string>, sep: char)
    requires |parts| >= 1
    requires forall i :: 0 <= i < |parts| ==> sep !in parts[i]
    ensures Split(Join(parts, sep), sep) == parts
    decreases |parts|
  {
    if |parts| == 1 {
      SplitPlain(parts[0], sep);
    } else {
      SplitJoin(parts[1..], sep);
      SplitAfter(parts[0], sep, Join(parts[1..], sep));
      assert [parts[0]] + parts[1..] == parts;
    }
  }

  lemma {:induction false} JoinSplit(s: string, sep: char)
    ensures Join(Split(s, sep), sep) == s
    decreases |s|
  {
    if |s| > 0 {
      JoinSplit(s[1..], sep);
      var rest := Split(s[1..], sep);
      if s[0] == sep {
        assert ([""] + rest)[1..] == rest;
      } else {
        var parts := [[s[0]] + rest[0]] + rest[1..];
        if |rest| > 1 {
          assert parts[1..] == rest[1..];
          assert Join(rest, sep) == rest[0] + [sep] + Join(rest[1..], sep);
        }
        assert s == [s[0]] + s[1..];
      }
    }
  }

  /** A piece without the separator splits into itself. */
  lemma {:induction false} SplitPlain(a: string, sep: char)
    requires sep !in a
    ensures Split(a, sep) == [a]
    decreases |a|
  {
    if |a| > 0 {
      SplitPlain(a[1..], sep);
      assert [a[0]] + a[1..] == a;
    }
  }

  /** A piece without the separator, then the separator: the piece comes first. */
  lemma {:induction false} SplitAfter(a: string, sep: char, rest: string)
    requires sep !in a
    ensures Split(a + [sep] + rest, sep) == [a] + Split(rest, sep)
    decreases |a|
  {
    if |a| == 0 {
      assert a + [sep] + rest == [sep] + rest;
      assert ([sep] + rest)[1..] == rest;
    } else {
      var s := a + [sep] + rest;
      assert s[1..] == a[1..] + [sep] + rest;
      SplitAfter(a[1..], sep, rest);
      assert [a[0]] + a[1..] == a;
    }
  }

  /** `split_terminator` of joined lines gives them back when the last is not
      empty; with an empty last piece (a trailing separator) it is dropped. */
  lemma SplitTerminatorJoin(parts: seq<string>, sep: char)
    requires |parts| >= 1
    requires forall i :: 0 <= i < |parts| ==> sep !in parts[i]
    ensures parts[|parts| - 1] != "" ==> SplitTerminator(Join(parts, sep), sep) == parts
    ensures parts[|parts| - 1] == "" ==> SplitTerminator(Join(parts, sep), sep) == parts[..|parts| - 1]
  {
    SplitJoin(parts, sep);
    assert SplitTerminator(Join(parts, sep), sep) ==
      if parts[|parts| - 1] == "" then parts[..|parts| - 1] else parts;
  }

  /** The length of joined pieces. */
  lemma {:induction false} JoinLength(parts: seq<string>, sep: char, width: nat)
    requires |parts| >= 1
    requires forall i :: 0 <= i < |parts| ==> |parts[i]| == width
    ensures |Join(parts, sep)| == |parts| * (width + 1) - 1
    decreases |parts|
  {
    if |parts| > 1 {
      JoinLength(parts[1..], sep, width);
    }
  }

  /** Joining one more piece at the end. */
  lemma {:induction false} JoinSnoc(parts: seq<string>, last: string, sep: char)
    requires |parts| >= 1
    ensures Join(parts + [last], sep) == Join(parts, sep) + [sep] + last
    decreases |parts|
  {
    if |parts| > 1 {
      JoinSnoc(parts[1..], last, sep);
      assert (parts + [last])[1..] == parts[1..] + [last];
    } else {
      assert (parts + [last])[1..] == [last];
    }
  }
}
