# Othello: a verified model of the game engine and its search players

This project models the core of an Othello (Reversi) engine in Dafny and
proves properties of the model. The engine has two interchangeable board
encodings, a text format for positions, and a family of computer players.

- **The bit board** (`BitBoardBoard`). It keeps one 64-bit mask per colour, where bit `row * 8 + col` is square (row, col). It finds moves with bit-parallel "dumb7" flood fills in the eight compass directions. It enumerates them by popping the lowest set bit, so they come out in row-major order.
- **The dense board** (`DefaultBoard`). It keeps an 8×8 array of optional discs. It tests and plays a move by walking each of eight direction offsets with a direction iterator.
- **The game wrapper** (`GameRepr`). It holds a board and the player to move. It renders a position as text with ○ (Black), ● (White) and · (empty), and parses that text back (`try_from`).
- **The players.** `evaluate_immediate` scores a position by disc difference times the player's sign. `pick_best_move` picks a move by `max_by_key`. On top of these sit a one-ply greedy player, a node-counting minimax player, and a fail-hard alpha-beta search.
- **The older tree.** A stand-alone dense `Game` with its own move iterator (src/game.rs), a generic copy of the game wrapper (src/game/mod.rs), and a search layer (src/ai/) whose `pick_best_move` keeps the *first* of tied moves.

## Modules and files

- **core.dfy (`Core`).** Colours, moves, the `out_of_range` bit trick, the move's name, and `str::split` / `split_terminator` as functions with round-trip lemmas.
- **bits.dfy (`Bits`).** Raw `bv64` facts: how `shift` acts on each square, `count`, trailing zeros, `next_bit`, and `to_bit_pos`.
- **bitboard.dfy (`Bitboard`).** The `BitBoard` newtype as a datatype: its operators, `pop_next_bit`, and the two fills as loop methods proved against their specifications.
- **bitboard_text.dfy (`BitboardText`).** The bit board's `From` conversions from a list of squares and from text, and its `Display`.
- **bitboardgame.dfy (`BitboardGame`).** `BitBoardBoard`: move mask, `apply`, `get`, `set`, `scores`, and the `Moves` iterator as a class.
- **direction.dfy (`Direction`).** `DIRECTIONS` and `DirectionIterator` (a class).
- **default.dfy (`DefaultBoard`).** `DefaultBoard`: `count_in_dir`, `flip` and `scores` as loop methods; `is_valid_move`, `moves` and `apply`.
- **board.dfy (`Boards`).** The `Board` trait as a closed union of the two encodings, with `convert_board`.
- **refinement.dfy, agreement.dfy, apply_refinement.dfy.** The bit board agrees with the dense board on moves, scores and every applied move.
- **game.dfy (`Games`).** `GameRepr`: `new`, `apply`, `apply_in_place`, `Debug`, `try_from`, and `convert`.
- **ai.dfy (`AI`).** `evaluate_immediate`, both `pick_best_move` rules, and the `AIInfo` counters.
- **minimax.dfy, alphabeta.dfy, immediate.dfy.** The three search players.
- **legacy_game.dfy (`Legacy`), legacy_ai.dfy (`LegacyAI`).** The older dense game, its iterator, and its search.
- **fixtures.dfy (`Fixtures`).** The repository's test positions, proved on the model.

## Modelling choices

Boards are values, as the Rust structs are `Clone`/`Copy`. `set(&mut self)` is therefore a function that returns the new board. The loops that call it (`try_from`, `convert_board`, `flip`) are methods that rebind a local board.

Objects whose fields the source updates in place are classes with `modifies` clauses:

- the bit board's `Moves` iterator;
- the `DirectionIterator`;
- the older `ValidMoveIterator`;
- the `AIInfo` counters;
- the minimax player that owns them;
- a `GameState` cell for `apply_in_place`.

Each loop in the source is a `while` or `for` method proved equal to a specification function. The properties the source promises are proved as lemmas about that function. A Rust panic on a caller's error becomes a `requires`, and so does an off-board square given to the bit board's `get` and `set`; the cases are listed under "Left out".

Where the code and the design documentation differ, the model follows the code:

- **Bit board `apply`.** It does not check that the move is legal, though the documentation says an illegal move is refused. Only the dense board asserts it. `BitboardGame.Apply` has no legality precondition.
- **Tie-breaking.** The crate's `pick_best_move` keeps the last of the tied moves (`max_by_key`). The older one keeps the first (it replaces only on a strictly greater score). Both rules are modelled, each where it is used.
- **Minimax versus alpha-beta.** The minimax `evaluate_to_depth` takes the least, over the *opponent's* replies, of the negated value searched for the opponent. The alpha-beta one loops over the *given player's* moves and negamaxes with a window. They are different functions of the position, so no equivalence between the two players is claimed. Each is proved against its own reference.

## Model

| member | source | states |
|---|---|---|
| Core.Colour.Opponent | crates/othello_game/src/lib.rs:143-148 | the opponent is never the same colour; Black's is White |
| Core.Colour.Sign | crates/othello_game/src/lib.rs:150-155 | the sign is +1 exactly for Black and -1 exactly for White |
| Core.OpponentInvolution | crates/othello_game/src/lib.rs:143-155 | taking the opponent twice gives the colour back, and the opponent's sign is the negated sign |
| Core.OutOfRangeIff | crates/othello_game/src/lib.rs:138-140 | the or-and-mask test on the `u8` reinterpretation of two `i8` coordinates is true exactly for squares off the 8×8 board, negative ones included |
| Core.MoveName | crates/othello_game/src/lib.rs:128-136 | the name has two characters; for an on-board move they are the column letter 'A'..'H' and the row digit '1'..'8', offset by exactly the column and row |
| Core.MoveNameInjective | crates/othello_game/src/lib.rs:128-136 | two on-board moves with the same name target the same square |
| Core.SplitJoin | crates/othello_game/src/lib.rs:194 | splitting pieces joined by a separator they do not contain gives the pieces back |
| Core.JoinSplit | crates/othello_game/src/lib.rs:194 | joining the pieces of a split gives the text back |
| Core.SplitTerminatorJoin | crates/othello_game/src/lib.rs:194 | `split_terminator` of joined lines gives the lines back, dropping only a final empty piece (a trailing newline) |
| Direction.DirectionsAreTheUnitOffsets | crates/othello_game/src/direction.rs:3-12 | `DIRECTIONS` lists the eight non-zero unit offsets, each once, and is closed under swapping the two components |
| Direction.Walk | crates/othello_game/src/direction.rs:24-29 | every square the iterator yields is on the board, and the first is one step from the start |
| Direction.WalkItem | crates/othello_game/src/direction.rs:24-29 | the k-th square yielded is k+1 steps from the start, so the start is never yielded |
| Direction.WalkAtMostSeven | crates/othello_game/src/direction.rs:24-29 | from an on-board square at most 7 squares are yielded |
| Direction.WalkDistinct | crates/othello_game/src/direction.rs:24-29 | a walk never visits a square twice |
| Direction.WalksDisjoint | crates/othello_game/src/direction.rs:3-29 | walks from one square in two different directions share no square |
| Direction.DirectionIterator.IterateFrom | crates/othello_game/src/direction.rs:36-40 | the pair's first component becomes the column step and its second the row step, starting at the given square |
| Direction.DirectionIterator.Next | crates/othello_game/src/direction.rs:24-29 | moves one step, yields the new square while it is on the board and None after; the items yielded are exactly the walk, one at a time |
| Bits.ShiftDir.Shift | crates/othello_game/src/bitboard.rs:17-28 | the bit distance of a direction is 8 × its row step + its column step, non-zero and within -9..9 |
| Bits.ShiftDir.Reverse | crates/othello_game/src/bitboard.rs:30-41 | the reverse direction steps by the negated row and column offsets |
| Bits.ReverseInvolution | crates/othello_game/src/bitboard.rs:17-41 | reversing twice gives the direction back, and the reverse's distance is the negated distance |
| Bits.ShiftDirsAreAll | crates/othello_game/src/bitboard.rs:44-47 | `SHIFT_DIRS` holds all eight directions, each once |
| Bits.ShiftBit | crates/othello_game/src/bitboard.rs:94-107 | after `shift` by a direction's distance, a square holds what the square one step back held, and is clear when that square is off the board: no disc wraps round an edge |
| Bits.ShiftClearsWrappedColumn | crates/othello_game/src/bitboard.rs:101-104 | a step with a leftward column component leaves column 7 empty, a rightward one column 0 |
| Bits.FromSquareCount | crates/othello_game/src/bitboard.rs:110-119 | the mask of an on-board square has exactly one bit, at that square |
| Bits.CountUnion | crates/othello_game/src/bitboard.rs:65-67 | the counts of disjoint masks add up |
| Bits.TrailingZerosIsLowest | crates/othello_game/src/bitboard.rs:69-76 | the trailing-zero count is 64 exactly for the empty mask, and otherwise names a set bit with nothing set below it |
| Bits.NextBitIsLowest | crates/othello_game/src/bitboard.rs:69-76 | `next_bit` is the single lowest set bit, and the empty mask for the empty mask |
| Bits.NextBitSplits | crates/othello_game/src/bitboard.rs:78-86 | the lowest bit and the rest together give the mask back and share no bit |
| Bits.ToBitPosLowest | crates/othello_game/src/bitboard.rs:88-91 | `to_bit_pos` of a non-empty mask is its first set square in row-major order; of the empty mask it is (8, 0) |
| Bits.NextBitIsFirstSquare | crates/othello_game/src/bitboard.rs:69-91 | `next_bit` of a non-empty mask is the mask of its `to_bit_pos` square |
| Bits.ToBitPosFromSquare | crates/othello_game/src/bitboard.rs:88-119 | `to_bit_pos` inverts `From<(i8, i8)>` on the board |
| Bits.Extensionality | crates/othello_game/src/bitboard.rs:61-63 | two masks that `bit` reports alike on all 64 squares are equal |
| Bitboard.Extensionality | crates/othello_game/src/bitboard.rs:61-63 | two boards with the same 64 squares are the same board |
| Bitboard.IsEmptyIff | crates/othello_game/src/bitboard.rs:57-59 | `is_empty` holds exactly for the board with no square set, which is `new()` |
| Bitboard.CountZero | crates/othello_game/src/bitboard.rs:57-67 | `count` is 0 exactly for the empty board |
| Bitboard.CountOr | crates/othello_game/src/bitboard.rs:65-67 | the count of the union of disjoint boards is the sum of their counts |
| Bitboard.ShiftCell | crates/othello_game/src/bitboard.rs:94-107 | the shifted board, square by square: what was one step back, nothing from off the board |
| Bitboard.FromSquareCell | crates/othello_game/src/bitboard.rs:110-119 | the board of one on-board square holds that square and no other |
| Bitboard.ShiftSquare | crates/othello_game/src/bitboard.rs:94-119 | one square shifted one step lands on its neighbour in that direction, or vanishes at the edge |
| Bitboard.NextBitFirst | crates/othello_game/src/bitboard.rs:69-91 | `next_bit` keeps the empty board; otherwise it is the board of the first set square in row-major order, which `to_bit_pos` names |
| Bitboard.PopNextBit | crates/othello_game/src/bitboard.rs:78-86 | returns `next_bit` and leaves the board with its lowest bit cleared |
| Bitboard.PopSplits | crates/othello_game/src/bitboard.rs:78-86 | the popped bit and what is left give the board back and share no square |
| Bitboard.PopLeavesRest | crates/othello_game/src/bitboard.rs:78-91 | popping a non-empty board leaves every square but its first, one fewer in number |
| Bitboard.Dumb7Fill | crates/othello_game/src/bitboard.rs:231-238 | the loop's result is the generator plus six shift-and-mask steps through the propagator |
| Bitboard.Dumb7FillOccluded | crates/othello_game/src/bitboard.rs:244-251 | the same six steps, the flood starting empty |
| Bitboard.FillBounds | crates/othello_game/src/bitboard.rs:231-238 | `dumb7fill` holds the generator and stays within generator and propagator |
| Bitboard.FillOccludedWithin | crates/othello_game/src/bitboard.rs:244-251 | `dumb7fill_occluded` stays within the propagator |
| Bitboard.FillGenCell | crates/othello_game/src/bitboard.rs:231-251 | after k steps the generation holds exactly the ends of k-step chains through the propagator from a generator square |
| Bitboard.FloodCell | crates/othello_game/src/bitboard.rs:231-251 | after k steps the flood holds its start and exactly the ends of chains of 1 to k steps |
| Bitboard.FillOccludedExample | crates/othello_game/src/bitboard.rs:293-299 | the repository's example: generator X··X···X, propagator ·XXX··X·, shift -1, gives ·XX···X· |
| Bitboard.FillSixSteps | crates/othello_game/src/bitboard.rs:244-251 | from the corner along a full row the occluded fill reaches columns 6 down to 1 but not column 0: six steps, not seven |
| BitboardText.FromSquares | crates/othello_game/src/bitboard.rs:121-137 | the loop ors in the mask of each listed square, in order |
| BitboardText.SquaresCell | crates/othello_game/src/bitboard.rs:121-137 | for on-board squares the mask holds exactly the listed squares |
| BitboardText.FromStr | crates/othello_game/src/bitboard.rs:139-151 | the loops set bit i * 8 + j for each 'X' at character j of line i of `split_terminator('\n')` |
| BitboardText.MarksCell | crates/othello_game/src/bitboard.rs:139-151 | for lines of at most 8 characters, a square is set exactly when its line and column hold an 'X' |
| BitboardText.Render | crates/othello_game/src/bitboard.rs:176-189 | the loops write the 8 rows of 'X' and '·', a newline between consecutive rows |
| BitboardText.PictureLines | crates/othello_game/src/bitboard.rs:176-189 | the picture is 71 characters that split back into 8 lines of 8 glyphs, each 'X' or '·' |
| BitboardText.DisplayRoundTrip | crates/othello_game/src/bitboard.rs:139-189 | parsing what `Display` writes gives the board back |
| BitboardText.ParseExample | crates/othello_game/src/bitboard.rs:264-272 | the test's text X·····X· is the board of (0,0) and (0,6) |
| BitboardText.NextBitExample | crates/othello_game/src/bitboard.rs:257-261 | the lowest bit of that board is (0,0) |
| BitboardText.WrapExample | crates/othello_game/src/bitboard.rs:139-151 | a mark past column 7 runs on into the next row |
| BitboardGame.SetCell | crates/othello_game/src/bitboardgame.rs:85-94 | after `set` the square is in the value's mask only, and each mask is unchanged elsewhere |
| BitboardGame.SetGet | crates/othello_game/src/bitboardgame.rs:79-94 | `get` after `set` returns the value set, other squares read as before, and no square ends in both masks |
| BitboardGame.ScoresOccupied | crates/othello_game/src/bitboardgame.rs:96-98 | on a valid board the two scores add up to the occupied squares |
| BitboardGame.NewMasks | crates/othello_game/src/lib.rs:28-35 | the starting masks: Black on (3,3) and (4,4), White on (3,4) and (4,3) |
| BitboardGame.MovesInDir | crates/othello_game/src/bitboardgame.rs:12-15 | the result is one step beyond the occluded fill of the mover's discs over the opponent's |
| BitboardGame.MovesMask | crates/othello_game/src/bitboardgame.rs:24-43 | the loop unions every direction's moves, less the occupied squares |
| BitboardGame.Moves | crates/othello_game/src/bitboardgame.rs:24-45 | returns a fresh iterator over the move mask for the player |
| BitboardGame.MoveMaskDisjoint | crates/othello_game/src/bitboardgame.rs:43 | no move lands on an occupied square |
| BitboardGame.Apply | crates/othello_game/src/bitboardgame.rs:47-77 | the result: the mover gains the move square and the flips, the opponent loses the flips |
| BitboardGame.FlipsTheirs | crates/othello_game/src/bitboardgame.rs:55-61 | on a valid board, a move to a square the mover does not hold turns over only opponent discs |
| BitboardGame.ApplyCell | crates/othello_game/src/bitboardgame.rs:47-77 | on an empty square: the move square and the flips read as the mover, every other square as before, and no square is in both masks |
| BitboardGame.ApplyEffect | crates/othello_game/src/bitboardgame.rs:47-77 | on an empty square the board stays valid and exactly the move square and the flips change, all to the mover |
| BitboardGame.ApplyScores | crates/othello_game/src/bitboardgame.rs:47-98 | the mover gains one disc plus the flips, the opponent loses the flips |
| BitboardGame.SquareListLength | crates/othello_game/src/bitboardgame.rs:104-119 | the iterator lists one square per set bit |
| BitboardGame.SquareListCells | crates/othello_game/src/bitboardgame.rs:104-119 | the list holds exactly the mask's on-board squares |
| BitboardGame.SquareListAscending | crates/othello_game/src/bitboardgame.rs:104-119 | the list is in strictly ascending row-major order, so no square repeats |
| BitboardGame.AsMoves | crates/othello_game/src/bitboardgame.rs:113-117 | the squares become moves of one player, one for one |
| BitboardGame.MoveIterator.Next | crates/othello_game/src/bitboardgame.rs:107-119 | pops the lowest square and yields it as the player's move, leaving the rest; on an empty mask yields None |
| BitboardGame.NextFacts | crates/othello_game/src/bitboardgame.rs:107-119 | the popped bit is empty exactly for an empty mask, names the first square, and the rest lists the others |
| DefaultBoard.SetGet | crates/othello_game/src/default.rs:85-91 | `get` after `set` returns the value set; every other square reads as before |
| DefaultBoard.EmptyCells | crates/othello_game/src/default.rs:9-12 | every square of the default board is empty |
| DefaultBoard.NewCells | crates/othello_game/src/lib.rs:28-35 | the dense starting position: Black on (3,3) and (4,4), White on (3,4) and (4,3), every other square empty |
| DefaultBoard.Extensionality | crates/othello_game/src/default.rs:85-87 | boards that agree on every square are equal |
| DefaultBoard.CountInDir | crates/othello_game/src/default.rs:37-50 | the loop's count is CountAlong, the run length of the walk |
| DefaultBoard.CountAlongMeaning | crates/othello_game/src/default.rs:37-50 | a positive count n means exactly: the n squares after the start hold opponent discs and the next holds the player's |
| DefaultBoard.RunLengthIff | crates/othello_game/src/default.rs:37-50 | a run of length n is n opponent discs closed by one of the player's, both directions |
| DefaultBoard.RunLengthNone | crates/othello_game/src/default.rs:37-50 | there is no run exactly when every disc of the player on the walk comes after a square that is not the opponent's |
| DefaultBoard.ValidMoveIff | crates/othello_game/src/default.rs:57-65 | a move is legal exactly when its square is empty and some ray from it flanks opponent discs |
| DefaultBoard.OccupiedInvalid | crates/othello_game/src/default.rs:58-60 | an occupied square is never a legal move |
| DefaultBoard.MovesExact | crates/othello_game/src/default.rs:67-71 | `moves` lists exactly the player's legal moves, each once, in ascending row-major order |
| DefaultBoard.Closes | crates/othello_game/src/default.rs:16-23 | the first walk of `flip` reports true exactly when the walk holds a run closed by the player's disc |
| DefaultBoard.Recolour | crates/othello_game/src/default.rs:25-33 | the second walk turns exactly the run's n opponent discs into the player's |
| DefaultBoard.Flip | crates/othello_game/src/default.rs:15-34 | `flip` in one direction is FlipAlong: nothing unless the run closes, else the run's discs become the player's |
| DefaultBoard.FlipRayCell | crates/othello_game/src/default.rs:15-34 | after `flip` the closed run's squares hold the player's discs and held the opponent's before; every other square is unchanged |
| DefaultBoard.Apply | crates/othello_game/src/default.rs:73-83 | the loop over the eight directions computes Applied, whose squares `DefaultBoard.ApplyCell` describes; the source's assert is the precondition |
| DefaultBoard.FlipDirsAll | crates/othello_game/src/default.rs:77-79 | the eight flips together change exactly the captured squares, to the mover's colour |
| DefaultBoard.ApplyCell | crates/othello_game/src/default.rs:73-83 | after `apply` the move square and exactly the captured squares hold the mover's disc, the captured ones having held the opponent's; every other square is unchanged |
| DefaultBoard.ValidMoveCaptures | crates/othello_game/src/default.rs:57-83 | a legal move turns over at least one disc |
| DefaultBoard.Scores | crates/othello_game/src/default.rs:93-101 | the loop counts the Black and the White squares |
| DefaultBoard.ScoresOccupied | crates/othello_game/src/default.rs:93-101 | the two scores add up to the occupied squares, at most 64 |
| Boards.SetGet | crates/othello_game/src/lib.rs:40-41 | on either encoding, `get` after `set` returns the value, other squares are unchanged, and the kind and validity are kept |
| Boards.EmptyCells | crates/othello_game/src/lib.rs:61-67 | the empty board of each kind is valid and holds no disc |
| Boards.NewCells | crates/othello_game/src/lib.rs:28-35 | `Board::new` of either kind is valid and holds the four centre discs and nothing else |
| Boards.IsValidMove | crates/othello_game/src/default.rs:57-65 | the dense board's answer is the reference legality rule |
| Boards.MovesReference | crates/othello_game/src/bitboardgame.rs:24-45 | both encodings list the dense reference board's moves, in the same order |
| Boards.MovesLegal | crates/othello_game/src/lib.rs:38 | `moves(p)` lists exactly p's legal moves, each once, in row-major order |
| Boards.ApplyReference | crates/othello_game/src/lib.rs:39 | a legal move applies to either kind, keeps kind and validity, and leaves every square as the dense reference `apply` does |
| Boards.ListedCanApply | crates/othello_game/src/lib.rs:38-39 | every listed move is legal, can be applied, and keeps the board valid |
| Boards.ScoresReference | crates/othello_game/src/lib.rs:42 | both encodings count the reference board's discs; the two counts add up to at most 64 |
| Boards.Interchangeable | crates/othello_game/src/bitboardgame.rs:194-213 | boards of any kinds with the same discs list the same moves in the same order and report the same scores |
| Boards.ApplyInterchangeable | crates/othello_game/src/bitboardgame.rs:215-227 | a move legal on one of two boards with the same discs is legal on the other, and applying it leaves them with the same discs |
| Boards.ConvertBoard | crates/othello_game/src/lib.rs:213-222 | the copy has the requested kind, is valid, and holds the same disc on every square |
| Refinement.MoveMaskCell | crates/othello_game/src/bitboardgame.rs:24-43 | on agreeing boards a square is in the move mask exactly when the dense board says the move there is legal |
| Agreement.MovesAgree | crates/othello_game/src/bitboardgame.rs:202-213 | on agreeing boards the bit board's iterator yields the dense board's list of moves, in the same order |
| Agreement.MaskListsMoves | crates/othello_game/src/bitboardgame.rs:102-119 | a mask holding exactly the legal squares lists the dense board's moves, in order |
| Agreement.ScoresAgree | crates/othello_game/src/bitboardgame.rs:96-98 | agreeing boards count the same Black and White discs |
| Agreement.NewAgree | crates/othello_game/src/lib.rs:28-35 | both encodings start with the same four discs |
| ApplyRefinement.FlipsCell | crates/othello_game/src/bitboardgame.rs:55-61 | for an empty move square, the bit board turns over exactly the discs the dense board captures |
| ApplyRefinement.ApplyAgree | crates/othello_game/src/bitboardgame.rs:47-77 | `apply` on agreeing boards, to an empty square, gives agreeing boards |
| ApplyRefinement.ApplyValidAgree | crates/othello_game/src/bitboardgame.rs:215-227 | agreeing boards still agree after any legal move, the comparison the repository's randomised test makes after each move |
| Games.NewStart | crates/othello_game/src/lib.rs:61-79 | `new` gives Black the move on the four-disc centre; `empty` gives Black the move on a board with no disc |
| Games.ApplyListed | crates/othello_game/src/lib.rs:81-86 | applying a listed move passes the turn to the opponent, keeps the kind and validity, and makes the reference board's move |
| Games.IsValidMove | crates/othello_game/src/lib.rs:94-96 | delegated to the board: the reference legality rule |
| Games.GameState.ApplyInPlace | crates/othello_game/src/lib.rs:102-108 | the game is overwritten by what `apply` returns |
| Games.GlyphRoundTrip | crates/othello_game/src/lib.rs:164-201 | reading a written glyph gives the piece back, and only ○, ● and · are read |
| Games.RowText | crates/othello_game/src/lib.rs:164-179 | a written row is 8 glyphs, one per square of that row |
| Games.RenderLines | crates/othello_game/src/lib.rs:164-179 | `Debug` writes 72 characters, splitting into 8 lines of 8 glyphs of the squares |
| Games.TryFrom | crates/othello_game/src/lib.rs:188-211 | the loops' result is Parse: the lines read into an empty board, Black to move, or the first error |
| Games.ParseOkIff | crates/othello_game/src/lib.rs:188-211 | `try_from` succeeds exactly when every character is a glyph at a row and column below 8; then each glyph is read into its square, every other square is empty, and Black has the move |
| Games.ParseFirstError | crates/othello_game/src/lib.rs:196-204 | the error is that of the first character that does not fit: InvalidPiece if it is no glyph, else TooManyRows for row 8 or more, else TooManyColumns |
| Games.ParseRender | crates/othello_game/src/lib.rs:164-211 | reading what `Debug` writes gives back every square, with Black to move, on a board of the requested kind |
| Games.Convert | crates/othello_game/src/lib.rs:224-236 | the converted game keeps the turn and every disc, on a valid board of the requested kind |
| Games.ConvertGame | src/game/mod.rs:196-201 | the same for the older generic `convert` |
| AI.EvaluateOwn | crates/othello_ai/src/lib.rs:20-24 | the evaluation is the player's discs minus the opponent's, lies in -64..64, and negates for the other player |
| AI.EvaluateSameCells | crates/othello_ai/src/lib.rs:20-24 | positions with the same discs evaluate alike, whatever their encodings |
| AI.LastMaxIndexBest | crates/othello_ai/src/lib.rs:32-36 | `max_by_key` picks a greatest key, and no later key ties it |
| AI.PickBestMeaning | crates/othello_ai/src/lib.rs:32-36 | no move is picked exactly when there is none; the picked move is listed, scores highest, and every later move scores strictly less |
| AI.FirstMaxIndexBest | src/ai/mod.rs:39-54 | the older rule picks a greatest key, and no earlier key ties it |
| AI.PickFirstBestMeaning | src/ai/mod.rs:39-54 | no move is picked exactly when there is none; the picked move is listed, scores highest, and every earlier move scores strictly less |
| AI.AIInfo.constructor | crates/othello_ai/src/lib.rs:43-48 | every counter starts at zero |
| AI.AIInfo.AddNode | crates/othello_ai/src/lib.rs:54-56 | one more node in the current search; the other counters are unchanged |
| AI.AIInfo.BeginSearch | crates/othello_ai/src/lib.rs:58-61 | records the number of choices and restarts the node count; the total is kept |
| AI.AIInfo.FinishSearch | crates/othello_ai/src/lib.rs:63-65 | adds the search's nodes to the total, which never decreases |
| AI.AIInfo.Copy | crates/othello_ai/src/lib.rs:43 | a fresh set of counters with the same values |
| Minimax.ValueMeaning | crates/othello_ai/src/minimax.rs:39-54 | at depth 0, or without an opponent reply, the value is the static evaluation; deeper it is at most every reply's negated value and equal to one of them |
| Minimax.ValueIsWorst | crates/othello_ai/src/minimax.rs:47-50 | with replies, the value is the least of the replies' values |
| Minimax.DepthOne | crates/othello_ai/src/minimax.rs:39-54 | at depth 1 each reply is valued by the static evaluation of the game after it, and the value is at most each |
| Minimax.ValueBounded | crates/othello_ai/src/minimax.rs:39-54 | every value lies in -64..64 |
| Minimax.EvaluateToDepth | crates/othello_ai/src/minimax.rs:39-54 | the recursion returns the value and adds exactly the searched tree's nodes to the node counter, changing no other counter |
| Minimax.ValueSameCells | crates/othello_ai/src/minimax.rs:39-54 | positions with the same discs, of any encodings, have the same value and node count |
| Minimax.ScoreMoves | crates/othello_ai/src/minimax.rs:24-28 | the loop scores each listed move by the search of the game after it and counts every node |
| Minimax.ChoiceAgrees | crates/othello_ai/src/minimax.rs:21 | the converted bit-board game offers the same moves, scores and node counts as the game it came from |
| Minimax.MinimaxAI.constructor | crates/othello_ai/src/minimax.rs:13-16 | the depth is kept and the counters start at zero |
| Minimax.MinimaxAI.ChooseMove | crates/othello_ai/src/minimax.rs:20-31 | the choice is `max_by_key` over the moves scored by the search; the choices and nodes are recorded and the total grows by this search's nodes |
| Minimax.MinimaxAI.Info | crates/othello_ai/src/minimax.rs:33-36 | a fresh copy of the counters |
| AlphaBeta.EvaluateToDepth | crates/othello_ai/src/alphabeta.rs:20-35 | the `for` loop with its early return computes Search |
| AlphaBeta.ScanStep | crates/othello_ai/src/alphabeta.rs:26-31 | one turn of the loop either cuts off with beta or raises alpha for the rest |
| AlphaBeta.ScanHard | crates/othello_ai/src/alphabeta.rs:26-33 | fail-hard: for alpha ≤ beta the loop's result lies in [alpha, beta] |
| AlphaBeta.SearchMeaning | crates/othello_ai/src/alphabeta.rs:20-35 | depth 0 is the static evaluation; deeper, no move gives alpha back, a first move reaching beta gives beta, and the result lies in the window |
| AlphaBeta.NegaMaxBounded | crates/othello_ai/src/alphabeta.rs:13-15 | every negamax value lies within the ±1 000 000 window |
| AlphaBeta.SearchWindow | crates/othello_ai/src/alphabeta.rs:20-35 | within a window inside ±1 000 000 the search clamps to the same value as negamax, and deeper than 0 it is the clamped negamax value |
| AlphaBeta.FullWindow | crates/othello_ai/src/alphabeta.rs:10-17 | with the window `choose_move` opens, the search is exactly negamax |
| AlphaBeta.MoveScoresAt | crates/othello_ai/src/alphabeta.rs:11-16 | each move's score is the negamax value, for the player who moved, of the game after it |
| AlphaBeta.ScoreMoves | crates/othello_ai/src/alphabeta.rs:11-16 | the loop's keys are MoveScores: for each move, the full-window search of the game after it, for the player to move |
| AlphaBeta.AlphaBetaAI.ChooseMove | crates/othello_ai/src/alphabeta.rs:10-17 | the choice is `max_by_key` over the moves scored by the search |
| AlphaBeta.ChoiceMeaning | crates/othello_ai/src/alphabeta.rs:10-17 | with a move to make, a listed move is chosen whose negamax value is at least every listed move's |
| AlphaBeta.NoChoice | crates/othello_ai/src/alphabeta.rs:10-17 | no move is chosen exactly when there is none |
| Immediate.EvaluateMoveMeaning | crates/othello_ai/src/immediate.rs:10-13 | a listed move is rated by the mover's discs minus the opponent's after it, in -64..64, the opponent's rating negated |
| Immediate.MoveScoresAt | crates/othello_ai/src/immediate.rs:14-15 | each score is that move's `evaluate_move` |
| Immediate.ChooseMoveSome | crates/othello_ai/src/immediate.rs:9-16 | no move is chosen exactly when there is none, and a chosen move is listed |
| Immediate.ChooseMoveBest | crates/othello_ai/src/immediate.rs:9-16 | the chosen move leaves the mover at least as far ahead as any listed move |
| Immediate.ChooseMoveLast | crates/othello_ai/src/immediate.rs:9-16 | among tied moves the last wins: every listed move after the chosen one rates strictly less |
| Legacy.NewStart | src/game.rs:58-68 | Black to move on the four-disc centre |
| Legacy.IsValidMoveIff | src/game.rs:89-100 | legal exactly when it is the player to move's, on an empty square, with some ray flanking opponent discs; a move out of turn never is |
| Legacy.CountDecides | src/game.rs:89-100 | a positive `count` in some direction makes an in-turn move to an empty square legal; none anywhere makes it illegal |
| Legacy.CheckMove | src/game.rs:89-100 | the turn check, the occupied check and the early-return loop compute the legality rule |
| Legacy.Apply | src/game.rs:127-139 | passes the turn and makes the dense board's move |
| Legacy.AppliedCell | src/game.rs:106-139 | after a legal move the move square and exactly the captured squares hold the mover's disc, the captured ones having held the opponent's; every other square is unchanged |
| Legacy.ValidMoveIterator.constructor | src/game.rs:164-167 | starts before square (0, 0), with every legal move of the player to move still to come |
| Legacy.ValidMoveIterator.Next | src/game.rs:173-194 | yields the next legal move in row-major order; past the last square it yields None with the row reset to 0 and the column left at 0 |
| Legacy.IteratorYields | src/game.rs:158-194 | the iterator yields exactly the legal moves of the player to move, each once, in ascending row-major order |
| LegacyAI.EvaluateImmediate | src/ai/mod.rs:17-31 | the scan is the player's discs minus the opponent's |
| LegacyAI.EvaluateAgrees | src/ai/mod.rs:17-31 | the scan agrees with the crate's evaluation and lies in -64..64 |
| LegacyAI.PickBestMove | src/ai/mod.rs:39-54 | the loop's choice is the first move with the greatest score, None without moves |
| LegacyAI.MinimaxAI.ChooseMove | src/ai/minimax.rs:10-15 | the first-best rule over the moves scored by the minimax value |
| LegacyAI.ListedValue | src/ai/minimax.rs:10-15 | a listed move can be applied and is scored by the minimax value of the game after it |
| LegacyAI.ChoiceBest | src/ai/minimax.rs:10-15 | with a move to make, a listed move is chosen, valued at least as high as every listed move |
| LegacyAI.ChoiceFirst | src/ai/mod.rs:47-50 | among tied moves the first wins: every move listed before the chosen one is valued strictly less |
| LegacyAI.ChoiceNone | src/ai/minimax.rs:10-15 | no move is chosen exactly when there is none |
| Fixtures.StartFacts | crates/othello_game/src/bitboardgame.rs:129-134 | the starting bit board's masks and scores (2, 2) |
| Fixtures.BlackStartMoves | crates/othello_game/src/bitboardgame.rs:137-144 | Black's opening moves on the bit board are (2,4), (3,5), (4,2), (5,3), in that order |
| Fixtures.WhiteStartMoves | crates/othello_game/src/bitboardgame.rs:137-144 | White's are (2,3), (3,2), (4,5), (5,4) |
| Fixtures.DefaultStartMoves | crates/othello_game/tests/test_game.rs:65-76 | the dense board lists the same opening moves |
| Fixtures.InitialMoves | crates/othello_game/tests/test_game.rs:65-76 | `valid_moves` of the new game lists them on either kind of board |
| Fixtures.LegacyInitialMoves | tests/test_game.rs:31-42 | the older iterator yields (2,4), (3,5), (4,2), (5,3), then None |
| Fixtures.OneFlip | crates/othello_game/src/bitboardgame.rs:148-156 | on a board with two discs each, a move to an empty square that turns over one disc leaves the scores at (4, 1) for Black or (1, 4) for White |
| Fixtures.BlackFlips24 | crates/othello_game/tests/test_game.rs:78-99 | on the starting position Black's (2,4) turns over exactly (3,4) |
| Fixtures.BlackOpeningScores | crates/othello_game/src/bitboardgame.rs:148-152 | every Black opening move scores (4, 1) |
| Fixtures.WhiteOpeningScores | crates/othello_game/src/bitboardgame.rs:153-156 | every White opening move scores (1, 4) |
| Fixtures.RingFlips | crates/othello_game/src/bitboardgame.rs:158-176 | the ring move's flips are the eight discs round (3,3) |
| Fixtures.RingApply | crates/othello_game/src/bitboardgame.rs:158-176 | White's (3,3) in the ring position gives the expected position |
| Fixtures.Bug1Apply | crates/othello_game/src/bitboardgame.rs:181-191 | Black's corner move (0,7) on ○○○●○●●· gives ○○○●○○○○ |
| Fixtures.NoMoves | crates/othello_game/tests/test_game.rs:101-107 | ○●●●●●●● parses and Black has no move on either kind |
| Fixtures.RowMoveMask | crates/othello_game/tests/test_game.rs:101-107 | that row's Black move mask is empty |
| Fixtures.DepthZero | crates/othello_ai/tests/test_minimax.rs:5-16 | ●○○○ evaluates at depth 0 to 2 for Black and -2 for White |
| Fixtures.WideRejected | crates/othello_game/tests/test_game.rs:55-56 | nine glyphs on a row fail with TooManyColumns |
| Fixtures.TallRejected | crates/othello_game/tests/test_game.rs:58-59 | nine rows fail with TooManyRows |
| Fixtures.JunkRejected | crates/othello_game/tests/test_game.rs:61-62 | qwerty fails with InvalidPiece |

## Left out

- DefaultBoard.Apply: the `assert!(self.is_valid_move(mov))` at crates/othello_game/src/default.rs:74 is a precondition, so the panic on an illegal move is a contract breach rather than a modelled outcome.
- Legacy.Apply: likewise for the panic on a move that is illegal or out of turn at src/game.rs:128.
- BitboardGame.Placeable: `From<(i8, i8)>` computes `row * 8 + col` in `i8` and shifts a `u64` by it (crates/othello_game/src/bitboard.rs:110-119). The precondition excludes the arithmetic overflow and the shift by 64 or more, both of which panic in a debug build, instead of modelling them.
- BitboardText.FromStr: `MarksFit` excludes the same panics for a mark whose bit index reaches 64 (a text longer than the board).
- BitboardText.FromSquares: requires every listed square to be placeable, for the same reason.
- Core.MoveName: requires the `u8` additions `col as u8 + 65` and `row as u8 + 49` not to overflow (crates/othello_game/src/lib.rs:130-131), where the source panics.
- Direction.DirectionIterator.Next: requires the `i8` additions not to overflow.
- DefaultBoard.Get, DefaultBoard.Set, DefaultBoard.IsValidMove, Boards.Get, Boards.Set, Games.GetPiece, Legacy.GetPiece, Legacy.IsValidMove: each requires an on-board square. The dense board indexes its fixed 8×8 array with `row as usize` and `col as usize` (crates/othello_game/src/default.rs:59, 86, 90; src/game.rs:71, 91), which panics off the board. The one exception is the older `is_valid_move`: it returns false for a move out of turn before it indexes (src/game.rs:90), and the model does not state that answer for an off-board square. Every caller in the source passes squares in 0..8.
- BitboardGame.Get, BitboardGame.Set: each requires an on-board square, but the source does not panic there. It reads or writes bit `row * 8 + col` (crates/othello_game/src/bitboardgame.rs:79-94 through `bit` and `From<(i8, i8)>`, crates/othello_game/src/bitboard.rs:61-63 and 110-119), so (0, 9) aliases square (1, 1); an index outside 0..63 is the shift panic described under `BitboardGame.Placeable`. The model does not capture this aliasing.
- Games.IsValidMove: `BitBoardBoard::is_valid_move` is `todo!()`, which panics (crates/othello_game/src/bitboardgame.rs:20-22), so only a dense board may be asked.
- Boards.IsValidMove: the same.
- AI.AIInfo: the counters are `Cell`s with `unsafe impl Send/Sync` (crates/othello_ai/src/lib.rs:43-51). The model has plain fields updated by methods; sharing across threads is not modelled.
- Minimax.MinimaxAI.Info: returns a fresh copy of the counters, where the source returns `Some(clone)` through the trait's `Option<AIInfo>`.
- The `i32` `Score` and the `usize` counters are unbounded integers. Scores stay within -64..64 and ±1 000 000, which fit easily; the node counters could in principle wrap.
- LegacyAI.AsRepr: the older tree mixes two game types. src/ai/mod.rs takes the `Game` of src/game.rs, while src/ai/minimax.rs calls the generic `Game<B>` of src/game/mod.rs. The model bridges the two by viewing the older game as a dense `GameRepr`.
- LegacyAI.MoveValue: scores a move that cannot be applied as 0. The closure is only ever given the game's own legal moves, so this case never arises.
- The older count and flip of src/game.rs (lines 74-87 and 106-125) are the same walks as default.rs, and are modelled by `DefaultBoard.CountAlong` and `DefaultBoard.FlipAlong`.
- The older `DirectionIterator` copy (src/game.rs:197-224) is the same as direction.rs and shares `Direction.Walk`.
- `Debug for BitBoard` (crates/othello_game/src/bitboard.rs:153-174) is a second rendering used only in test messages.
- `random_board` (crates/othello_game/src/lib.rs:238-250, src/game/mod.rs:203-215), `RandomAI` and the randomised differential test (crates/othello_game/src/bitboardgame.rs:194-235) need randomness. That test's comparisons are proved instead for every board (`Agreement.MovesAgree`, `ApplyRefinement.ApplyValidAgree`).
- The GUI crate, the command-line programs under src/bin, and the benches: display, input and timing.
- src/ai/immediate.rs is not modelled. It is stale: it calls `evaluate_immediate` with one argument (line 12), while the only one it can reach, in src/ai/mod.rs, takes two. Its loop replaces the best move only on a strictly greater score (line 21), so it keeps the first of tied moves, the rule of `AI.PickFirstBest`, not the last-wins rule of `Immediate`. src/ai/random.rs needs randomness.
- Unmodelled tests:
  - test_depth_1 of the two test_minimax.rs files. Its position is not evaluated, but what it asserts holds for every position: with White to reply, the depth-1 value for Black is the least of Black's static evaluations after White's replies (`Minimax.DepthOne` with `Minimax.ValueIsWorst`);
  - test_debug and test_from_string (crates/othello_game/tests/test_game.rs:18-49);
  - test_tostr and test_shift (crates/othello_game/src/bitboard.rs:275-290);
  - the rendered text compared in test_apply_move.
  
  The general lemmas `Games.RenderLines`, `Games.ParseOkIff`, `BitboardText.PictureLines` and `Bits.ShiftBit` cover what those tests check.
- The equivalence of alpha-beta and minimax choices is not claimed. In the code the two searches value different trees (see "Modelling choices"). Each is proved against its own reference.
