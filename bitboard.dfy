/** The `BitBoard` newtype of crates/othello_game/src/bitboard.rs: one bit
    per square, the bit operations, shifts, single squares, the lowest set
    bit, the two flood fills and the text forms.  The `u64` arithmetic these
    stand on is proved in module Bits. */
module Bitboard {
  import opened Core
  import Bits

  /** `BitBoard`: a `u64` whose bit row * 8 + col is square (row, col). */
  datatype BitBoard = BitBoard(bits: bv64)

  /** `BitBoard::new`. */
  const EMPTY: BitBoard := BitBoard(0)

  /** `is_empty`. */
  predicate IsEmpty(b: BitBoard)
  {
    b.bits == 0
  }

  /** `bit`, on the board. */
  predicate Bit(b: BitBoard, row: int, col: int)
    requires OnBoard(row, col)
  {
    Bits.Bit(b.bits, row, col)
  }

  /** `count`. */
  function Count(b: BitBoard): nat
  {
    Bits.Count(b.bits)
  }

  /** The `BitAnd`, `BitOr` and `Not` impls. */
  function And(a: BitBoard, b: BitBoard): BitBoard
  {
    BitBoard(a.bits & b.bits)
  }

  function Or(a: BitBoard, b: BitBoard): BitBoard
  {
    BitBoard(a.bits | b.bits)
  }

  function Not(a: BitBoard): BitBoard
  {
    BitBoard(!a.bits)
  }

  // ---------------------------------------------------------------------
  // Square-by-square reading of the operations.

  /** The words inside the results of the bit ops. */
  lemma AndBits(a: BitBoard, b: BitBoard)
    ensures And(a, b).bits == a.bits & b.bits
  {
  }

  lemma OrBits(a: BitBoard, b: BitBoard)
    ensures Or(a, b).bits == a.bits | b.bits
  {
  }

  lemma NotBits(a: BitBoard)
    ensures Not(a).bits == !a.bits
  {
  }

  lemma WordAnd(x: bv64, y: bv64, z: bv64, row: int, col: int)
    requires OnBoard(row, col) && z == x & y
    ensures Bits.Bit(z, row, col) == (Bits.Bit(x, row, col) && Bits.Bit(y, row, col))
  {
    Bits.BitAnd(x, y, row, col);
  }

  lemma WordOr(x: bv64, y: bv64, z: bv64, row: int, col: int)
    requires OnBoard(row, col) && z == x | y
    ensures Bits.Bit(z, row, col) == (Bits.Bit(x, row, col) || Bits.Bit(y, row, col))
  {
    Bits.BitOr(x, y, row, col);
  }

  lemma WordNot(x: bv64, z: bv64, row: int, col: int)
    requires OnBoard(row, col) && z == !x
    ensures Bits.Bit(z, row, col) == !Bits.Bit(x, row, col)
  {
    Bits.BitNot(x, row, col);
  }

  /** The empty board holds no square, and the bit ops act square by square. */
  lemma EmptyCell(row: int, col: int)
    requires OnBoard(row, col)
    ensures !Bit(EMPTY, row, col)
  {
    Bits.BitNot(0, row, col);
  }

  lemma AndCell(a: BitBoard, b: BitBoard, row: int, col: int)
    requires OnBoard(row, col)
    ensures Bit(And(a, b), row, col) == (Bit(a, row, col) && Bit(b, row, col))
  {
    AndBits(a, b);
    WordAnd(a.bits, b.bits, And(a, b).bits, row, col);
  }

  lemma OrCell(a: BitBoard, b: BitBoard, row: int, col: int)
    requires OnBoard(row, col)
    ensures Bit(Or(a, b), row, col) == (Bit(a, row, col) || Bit(b, row, col))
  {
    OrBits(a, b);
    WordOr(a.bits, b.bits, Or(a, b).bits, row, col);
  }

  lemma NotCell(a: BitBoard, row: int, col: int)
    requires OnBoard(row, col)
    ensures Bit(Not(a), row, col) == !Bit(a, row, col)
  {
    NotBits(a);
    WordNot(a.bits, Not(a).bits, row, col);
  }

  /** A board is determined by its 64 squares. */
  lemma Extensionality(a: BitBoard, b: BitBoard)
    requires forall r, c :: OnBoard(r, c) ==> Bit(a, r, c) == Bit(b, r, c)
    ensures a == b
  {
    Bits.Extensionality(a.bits, b.bits);
  }

  /** No square of the board is set. */
  ghost predicate NoSquares(b: BitBoard)
  {
    forall r, c :: OnBoard(r, c) ==> !Bit(b, r, c)
  }

  /** `is_empty` holds exactly for the board without squares. */
  lemma IsEmptyIff(b: BitBoard)
    ensures IsEmpty(b) <==> NoSquares(b)
    ensures IsEmpty(b) <==> b == EMPTY
  {
    if NoSquares(b) {
      forall r, c | OnBoard(r, c)
        ensures Bit(b, r, c) == Bit(EMPTY, r, c)
      {
        EmptyCell(r, c);
      }
      Extensionality(b, EMPTY);
    }
    if IsEmpty(b) {
      forall r, c | OnBoard(r, c)
        ensures !Bit(b, r, c)
      {
        EmptyCell(r, c);
      }
    }
  }

  /** Boards without common squares: the precondition of CountOr. */
  ghost predicate Disjoint(a: BitBoard, b: BitBoard)
  {
    forall r, c :: OnBoard(r, c) ==> !(Bit(a, r, c) && Bit(b, r, c))
  }

  lemma DisjointAnd(a: BitBoard, b: BitBoard)
    requires Disjoint(a, b)
    ensures And(a, b) == EMPTY
  {
    forall r, c | OnBoard(r, c)
      ensures !Bit(And(a, b), r, c)
    {
      AndCell(a, b, r, c);
    }
    IsEmptyIff(And(a, b));
  }

  /** `count` is 0 only on the empty board, and the counts of disjoint boards add. */
  lemma CountZero(b: BitBoard)
    ensures Count(b) == 0 <==> IsEmpty(b)
  {
    Bits.CountZero(b.bits);
  }

  lemma DisjointBits(a: BitBoard, b: BitBoard)
    requires Disjoint(a, b)
    ensures a.bits & b.bits == 0
  {
    DisjointAnd(a, b);
    AndBits(a, b);
  }

  lemma WordCountUnion(x: bv64, y: bv64, z: bv64)
    requires x & y == 0 && z == x | y
    ensures Bits.Count(z) == Bits.Count(x) + Bits.Count(y)
  {
    Bits.CountUnion(x, y);
  }

  lemma CountOrWords(a: BitBoard, b: BitBoard)
    requires a.bits & b.bits == 0
    ensures Count(Or(a, b)) == Count(a) + Count(b)
  {
    OrBits(a, b);
    WordCountUnion(a.bits, b.bits, Or(a, b).bits);
  }

  lemma CountOr(a: BitBoard, b: BitBoard)
    requires Disjoint(a, b)
    ensures Count(Or(a, b)) == Count(a) + Count(b)
  {
    DisjointBits(a, b);
    CountOrWords(a, b);
  }

  // ---------------------------------------------------------------------
  // Shifts.

  /** `shift`: moves every square by the distance, clearing the column that
      would wrap (the arithmetic is Bits.Shift). */
  function Shift(b: BitBoard, shift: int): BitBoard
    requires -64 < shift < 64
  {
    BitBoard(Bits.Shift(b.bits, shift))
  }

  /** Shifting by a direction's distance moves every square one step in that
      direction: a square holds what the square one step back held, and a
      square whose predecessor is off the board is clear. */
  lemma ShiftCell(b: BitBoard, d: Bits.ShiftDir, row: int, col: int)
    requires OnBoard(row, col)
    ensures Bit(Shift(b, d.Shift()), row, col) ==
      (OnBoard(row - d.DRow(), col - d.DCol()) && Bit(b, row - d.DRow(), col - d.DCol()))
  {
    Bits.ShiftBit(b.bits, d, row, col);
  }

  // ---------------------------------------------------------------------
  // Single squares.

  /** `From<(i8, i8)>`: `1 << (row * 8 + col)`, which in the source needs an
      `i8` product that does not overflow and a shift below 64. */
  function FromSquare(row: int, col: int): BitBoard
    requires IsI8(row * 8) && 0 <= row * 8 + col < 64
  {
    BitBoard(Bits.FromSquare(row, col))
  }

  /** An on-board square's board holds exactly that square and counts 1. */
  lemma FromSquareOnly(row: int, col: int)
    requires OnBoard(row, col)
    ensures Count(FromSquare(row, col)) == 1
    ensures forall r, c :: OnBoard(r, c) ==> (Bit(FromSquare(row, col), r, c) <==> r == row && c == col)
  {
    Bits.FromSquareCount(row, col);
    Bits.FromSquareBits(row, col);
  }

  /** The single-square mask, cell by cell. */
  lemma FromSquareCell(r0: int, c0: int, row: int, col: int)
    requires OnBoard(r0, c0) && OnBoard(row, col)
    ensures Bit(FromSquare(r0, c0), row, col) <==> (row, col) == (r0, c0)
  {
    FromSquareOnly(r0, c0);
  }

  /** A single square shifted one step lands on its neighbour in that
      direction, or vanishes when the neighbour is off the board. */
  lemma ShiftSquare(d: Bits.ShiftDir, row: int, col: int)
    requires OnBoard(row, col)
    ensures Shift(FromSquare(row, col), d.Shift()) ==
      if OnBoard(row + d.DRow(), col + d.DCol()) then FromSquare(row + d.DRow(), col + d.DCol()) else EMPTY
  {
    Bits.ShiftSingle(d, row, col);
  }

  // ---------------------------------------------------------------------
  // The lowest set bit.

  /** `next_bit`. */
  function NextBit(b: BitBoard): BitBoard
  {
    BitBoard(Bits.NextBit(b.bits))
  }

  /** `to_bit_pos`. */
  function ToBitPos(b: BitBoard): (int, int)
  {
    Bits.ToBitPos(b.bits)
  }

  /** `to_bit_pos` inverts `From<(i8, i8)>` on the board. */
  lemma ToBitPosFromSquare(row: int, col: int)
    requires OnBoard(row, col)
    ensures ToBitPos(FromSquare(row, col)) == (row, col)
  {
    Bits.ToBitPosFromSquare(row, col);
  }

  /** `next_bit` keeps the empty board; otherwise it is the board of the
      first set square in row-major order, which `to_bit_pos` names. */
  lemma NextBitFirst(b: BitBoard)
    ensures IsEmpty(b) ==> NextBit(b) == b && ToBitPos(b) == (8, 0)
    ensures !IsEmpty(b) ==> OnBoard(ToBitPos(b).0, ToBitPos(b).1)
    ensures !IsEmpty(b) ==> NextBit(b) == FromSquare(ToBitPos(b).0, ToBitPos(b).1)
    ensures !IsEmpty(b) ==> Bit(b, ToBitPos(b).0, ToBitPos(b).1)
    ensures !IsEmpty(b) ==> forall r, c :: OnBoard(r, c) && r * 8 + c < ToBitPos(b).0 * 8 + ToBitPos(b).1 ==> !Bit(b, r, c)
  {
    Bits.ToBitPosLowest(b.bits);
    if !IsEmpty(b) {
      Bits.NextBitIsFirstSquare(b.bits);
    }
  }

  /** The value `pop_next_bit` leaves in the board: `x & (x - 1)`. */
  function DropNext(b: BitBoard): BitBoard
  {
    BitBoard(Bits.DropLowest(b.bits))
  }

  /** The two values `pop_next_bit` computes, as functions of the board. */
  lemma PopZero(b: BitBoard)
    requires b.bits == 0
    ensures NextBit(b) == b && DropNext(b) == b
  {
  }

  lemma PopWords(b: BitBoard)
    requires b.bits != 0
    ensures NextBit(b) == BitBoard(b.bits - (b.bits & (b.bits - 1)))
  {
    Bits.NextBitForm(b.bits);
  }

  lemma DropWords(b: BitBoard)
    ensures DropNext(b) == BitBoard(b.bits & (b.bits - 1))
  {
  }

  /** `pop_next_bit`: returns `next_bit`; the second result is the new value
      of the board. */
  method PopNextBit(b: BitBoard) returns (lsb: BitBoard, rest: BitBoard)
    ensures lsb == NextBit(b) && rest == DropNext(b)
  {
    if b.bits == 0 {
      PopZero(b);
      return b, b;
    }
    PopWords(b);
    DropWords(b);
    var newValue := b.bits & (b.bits - 1);
    lsb := BitBoard(b.bits - newValue);
    rest := BitBoard(newValue);
  }

  /** The popped bit and what is left split the board: together they give
      it back and they share no square. */
  lemma PopSplits(b: BitBoard)
    ensures Or(DropNext(b), NextBit(b)) == b
    ensures And(DropNext(b), NextBit(b)) == EMPTY
  {
    Bits.NextBitSplits(b.bits);
  }

  /** What is left after popping a non-empty board: its squares except the
      first, one fewer in number. */
  lemma PopLeavesRest(b: BitBoard)
    requires !IsEmpty(b)
    ensures Count(DropNext(b)) == Count(b) - 1
    ensures forall r, c :: OnBoard(r, c) ==>
      (Bit(DropNext(b), r, c) <==> Bit(b, r, c) && (r, c) != ToBitPos(b))
  {
    NextBitFirst(b);
    PopSplits(b);
    var rest := DropNext(b);
    var p := ToBitPos(b);
    FromSquareOnly(p.0, p.1);
    forall r, c | OnBoard(r, c)
      ensures Bit(rest, r, c) <==> Bit(b, r, c) && (r, c) != p
      ensures !(Bit(rest, r, c) && Bit(NextBit(b), r, c))
    {
      OrCell(rest, NextBit(b), r, c);
      AndCell(rest, NextBit(b), r, c);
      EmptyCell(r, c);
    }
    CountOr(rest, NextBit(b));
  }

  // ---------------------------------------------------------------------
  // Flood fills.

  /** The number of shift-and-mask steps of both fills (`for _ in 1..7`). */
  const FILL_STEPS: nat := 6

  /** The value of `gen` after k steps of either fill loop. */
  function FillGen(gen: BitBoard, pro: BitBoard, shift: int, k: nat): BitBoard
    requires -64 < shift < 64
    decreases k, gen, pro, shift
  {
    if k == 0 then gen else And(Shift(FillGen(gen, pro, shift, k - 1), shift), pro)
  }

  /** The value of `flood` after k steps, from its initial value `start`. */
  function Flood(start: BitBoard, gen: BitBoard, pro: BitBoard, shift: int, k: nat): BitBoard
    requires -64 < shift < 64
    decreases k, start, gen, pro, shift
  {
    if k == 0 then start else Or(Flood(start, gen, pro, shift, k - 1), FillGen(gen, pro, shift, k))
  }

  /** What `dumb7fill` returns: the flood starts at the generator. */
  function Fill(gen: BitBoard, pro: BitBoard, shift: int): BitBoard
    requires -64 < shift < 64
  {
    Flood(gen, gen, pro, shift, FILL_STEPS)
  }

  /** What `dumb7fill_occluded` returns: the flood starts empty. */
  function FillOccluded(gen: BitBoard, pro: BitBoard, shift: int): BitBoard
    requires -64 < shift < 64
  {
    Flood(EMPTY, gen, pro, shift, FILL_STEPS)
  }

  /** `dumb7fill`. */
  method Dumb7Fill(gen: BitBoard, pro: BitBoard, shift: int) returns (flood: BitBoard)
    requires -64 < shift < 64
    ensures flood == Fill(gen, pro, shift)
  {
    var g := gen;
    flood := gen;
    var step := 1;
    while step < 7
      invariant 1 <= step <= 7
      invariant g == FillGen(gen, pro, shift, step - 1)
      invariant flood == Flood(gen, gen, pro, shift, step - 1)
    {
      g := And(Shift(g, shift), pro);
      flood := Or(flood, g);
      step := step + 1;
    }
  }

  /** `dumb7fill_occluded`. */
  method Dumb7FillOccluded(gen: BitBoard, pro: BitBoard, shift: int) returns (flood: BitBoard)
    requires -64 < shift < 64
    ensures flood == FillOccluded(gen, pro, shift)
  {
    var g := gen;
    flood := EMPTY;
    var step := 1;
    while step < 7
      invariant 1 <= step <= 7
      invariant g == FillGen(gen, pro, shift, step - 1)
      invariant flood == Flood(EMPTY, gen, pro, shift, step - 1)
    {
      g := And(Shift(g, shift), pro);
      flood := Or(flood, g);
      step := step + 1;
    }
  }

  /** Every square of a is one of b. */
  ghost predicate Within(a: BitBoard, b: BitBoard)
  {
    forall r, c :: OnBoard(r, c) && Bit(a, r, c) ==> Bit(b, r, c)
  }

  lemma EmptyWithin(b: BitBoard)
    ensures Within(EMPTY, b)
  {
    forall r, c | OnBoard(r, c)
      ensures !Bit(EMPTY, r, c)
    {
      EmptyCell(r, c);
    }
  }

  lemma OrWithin(a: BitBoard, b: BitBoard, t: BitBoard)
    requires Within(a, t) && Within(b, t)
    ensures Within(Or(a, b), t)
  {
    forall r, c | OnBoard(r, c) && Bit(Or(a, b), r, c)
      ensures Bit(t, r, c)
    {
      OrCell(a, b, r, c);
    }
  }

  /** Every generation after the first lies in the propagator. */
  lemma FillGenWithin(gen: BitBoard, pro: BitBoard, shift: int, k: nat)
    requires -64 < shift < 64 && k > 0
    ensures Within(FillGen(gen, pro, shift, k), pro)
  {
    forall r, c | OnBoard(r, c) && Bit(FillGen(gen, pro, shift, k), r, c)
      ensures Bit(pro, r, c)
    {
      AndCell(Shift(FillGen(gen, pro, shift, k - 1), shift), pro, r, c);
    }
  }

  /** The flood holds its start and stays within its start and the propagator. */
  lemma {:induction false} FloodBounds(start: BitBoard, gen: BitBoard, pro: BitBoard, shift: int, k: nat)
    requires -64 < shift < 64
    ensures Within(start, Flood(start, gen, pro, shift, k))
    ensures Within(Flood(start, gen, pro, shift, k), Or(start, pro))
  {
    if k > 0 {
      FloodBounds(start, gen, pro, shift, k - 1);
      FillGenWithin(gen, pro, shift, k);
      var prev := Flood(start, gen, pro, shift, k - 1);
      var next := FillGen(gen, pro, shift, k);
      forall r, c | OnBoard(r, c)
        ensures Bit(start, r, c) ==> Bit(Or(prev, next), r, c)
        ensures Bit(Or(prev, next), r, c) ==> Bit(Or(start, pro), r, c)
      {
        OrCell(prev, next, r, c);
        OrCell(start, pro, r, c);
      }
    } else {
      forall r, c | OnBoard(r, c)
        ensures Bit(start, r, c) ==> Bit(Or(start, pro), r, c)
      {
        OrCell(start, pro, r, c);
      }
    }
  }

  /** `dumb7fill` holds the generator and stays within generator and propagator. */
  lemma FillBounds(gen: BitBoard, pro: BitBoard, shift: int)
    requires -64 < shift < 64
    ensures Within(gen, Fill(gen, pro, shift))
    ensures Within(Fill(gen, pro, shift), Or(gen, pro))
  {
    FloodBounds(gen, gen, pro, shift, FILL_STEPS);
  }

  /** `dumb7fill_occluded` stays within the propagator. */
  lemma FillOccludedWithin(gen: BitBoard, pro: BitBoard, shift: int)
    requires -64 < shift < 64
    ensures Within(FillOccluded(gen, pro, shift), pro)
  {
    FloodBounds(EMPTY, gen, pro, shift, FILL_STEPS);
    forall r, c | OnBoard(r, c) && Bit(FillOccluded(gen, pro, shift), r, c)
      ensures Bit(pro, r, c)
    {
      OrCell(EMPTY, pro, r, c);
      EmptyCell(r, c);
    }
  }


  /** A chain of k steps ending at (row, col): that square and the ones up
      to k - 1 steps of (dr, dc) back are in `pro`, and the square k steps
      back is in `gen`, all of them on the board. */
  ghost predicate Chain(gen: BitBoard, pro: BitBoard, dr: int, dc: int, row: int, col: int, k: nat)
    requires OnBoard(row, col)
    decreases k, gen
  {
    if k == 0 then Bit(gen, row, col)
    else
      Bit(pro, row, col) && OnBoard(row - dr, col - dc) &&
      Chain(gen, pro, dr, dc, row - dr, col - dc, k - 1)
  }

  /** One step of either fill: a square is reached when it is in `pro` and
      the square one step back was reached. */
  lemma FillGenStep(gen: BitBoard, pro: BitBoard, d: Bits.ShiftDir, k: nat, row: int, col: int)
    requires OnBoard(row, col) && k > 0
    ensures Bit(FillGen(gen, pro, d.Shift(), k), row, col) ==
      (Bit(pro, row, col) && OnBoard(row - d.DRow(), col - d.DCol()) &&
       Bit(FillGen(gen, pro, d.Shift(), k - 1), row - d.DRow(), col - d.DCol()))
  {
    var prev := FillGen(gen, pro, d.Shift(), k - 1);
    AndCell(Shift(prev, d.Shift()), pro, row, col);
    ShiftCell(prev, d, row, col);
  }

  /** The step fact of FillGenStep for a shift amount and a step (dr, dc)
      that are not tied to a direction. */
  ghost predicate StepAt(gen: BitBoard, pro: BitBoard, shift: int, dr: int, dc: int, k: nat, row: int, col: int)
    requires -64 < shift < 64 && 0 < k && OnBoard(row, col)
  {
    Bit(FillGen(gen, pro, shift, k), row, col) ==
      (Bit(pro, row, col) && OnBoard(row - dr, col - dc) && Bit(FillGen(gen, pro, shift, k - 1), row - dr, col - dc))
  }

  ghost predicate Steps(gen: BitBoard, pro: BitBoard, shift: int, dr: int, dc: int)
    requires -64 < shift < 64
  {
    forall k: nat, row, col :: 0 < k && OnBoard(row, col) ==> StepAt(gen, pro, shift, dr, dc, k, row, col)
  }

  lemma StepsHold(gen: BitBoard, pro: BitBoard, d: Bits.ShiftDir)
    ensures Steps(gen, pro, d.Shift(), d.DRow(), d.DCol())
  {
    forall k: nat, row, col | 0 < k && OnBoard(row, col)
      ensures StepAt(gen, pro, d.Shift(), d.DRow(), d.DCol(), k, row, col)
    {
      FillGenStep(gen, pro, d, k, row, col);
    }
  }

  /** The step fact of FillGenStep for a sequence of boards f. */
  ghost predicate StepOf(f: nat -> BitBoard, pro: BitBoard, dr: int, dc: int, j: nat, r: int, c: int)
    requires 0 < j && OnBoard(r, c)
  {
    Bit(f(j), r, c) == (Bit(pro, r, c) && OnBoard(r - dr, c - dc) && Bit(f(j - 1), r - dr, c - dc))
  }

  /** Chains by induction on k, for any sequence of boards f whose every
      step follows the step fact. */
  lemma {:induction false} ChainBy(f: nat -> BitBoard, pro: BitBoard, dr: int, dc: int, k: nat, row: int, col: int)
    requires OnBoard(row, col)
    requires forall j: nat, r, c :: 0 < j && OnBoard(r, c) ==> StepOf(f, pro, dr, dc, j, r, c)
    ensures Bit(f(k), row, col) == Chain(f(0), pro, dr, dc, row, col, k)
    decreases k
  {
    if k > 0 {
      assert StepOf(f, pro, dr, dc, k, row, col);
      if OnBoard(row - dr, col - dc) {
        ChainBy(f, pro, dr, dc, k - 1, row - dr, col - dc);
      }
    }
  }

  /** The step facts of a steps predicate are all the chain induction needs,
      with the shift amount kept abstract. */
  lemma StepsChain(gen: BitBoard, pro: BitBoard, shift: int, dr: int, dc: int, k: nat, row: int, col: int)
    requires OnBoard(row, col) && -64 < shift < 64
    requires Steps(gen, pro, shift, dr, dc)
    ensures Bit(FillGen(gen, pro, shift, k), row, col) == Chain(gen, pro, dr, dc, row, col, k)
  {
    var f := (j: nat) => FillGen(gen, pro, shift, j);
    forall j: nat, r, c | 0 < j && OnBoard(r, c)
      ensures StepOf(f, pro, dr, dc, j, r, c)
    {
      assert StepAt(gen, pro, shift, dr, dc, j, r, c);
    }
    ChainBy(f, pro, dr, dc, k, row, col);
  }

  /** After k steps `gen` holds exactly the ends of k-step chains. */
  lemma FillGenCell(gen: BitBoard, pro: BitBoard, d: Bits.ShiftDir, k: nat, row: int, col: int)
    requires OnBoard(row, col)
    ensures Bit(FillGen(gen, pro, d.Shift(), k), row, col) == Chain(gen, pro, d.DRow(), d.DCol(), row, col, k)
  {
    StepsHold(gen, pro, d);
    StepsChain(gen, pro, d.Shift(), d.DRow(), d.DCol(), k, row, col);
  }

  /** Some chain of 1 to k steps ends at (row, col). */
  ghost predicate SomeChain(gen: BitBoard, pro: BitBoard, dr: int, dc: int, row: int, col: int, k: nat)
    requires OnBoard(row, col)
    decreases k, gen
  {
    k > 0 && (SomeChain(gen, pro, dr, dc, row, col, k - 1) || Chain(gen, pro, dr, dc, row, col, k))
  }

  /** The flood after k steps: its start and the ends of chains of 1 to k
      steps, with the shift amount kept abstract. */
  lemma {:induction false} StepsFlood(start: BitBoard, gen: BitBoard, pro: BitBoard, shift: int, dr: int, dc: int, k: nat, row: int, col: int)
    requires OnBoard(row, col) && -64 < shift < 64
    requires Steps(gen, pro, shift, dr, dc)
    ensures Bit(Flood(start, gen, pro, shift, k), row, col) ==
      (Bit(start, row, col) || SomeChain(gen, pro, dr, dc, row, col, k))
    decreases k
  {
    if k > 0 {
      StepsFlood(start, gen, pro, shift, dr, dc, k - 1, row, col);
      OrCell(Flood(start, gen, pro, shift, k - 1), FillGen(gen, pro, shift, k), row, col);
      StepsChain(gen, pro, shift, dr, dc, k, row, col);
    }
  }

  /** The flood after k steps in direction d. */
  lemma FloodCell(start: BitBoard, gen: BitBoard, pro: BitBoard, d: Bits.ShiftDir, k: nat, row: int, col: int)
    requires OnBoard(row, col)
    ensures Bit(Flood(start, gen, pro, d.Shift(), k), row, col) ==
      (Bit(start, row, col) || SomeChain(gen, pro, d.DRow(), d.DCol(), row, col, k))
  {
    StepsHold(gen, pro, d);
    StepsFlood(start, gen, pro, d.Shift(), d.DRow(), d.DCol(), k, row, col);
  }

  /** The repository's own example: generator "X··X···X", propagator
      "·XXX··X·", shifted left, gives "·XX···X·". */
  lemma FillOccludedExample()
    ensures FillOccluded(BitBoard(0x89), BitBoard(0x4E), -1) == BitBoard(0x46)
  {
  }

  /** Six steps, not seven: from the corner (0, 7) along a full first row,
      the occluded fill reaches columns 6 down to 1 but not column 0. */
  lemma FillSixSteps()
    ensures FillOccluded(BitBoard(0x80), BitBoard(0xFF), -1) == BitBoard(0x7E)
  {
  }
}
