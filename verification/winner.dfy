/** `check_winner`, `is_terminal`, `reward` and `find_children` of `State`
    in `game.py`.

    A full board is a draw before any line is looked at. Otherwise the
    twelve masks of `WINNING_COMBS` (five columns, five rows, the two
    diagonals) are tried in order, O before X for each mask. */
module Winner {
  import opened Bits
  import opened Board
  import opened PyRuntime
  import opened MoveGen

  /** The strings `check_winner` returns: "D", "O", "X" and "-". */
  datatype Verdict = Draw | OWins | XWins | NoWinner

  /** `WINNING_COMBS`. */
  const WinningCombs: seq<nat> :=
    [17318416, 8659208, 4329604, 2164802, 1082401, 32505856, 1015808, 31744, 992, 31, 17043521, 1118480]

  /** `check_winner`. */
  function CheckWinner(board: nat): Verdict
  {
    var oDraw := And(board, FullField);
    var xDraw := And(Shr(board, XOffset), FullField);
    if Or(oDraw, xDraw) == FullField then Draw else Scan(board, 0)
  }

  /** The loop over `WINNING_COMBS` from index `j` on. */
  function Scan(board: nat, j: nat): Verdict
    requires j <= |WinningCombs|
    decreases |WinningCombs| - j
  {
    if j == |WinningCombs| then NoWinner
    else
      var oComb := WinningCombs[j];
      var xComb := Shl(oComb, XOffset);
      if And(board, oComb) == oComb then OWins
      else if And(board, xComb) == xComb then XWins
      else Scan(board, j + 1)
  }

  // ---------------------------------------------------------------------
  // The same verdict stated on cells.

  /** Cell `t` (0 to 4) of line `j`, in the order of `WINNING_COMBS`:
      columns 0..4, rows 0..4, the main diagonal, the anti-diagonal. */
  function LineCell(j: nat, t: nat): (rc: (int, int))
    requires j < 12 && t < 5
    ensures IsCell(rc.0, rc.1)
  {
    if j < 5 then (t, j)
    else if j < 10 then (j - 5, t)
    else if j == 10 then (t, t)
    else (t, 4 - t)
  }

  /** Every cell holds a piece. */
  predicate Full(board: nat)
  {
    forall r, c | 0 <= r < 5 && 0 <= c < 5 :: HasO(board, r, c) || HasX(board, r, c)
  }

  predicate OLine(board: nat, j: nat)
    requires j < 12
  {
    forall t | 0 <= t < 5 :: HasO(board, LineCell(j, t).0, LineCell(j, t).1)
  }

  predicate XLine(board: nat, j: nat)
    requires j < 12
  {
    forall t | 0 <= t < 5 :: HasX(board, LineCell(j, t).0, LineCell(j, t).1)
  }

  /** The verdict read off the cells: a draw on a full board, otherwise
      the first line, in order, that one player fills, O first. */
  function Judge(board: nat): Verdict
  {
    if Full(board) then Draw else FirstLine(board, 0)
  }

  function FirstLine(board: nat, j: nat): Verdict
    requires j <= 12
    decreases 12 - j
  {
    if j == 12 then NoWinner
    else if OLine(board, j) then OWins
    else if XLine(board, j) then XWins
    else FirstLine(board, j + 1)
  }

  // ---------------------------------------------------------------------
  // The masks, bit by bit.

  /** `sum(1 << e for e in es)`. */
  function PowSum(es: seq<nat>): nat
  {
    if |es| == 0 then 0 else Shl(1, es[0]) + PowSum(es[1..])
  }

  predicate Decreasing(es: seq<nat>)
  {
    forall a, b | 0 <= a < b < |es| :: es[a] > es[b]
  }

  lemma {:induction false} PowSumBelow(es: seq<nat>, n: nat)
    requires Decreasing(es) && forall a | 0 <= a < |es| :: es[a] < n
    ensures PowSum(es) < Shl(1, n)
  {
    if |es| > 0 {
      PowSumBelow(es[1..], es[0]);
      assert n >= es[0] + 1;
      ShlAdd(1, es[0], n - es[0] - 1);
      ShlAdd(1, es[0], 1);
      assert Shl(1, es[0] + 1) <= Shl(1, n) by {
        ShlAdd(1, es[0] + 1, n - es[0] - 1);
      }
    }
  }

  /** The set bits of a sum of distinct powers of two are the exponents. */
  lemma {:induction false} PowSumBit(es: seq<nat>, k: nat)
    requires Decreasing(es)
    ensures Bit(PowSum(es), k) <==> k in es
  {
    if |es| == 0 {
      BitZero(k);
    } else {
      PowSumBelow(es[1..], es[0]);
      BitAddHigh(es[0], PowSum(es[1..]), k);
      PowSumBit(es[1..], k);
      assert es == [es[0]] + es[1..];
    }
  }

  /** The powers of two below `1 << 25`. */
  lemma PowTable()
    ensures Shl(1, 0) == 1
    ensures Shl(1, 1) == 2
    ensures Shl(1, 2) == 4
    ensures Shl(1, 3) == 8
    ensures Shl(1, 4) == 16
    ensures Shl(1, 5) == 32
    ensures Shl(1, 6) == 64
    ensures Shl(1, 7) == 128
    ensures Shl(1, 8) == 256
    ensures Shl(1, 9) == 512
    ensures Shl(1, 10) == 1024
    ensures Shl(1, 11) == 2048
    ensures Shl(1, 12) == 4096
    ensures Shl(1, 13) == 8192
    ensures Shl(1, 14) == 16384
    ensures Shl(1, 15) == 32768
    ensures Shl(1, 16) == 65536
    ensures Shl(1, 17) == 131072
    ensures Shl(1, 18) == 262144
    ensures Shl(1, 19) == 524288
    ensures Shl(1, 20) == 1048576
    ensures Shl(1, 21) == 2097152
    ensures Shl(1, 22) == 4194304
    ensures Shl(1, 23) == 8388608
    ensures Shl(1, 24) == 16777216
  {
    ShlAdd(1, 12, 1);
    ShlAdd(1, 12, 2);
    ShlAdd(1, 12, 3);
    ShlAdd(1, 12, 4);
    ShlAdd(1, 12, 5);
    ShlAdd(1, 12, 6);
    ShlAdd(1, 12, 7);
    ShlAdd(1, 12, 8);
    ShlAdd(1, 12, 9);
    ShlAdd(1, 12, 10);
    ShlAdd(1, 12, 11);
    ShlAdd(1, 12, 12);
  }

  /** The O bits of line `j`, highest first. */
  function LineBits(j: nat): (bits: seq<nat>)
    requires j < 12
    ensures |bits| == 5
  {
    seq(5, t requires 0 <= t < 5 => OBit(LineCell(j, t).0, LineCell(j, t).1))
  }

  lemma LineBitsDecreasing(j: nat)
    requires j < 12
    ensures Decreasing(LineBits(j))
  {
  }

  lemma PowSumFive(es: seq<nat>)
    requires |es| == 5
    ensures PowSum(es) == Shl(1, es[0]) + Shl(1, es[1]) + Shl(1, es[2]) + Shl(1, es[3]) + Shl(1, es[4])
  {
    var e1 := es[1..];
    var e2 := e1[1..];
    var e3 := e2[1..];
    var e4 := e3[1..];
    assert PowSum(e4) == Shl(1, es[4]) + PowSum(e4[1..]);
    assert e4[1..] == [];
  }

  /** Each literal of `WINNING_COMBS` is the mask of the O bits of its
      line. */
  lemma CombIsLine(j: nat)
    requires j < 12
    ensures WinningCombs[j] == PowSum(LineBits(j))
  {
    PowSumFive(LineBits(j));
    if j < 5 {
      CombColumn(j);
    } else if j < 10 {
      CombRow(j);
    } else {
      CombDiagonal(j);
    }
  }

  /** The five column literals, bit by bit. */
  lemma ColumnMasks()
    ensures WinningCombs[0] == Shl(1, 24) + Shl(1, 19) + Shl(1, 14) + Shl(1, 9) + Shl(1, 4)
    ensures WinningCombs[1] == Shl(1, 23) + Shl(1, 18) + Shl(1, 13) + Shl(1, 8) + Shl(1, 3)
    ensures WinningCombs[2] == Shl(1, 22) + Shl(1, 17) + Shl(1, 12) + Shl(1, 7) + Shl(1, 2)
    ensures WinningCombs[3] == Shl(1, 21) + Shl(1, 16) + Shl(1, 11) + Shl(1, 6) + Shl(1, 1)
    ensures WinningCombs[4] == Shl(1, 20) + Shl(1, 15) + Shl(1, 10) + Shl(1, 5) + Shl(1, 0)
  {
    PowTable();
  }

  lemma CombColumn(j: nat)
    requires j < 5
    ensures var b := LineBits(j);
      WinningCombs[j] == Shl(1, b[0]) + Shl(1, b[1]) + Shl(1, b[2]) + Shl(1, b[3]) + Shl(1, b[4])
  {
    ColumnMasks();
    var b := LineBits(j);
    if j == 0 {
      assert b[0] == 24 && b[1] == 19 && b[2] == 14 && b[3] == 9 && b[4] == 4;
    } else if j == 1 {
      assert b[0] == 23 && b[1] == 18 && b[2] == 13 && b[3] == 8 && b[4] == 3;
    } else if j == 2 {
      assert b[0] == 22 && b[1] == 17 && b[2] == 12 && b[3] == 7 && b[4] == 2;
    } else if j == 3 {
      assert b[0] == 21 && b[1] == 16 && b[2] == 11 && b[3] == 6 && b[4] == 1;
    } else if j == 4 {
      assert b[0] == 20 && b[1] == 15 && b[2] == 10 && b[3] == 5 && b[4] == 0;
    }
  }

  /** The five row literals, bit by bit. */
  lemma RowMasks()
    ensures WinningCombs[5] == Shl(1, 24) + Shl(1, 23) + Shl(1, 22) + Shl(1, 21) + Shl(1, 20)
    ensures WinningCombs[6] == Shl(1, 19) + Shl(1, 18) + Shl(1, 17) + Shl(1, 16) + Shl(1, 15)
    ensures WinningCombs[7] == Shl(1, 14) + Shl(1, 13) + Shl(1, 12) + Shl(1, 11) + Shl(1, 10)
    ensures WinningCombs[8] == Shl(1, 9) + Shl(1, 8) + Shl(1, 7) + Shl(1, 6) + Shl(1, 5)
    ensures WinningCombs[9] == Shl(1, 4) + Shl(1, 3) + Shl(1, 2) + Shl(1, 1) + Shl(1, 0)
  {
    PowTable();
  }

  lemma CombRow(j: nat)
    requires 5 <= j < 10
    ensures var b := LineBits(j);
      WinningCombs[j] == Shl(1, b[0]) + Shl(1, b[1]) + Shl(1, b[2]) + Shl(1, b[3]) + Shl(1, b[4])
  {
    RowMasks();
    var b := LineBits(j);
    if j == 5 {
      assert b[0] == 24 && b[1] == 23 && b[2] == 22 && b[3] == 21 && b[4] == 20;
    } else if j == 6 {
      assert b[0] == 19 && b[1] == 18 && b[2] == 17 && b[3] == 16 && b[4] == 15;
    } else if j == 7 {
      assert b[0] == 14 && b[1] == 13 && b[2] == 12 && b[3] == 11 && b[4] == 10;
    } else if j == 8 {
      assert b[0] == 9 && b[1] == 8 && b[2] == 7 && b[3] == 6 && b[4] == 5;
    } else if j == 9 {
      assert b[0] == 4 && b[1] == 3 && b[2] == 2 && b[3] == 1 && b[4] == 0;
    }
  }

  lemma CombDiagonal(j: nat)
    requires 10 <= j < 12
    ensures var b := LineBits(j);
      WinningCombs[j] == Shl(1, b[0]) + Shl(1, b[1]) + Shl(1, b[2]) + Shl(1, b[3]) + Shl(1, b[4])
  {
    PowTable();
  }

  /** Bit `k` of mask `j` is set exactly for the O bits of line `j`. */
  lemma CombBit(j: nat, k: nat)
    requires j < 12
    ensures Bit(WinningCombs[j], k) <==> k in LineBits(j)
  {
    CombIsLine(j);
    LineBitsDecreasing(j);
    PowSumBit(LineBits(j), k);
  }

  /** `board & o_comb == o_comb` holds exactly when O fills line `j`. */
  lemma OCombCells(board: nat, j: nat)
    requires j < 12
    ensures And(board, WinningCombs[j]) == WinningCombs[j] <==> OLine(board, j)
  {
    var comb := WinningCombs[j];
    if OLine(board, j) {
      forall k: nat
        ensures Bit(And(board, comb), k) == Bit(comb, k)
      {
        BitAnd(board, comb, k);
        CombBit(j, k);
        if k in LineBits(j) {
          var t :| 0 <= t < 5 && LineBits(j)[t] == k;
          assert HasO(board, LineCell(j, t).0, LineCell(j, t).1);
        }
      }
      Ext(And(board, comb), comb);
    }
    if And(board, comb) == comb {
      forall t | 0 <= t < 5
        ensures HasO(board, LineCell(j, t).0, LineCell(j, t).1)
      {
        var k := LineBits(j)[t];
        CombBit(j, k);
        BitAnd(board, comb, k);
      }
    }
  }

  /** Bit `k` of mask `j` shifted into the X field is set exactly for the
      X bits of line `j`. */
  lemma XCombBit(j: nat, k: nat)
    requires j < 12
    ensures Bit(Shl(WinningCombs[j], XOffset), k) <==> k >= XOffset && k - XOffset in LineBits(j)
  {
    BitShl(WinningCombs[j], XOffset, k);
    if k >= XOffset {
      CombBit(j, k - XOffset);
    }
  }

  lemma XCombFilledBit(board: nat, j: nat, comb: nat, k: nat)
    requires j < 12 && XLine(board, j)
    requires Bit(comb, k) <==> k >= XOffset && k - XOffset in LineBits(j)
    ensures Bit(And(board, comb), k) == Bit(comb, k)
  {
    BitAnd(board, comb, k);
    if Bit(comb, k) {
      var t :| 0 <= t < 5 && LineBits(j)[t] == k - XOffset;
      assert HasX(board, LineCell(j, t).0, LineCell(j, t).1);
    }
  }

  lemma XCombFilledCell(board: nat, j: nat, comb: nat, t: nat, k: nat)
    requires j < 12 && t < 5 && k == LineBits(j)[t] + XOffset && Bit(And(board, comb), k) == Bit(comb, k)
    requires Bit(comb, k) <==> k >= XOffset && k - XOffset in LineBits(j)
    ensures HasX(board, LineCell(j, t).0, LineCell(j, t).1)
  {
    BitAnd(board, comb, k);
  }

  /** `board & (o_comb << 32) == o_comb << 32` holds exactly when X fills
      line `j`. */
  lemma XCombCells(board: nat, j: nat)
    requires j < 12
    ensures And(board, Shl(WinningCombs[j], XOffset)) == Shl(WinningCombs[j], XOffset) <==> XLine(board, j)
  {
    var comb := Shl(WinningCombs[j], XOffset);
    if XLine(board, j) {
      forall k: nat
        ensures Bit(And(board, comb), k) == Bit(comb, k)
      {
        XCombBit(j, k);
        XCombFilledBit(board, j, comb, k);
      }
      Ext(And(board, comb), comb);
    }
    if And(board, comb) == comb {
      forall t | 0 <= t < 5
        ensures HasX(board, LineCell(j, t).0, LineCell(j, t).1)
      {
        var k := LineBits(j)[t] + XOffset;
        XCombBit(j, k);
        XCombFilledCell(board, j, comb, t, k);
      }
    }
  }

  lemma DrawBit(board: nat, k: nat)
    ensures Bit(Or(And(board, FullField), And(Shr(board, XOffset), FullField)), k)
         == (k < 25 && (Bit(board, k) || Bit(board, k + XOffset)))
  {
    BitOr(And(board, FullField), And(Shr(board, XOffset), FullField), k);
    BitAnd(board, FullField, k);
    BitAnd(Shr(board, XOffset), FullField, k);
    BitShr(board, XOffset, k);
    FullFieldBits(k);
  }

  /** `o_draw | x_draw == 33554431` holds exactly when every cell holds a
      piece. */
  lemma DrawCells(board: nat)
    ensures Or(And(board, FullField), And(Shr(board, XOffset), FullField)) == FullField <==> Full(board)
  {
    var both := Or(And(board, FullField), And(Shr(board, XOffset), FullField));
    if Full(board) {
      forall k: nat
        ensures Bit(both, k) == Bit(FullField, k)
      {
        FullFieldBits(k);
        DrawBit(board, k);
        if k < 25 {
          var rc := CellOfBit(k);
          assert HasO(board, rc.0, rc.1) || HasX(board, rc.0, rc.1);
        }
      }
      Ext(both, FullField);
    }
    if both == FullField {
      forall r, c | 0 <= r < 5 && 0 <= c < 5
        ensures HasO(board, r, c) || HasX(board, r, c)
      {
        FullFieldBits(OBit(r, c));
        DrawBit(board, OBit(r, c));
      }
    }
  }

  lemma {:induction false} ScanFirstLine(board: nat, j: nat)
    requires j <= 12
    ensures Scan(board, j) == FirstLine(board, j)
    decreases 12 - j
  {
    if j < 12 {
      OCombCells(board, j);
      XCombCells(board, j);
      ScanFirstLine(board, j + 1);
    }
  }

  /** The bit tests of `check_winner` compute the verdict read off the
      cells. */
  lemma CheckWinnerJudge(board: nat)
    ensures CheckWinner(board) == Judge(board)
  {
    DrawCells(board);
    ScanFirstLine(board, 0);
  }

  /** No line from `j` on is filled by either player. */
  predicate NoLineFrom(board: nat, j: nat)
    requires j <= 12
  {
    forall i | j <= i < 12 :: !OLine(board, i) && !XLine(board, i)
  }

  /** Line `i` is the first line from `j` on that a player fills. */
  predicate FirstFilled(board: nat, j: nat, i: nat)
    requires j <= i < 12
  {
    (OLine(board, i) || XLine(board, i)) && forall h | j <= h < i :: !OLine(board, h) && !XLine(board, h)
  }

  lemma {:induction false} FirstLineSpec(board: nat, j: nat)
    requires j <= 12
    ensures FirstLine(board, j) == NoWinner <==> NoLineFrom(board, j)
    ensures FirstLine(board, j) == OWins <==> exists i | j <= i < 12 :: FirstFilled(board, j, i) && OLine(board, i)
    ensures FirstLine(board, j) == XWins <==> exists i | j <= i < 12 :: FirstFilled(board, j, i) && !OLine(board, i)
    ensures FirstLine(board, j) != Draw
    decreases 12 - j
  {
    if j < 12 {
      FirstLineSpec(board, j + 1);
      if OLine(board, j) || XLine(board, j) {
        assert FirstFilled(board, j, j);
        forall i | j < i < 12
          ensures !FirstFilled(board, j, i)
        {
          assert !(!OLine(board, j) && !XLine(board, j));
        }
      } else {
        forall i | j < i < 12
          ensures FirstFilled(board, j, i) <==> FirstFilled(board, j + 1, i)
        {
        }
      }
    }
  }

  /** `check_winner` on cells: "D" exactly for a full board, whatever lines
      it holds; otherwise "O" or "X" for the player filling the first
      complete line in the order of `WINNING_COMBS` (O when both fill it),
      and "-" when no line is complete. */
  lemma CheckWinnerCases(board: nat)
    ensures CheckWinner(board) == Draw <==> Full(board)
    ensures CheckWinner(board) == NoWinner <==> !Full(board) && NoLineFrom(board, 0)
    ensures CheckWinner(board) == OWins
        <==> !Full(board) && exists i | 0 <= i < 12 :: FirstFilled(board, 0, i) && OLine(board, i)
    ensures CheckWinner(board) == XWins
        <==> !Full(board) && exists i | 0 <= i < 12 :: FirstFilled(board, 0, i) && !OLine(board, i)
  {
    CheckWinnerJudge(board);
    FirstLineSpec(board, 0);
  }

  /** `is_terminal`. */
  predicate IsTerminal(board: nat)
  {
    CheckWinner(board) != NoWinner
  }

  /** `reward`: `None` (Python's implicit return) off a terminal board. */
  function Reward(board: nat): (r: Option<int>)
  {
    if !IsTerminal(board) then None
    else
      var win := CheckWinner(board);
      Some(if win == OWins then 3 else if win == Draw then 1 else -1)
  }

  /** The reward is seen from O's side: 3 for O's win, 1 for a full board,
      -1 for X's win, and nothing while no line is complete. */
  lemma RewardCases(board: nat)
    ensures Reward(board) == None <==> !Full(board) && NoLineFrom(board, 0)
    ensures Reward(board) == Some(1) <==> Full(board)
    ensures Reward(board) == Some(3) <==> CheckWinner(board) == OWins
    ensures Reward(board) == Some(-1) <==> CheckWinner(board) == XWins
  {
    CheckWinnerCases(board);
  }

  /** `find_children(player)`: `None` on a terminal board. */
  function FindChildren(board: nat, player: string): (r: Option<seq<Child>>)
  {
    if CheckWinner(board) != NoWinner then None else Some(CreatePosition(board, player))
  }

  /** A board has children exactly when no line is complete and a cell is
      empty; on a reachable board every child is reachable and differs from
      it. */
  lemma FindChildrenSpec(board: nat, player: string)
    ensures FindChildren(board, player).None? <==> IsTerminal(board)
    ensures FindChildren(board, player).Some? <==> !Full(board) && NoLineFrom(board, 0)
    ensures Valid(board) && FindChildren(board, player).Some? ==>
      forall k | 0 <= k < |FindChildren(board, player).value| ::
        Valid(FindChildren(board, player).value[k].board) && FindChildren(board, player).value[k].board != board
  {
    CheckWinnerCases(board);
    if Valid(board) && FindChildren(board, player).Some? {
      forall k | 0 <= k < |FindChildren(board, player).value|
        ensures Valid(FindChildren(board, player).value[k].board)
        ensures FindChildren(board, player).value[k].board != board
      {
        CreatePositionMoves(board, player, k);
      }
    }
  }
}
