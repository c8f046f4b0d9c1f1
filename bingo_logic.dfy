/**
 Win detection for a 5x5 Bingo grid whose cells are numbered row-major
 (cell = row * 5 + column). A line is one of twelve fixed five-cell patterns;
 the detector counts how many of them are fully contained in a list of
 checked cell indices.
 */
module BingoLogic {

  /** Number of cells of the grid; every pattern member is below it. */
  const CellCount: int := 25

  /** The twelve winning patterns: five rows, five columns, two diagonals. */
  const WinPatterns: seq<seq<int>> := [
    [0, 1, 2, 3, 4], [5, 6, 7, 8, 9], [10, 11, 12, 13, 14], [15, 16, 17, 18, 19], [20, 21, 22, 23, 24],
    [0, 5, 10, 15, 20], [1, 6, 11, 16, 21], [2, 7, 12, 17, 22], [3, 8, 13, 18, 23], [4, 9, 14, 19, 24],
    [0, 6, 12, 18, 24], [4, 8, 12, 16, 20]
  ]

  /** Every member of `pattern` occurs in `checked` (the `every`/`includes` test). */
  predicate PatternComplete(pattern: seq<int>, checked: seq<int>)
  {
    forall k | 0 <= k < |pattern| :: pattern[k] in checked
  }

  /** Number of patterns of `ps` that are complete over `checked`. */
  function CompletedCount(ps: seq<seq<int>>, checked: seq<int>): nat
  {
    if ps == [] then 0
    else CompletedCount(ps[..|ps| - 1], checked) + (if PatternComplete(ps[|ps| - 1], checked) then 1 else 0)
  }

  /** The value `checkBingoLines` computes. */
  function LineCount(checked: seq<int>): nat
  {
    CompletedCount(WinPatterns, checked)
  }

  /** Indices of the winning patterns that are complete over `checked`. */
  ghost function CompletedLines(checked: seq<int>): set<int>
  {
    set p | 0 <= p < |WinPatterns| && PatternComplete(WinPatterns[p], checked)
  }

  /** Every member of every pattern of `ps` is a cell of the grid. */
  ghost predicate InGrid(ps: seq<seq<int>>)
  {
    forall p, k | 0 <= p < |ps| && 0 <= k < |ps[p]| :: 0 <= ps[p][k] < CellCount
  }

  /** Row `r` of the grid, left to right. */
  function Row(r: int): seq<int> { seq(5, c => 5 * r + c) }

  /** Column `c` of the grid, top to bottom. */
  function Column(c: int): seq<int> { seq(5, r => 5 * r + c) }

  /** The diagonal from the top-left to the bottom-right corner. */
  function MainDiagonal(): seq<int> { seq(5, i => 6 * i) }

  /** The diagonal from the top-right to the bottom-left corner. */
  function AntiDiagonal(): seq<int> { seq(5, i => 4 * i + 4) }

  /**
   Counts the complete winning patterns, one pattern at a time, as
   `checkBingoLines` does with its `lines` counter.
   */
  method CheckBingoLines(checkedIndices: seq<int>) returns (lines: nat)
    ensures lines == LineCount(checkedIndices)
    ensures lines == |CompletedLines(checkedIndices)|
    ensures lines <= |WinPatterns|
  {
    lines := 0;
    var i := 0;
    while i < |WinPatterns|
      invariant 0 <= i <= |WinPatterns|
      invariant lines == CompletedCount(WinPatterns[..i], checkedIndices)
      invariant lines <= i
    {
      if PatternComplete(WinPatterns[i], checkedIndices) {
        lines := lines + 1;
      }
      assert WinPatterns[..i + 1][..i] == WinPatterns[..i];
      i := i + 1;
    }
    assert WinPatterns[..i] == WinPatterns;
    LineCountIsCardinality(checkedIndices);
  }

  // ---------------------------------------------------------------------------
  // The pattern table

  /** The table is exactly the five rows, the five columns and the two diagonals. */
  lemma WinPatternsAreGridLines()
    ensures |WinPatterns| == 12
    ensures forall r | 0 <= r < 5 :: WinPatterns[r] == Row(r)
    ensures forall c | 0 <= c < 5 :: WinPatterns[5 + c] == Column(c)
    ensures WinPatterns[10] == MainDiagonal() && WinPatterns[11] == AntiDiagonal()
  {
    forall r | 0 <= r < 5 ensures WinPatterns[r] == Row(r) {
      assert |Row(r)| == 5;
    }
    forall c | 0 <= c < 5 ensures WinPatterns[5 + c] == Column(c) {
      assert |Column(c)| == 5;
    }
  }

  /** Each pattern has five distinct members, all cells of the grid. */
  lemma PatternsWellFormed()
    ensures InGrid(WinPatterns)
    ensures forall p | 0 <= p < |WinPatterns| :: |WinPatterns[p]| == 5
    ensures forall p, j, k | 0 <= p < |WinPatterns| && 0 <= j < k < |WinPatterns[p]| :: WinPatterns[p][j] < WinPatterns[p][k]
  {
  }

  /** The centre cell 12 lies on four lines: its row, its column and both diagonals. */
  lemma CenterOnFourLines()
    ensures (set p | 0 <= p < |WinPatterns| && 12 in WinPatterns[p]) == {2, 7, 10, 11}
    ensures |set p | 0 <= p < |WinPatterns| && 12 in WinPatterns[p]| == 4
  {
    var s := set p | 0 <= p < |WinPatterns| && 12 in WinPatterns[p];
    assert 12 in WinPatterns[2] && 12 in WinPatterns[7] && 12 in WinPatterns[10] && 12 in WinPatterns[11];
    assert s == {2, 7, 10, 11};
  }

  // ---------------------------------------------------------------------------
  // Counting

  /** The count over a concatenation is the sum of the counts. */
  lemma {:induction false} CompletedCountAppend(ps: seq<seq<int>>, qs: seq<seq<int>>, checked: seq<int>)
    ensures CompletedCount(ps + qs, checked) == CompletedCount(ps, checked) + CompletedCount(qs, checked)
    decreases |qs|
  {
    if qs == [] {
      assert ps + qs == ps;
    } else {
      var n := |qs| - 1;
      assert (ps + qs)[..|ps + qs| - 1] == ps + qs[..n];
      assert (ps + qs)[|ps + qs| - 1] == qs[n];
      CompletedCountAppend(ps, qs[..n], checked);
    }
  }

  /** At most one is counted per pattern. */
  lemma {:induction false} CompletedCountBound(ps: seq<seq<int>>, checked: seq<int>)
    ensures CompletedCount(ps, checked) <= |ps|
    decreases |ps|
  {
    if ps != [] {
      CompletedCountBound(ps[..|ps| - 1], checked);
    }
  }

  /** With no pattern complete, the count is zero; with all complete, it is the number of patterns. */
  lemma {:induction false} CompletedCountExtremes(ps: seq<seq<int>>, checked: seq<int>)
    ensures (forall p | 0 <= p < |ps| :: !PatternComplete(ps[p], checked)) ==> CompletedCount(ps, checked) == 0
    ensures (forall p | 0 <= p < |ps| :: PatternComplete(ps[p], checked)) ==> CompletedCount(ps, checked) == |ps|
    decreases |ps|
  {
    if ps != [] {
      var n := |ps| - 1;
      CompletedCountExtremes(ps[..n], checked);
      assert forall p | 0 <= p < n :: ps[..n][p] == ps[p];
    }
  }

  /** The recursive count is the number of complete pattern indices. */
  lemma {:induction false} CompletedCountIsCardinality(ps: seq<seq<int>>, checked: seq<int>)
    ensures CompletedCount(ps, checked) == |set p | 0 <= p < |ps| && PatternComplete(ps[p], checked)|
    decreases |ps|
  {
    var s := set p | 0 <= p < |ps| && PatternComplete(ps[p], checked);
    if ps == [] {
      assert s == {};
    } else {
      var n := |ps| - 1;
      var t := set p | 0 <= p < n && PatternComplete(ps[..n][p], checked);
      CompletedCountIsCardinality(ps[..n], checked);
      if PatternComplete(ps[n], checked) {
        assert s == t + {n};
        assert n !in t;
      } else {
        assert s == t;
      }
    }
  }

  /** `checkBingoLines` counts exactly the complete winning lines. */
  lemma LineCountIsCardinality(checked: seq<int>)
    ensures LineCount(checked) == |CompletedLines(checked)|
  {
    CompletedCountIsCardinality(WinPatterns, checked);
  }

  /**
   Monotonicity in the grid cells: if every in-grid index of `a` also occurs
   in `b`, no pattern made of grid cells is complete over `a` but not over `b`.
   */
  lemma {:induction false} CompletedCountMonotone(ps: seq<seq<int>>, a: seq<int>, b: seq<int>)
    requires InGrid(ps)
    requires forall x | 0 <= x < CellCount && x in a :: x in b
    ensures CompletedCount(ps, a) <= CompletedCount(ps, b)
    decreases |ps|
  {
    if ps != [] {
      var n := |ps| - 1;
      assert InGrid(ps[..n]) by {
        forall p, k | 0 <= p < n && 0 <= k < |ps[..n][p]| ensures 0 <= ps[..n][p][k] < CellCount {
          assert ps[..n][p] == ps[p];
        }
      }
      CompletedCountMonotone(ps[..n], a, b);
      if PatternComplete(ps[n], a) {
        forall k | 0 <= k < |ps[n]| ensures ps[n][k] in b {
          assert 0 <= ps[n][k] < CellCount;
        }
      }
    }
  }

  // ---------------------------------------------------------------------------
  // Properties of checkBingoLines

  /** The result is between 0 and 12. */
  lemma LineCountBound(checked: seq<int>)
    ensures 0 <= LineCount(checked) <= 12
  {
    CompletedCountBound(WinPatterns, checked);
  }

  /** An empty list completes no line. */
  lemma LineCountEmpty()
    ensures LineCount([]) == 0
  {
    forall p | 0 <= p < |WinPatterns| ensures !PatternComplete(WinPatterns[p], []) {
      assert WinPatterns[p][0] !in [];
    }
    CompletedCountExtremes(WinPatterns, []);
  }

  /** A list that contains every cell 0..24 completes all twelve lines. */
  lemma LineCountAllCells(checked: seq<int>)
    requires forall x | 0 <= x < CellCount :: x in checked
    ensures LineCount(checked) == 12
  {
    PatternsWellFormed();
    forall p | 0 <= p < |WinPatterns| ensures PatternComplete(WinPatterns[p], checked) {
      forall k | 0 <= k < |WinPatterns[p]| ensures WinPatterns[p][k] in checked {
        assert 0 <= WinPatterns[p][k] < CellCount;
      }
    }
    CompletedCountExtremes(WinPatterns, checked);
  }

  /** The list 0..24 in order completes all twelve lines. */
  lemma LineCountFullGrid()
    ensures LineCount(seq(25, i => i)) == 12
  {
    var full := seq(25, i => i);
    forall x | 0 <= x < CellCount ensures x in full {
      assert full[x] == x;
    }
    LineCountAllCells(full);
  }

  /** The first row alone completes exactly one line. */
  lemma LineCountFirstRow()
    ensures LineCount([0, 1, 2, 3, 4]) == 1
  {
    var row := [0, 1, 2, 3, 4];
    var rest := WinPatterns[1..];
    assert WinPatterns == [WinPatterns[0]] + rest;
    forall p | 0 <= p < |rest| ensures !PatternComplete(rest[p], row) {
      assert rest[p] == WinPatterns[p + 1];
      assert WinPatterns[p + 1][4] !in row;
    }
    CompletedCountExtremes(rest, row);
    assert PatternComplete(WinPatterns[0], row);
    assert CompletedCount([WinPatterns[0]], row) == 1 by {
      assert [WinPatterns[0]][..0] == [];
    }
    CompletedCountAppend([WinPatterns[0]], rest, row);
  }

  /** Monotonicity: more checked cells never complete fewer lines. */
  lemma LineCountMonotone(a: seq<int>, b: seq<int>)
    requires forall x | x in a :: x in b
    ensures LineCount(a) <= LineCount(b)
  {
    PatternsWellFormed();
    CompletedCountMonotone(WinPatterns, a, b);
  }

  /**
   Only membership of grid cells matters: two lists that agree on which cells
   0..24 they contain give the same count, whatever their order, their
   duplicates and their indices outside the grid.
   */
  lemma LineCountGridMembership(a: seq<int>, b: seq<int>)
    requires forall x | 0 <= x < CellCount :: x in a <==> x in b
    ensures LineCount(a) == LineCount(b)
  {
    PatternsWellFormed();
    CompletedCountMonotone(WinPatterns, a, b);
    CompletedCountMonotone(WinPatterns, b, a);
  }

  /** Reordering or duplicating entries does not change the count. */
  lemma LineCountOrderIndependent(a: seq<int>, b: seq<int>)
    requires forall x :: x in a <==> x in b
    ensures LineCount(a) == LineCount(b)
  {
    LineCountGridMembership(a, b);
  }

  /** An index outside 0..24 never changes the count. */
  lemma LineCountIgnoresOutside(a: seq<int>, x: int)
    requires x < 0 || CellCount <= x
    ensures LineCount(a + [x]) == LineCount(a)
    ensures LineCount([x] + a) == LineCount(a)
  {
    LineCountGridMembership(a + [x], a);
    LineCountGridMembership([x] + a, a);
  }
}
