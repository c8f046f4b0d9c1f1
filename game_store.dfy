/**
 The client-side game store: the room fields the client mirrors, the local
 player's identity, and the board the local player builds before play. The
 board functions below specify the store's board-building actions; the class
 `Store` holds the fields and the actions that overwrite them.
 */
module GameStore {
  import opened GameTypes

  /** A board: one optional number per cell, `None` for an empty cell. */
  type Board = seq<Option<int>>

  /** Number of cells of a board the store creates. */
  const BoardSize: nat := 25

  /** The largest number the interactive fill may place. */
  const MaxNumber: nat := 25

  /** The characters a generated player id is drawn from (base-36 digits). */
  const Base36Digits: string := "0123456789abcdefghijklmnopqrstuvwxyz"

  /** A board of `BoardSize` empty cells. */
  function EmptyBoard(): Board
  {
    seq(BoardSize, _ => None)
  }

  /** The numbers placed on the board, in cell order. */
  function FilledValues(b: Board): seq<int>
  {
    if b == [] then []
    else (if b[0].Some? then [b[0].value] else []) + FilledValues(b[1..])
  }

  /** The number of filled cells. */
  function FilledCount(b: Board): nat
  {
    |FilledValues(b)|
  }

  /** The numbers 1, 2, ..., k in increasing order. */
  function Upto(k: nat): seq<int>
  {
    seq(k, i => i + 1)
  }

  /** Every number of `s` as a filled cell, in order. */
  function Lift(s: seq<int>): Board
  {
    seq(|s|, i requires 0 <= i < |s| => Some(s[i]))
  }

  /** Every cell of `b` is empty. */
  ghost predicate AllCellsEmpty(b: Board)
  {
    forall i | 0 <= i < |b| :: b[i] == None
  }

  /** No number occurs twice in `s`. */
  ghost predicate Distinct(s: seq<int>)
  {
    forall i, j | 0 <= i < j < |s| :: s[i] != s[j]
  }

  /** The filled cells hold exactly the numbers 1..k, each once. */
  ghost predicate FilledWith(b: Board, k: nat)
  {
    multiset(FilledValues(b)) == multiset(Upto(k))
  }

  /** A complete board: 25 cells holding a permutation of 1..25. */
  ghost predicate IsFullBoard(b: Board)
  {
    |b| == BoardSize &&
    (forall i | 0 <= i < |b| :: b[i].Some?) &&
    FilledWith(b, MaxNumber)
  }

  /** What `fillCell(index)` does to the board. */
  function FillCellBoard(b: Board, index: int): Board
  {
    if !(0 <= index < |b|) || b[index].Some? then b
    else
      var nextNumber := FilledCount(b) + 1;
      if nextNumber > MaxNumber then b
      else b[index := Some(nextNumber)]
  }

  /** The board after calling `fillCell` on each index of `indices` in turn. */
  function FillCells(b: Board, indices: seq<int>): Board
    decreases |indices|
  {
    if indices == [] then b
    else FillCells(FillCellBoard(b, indices[0]), indices[1..])
  }

  /** A player id as `Math.random().toString(36).substring(2, 9)` yields it. */
  predicate IsGeneratedId(id: string)
  {
    |id| <= 7 && forall k | 0 <= k < |id| :: id[k] in Base36Digits
  }

  // ---------------------------------------------------------------------------
  // Lemmas about filled cells

  /** The filled count never exceeds the board size, and equals it exactly when no cell is empty. */
  lemma {:induction false} FilledCountBound(b: Board)
    ensures FilledCount(b) <= |b|
    ensures FilledCount(b) == |b| <==> forall i | 0 <= i < |b| :: b[i].Some?
    decreases |b|
  {
    if b != [] {
      FilledCountBound(b[1..]);
      assert forall i | 1 <= i < |b| :: b[1..][i - 1] == b[i];
      if b[0].Some? && forall i | 0 <= i < |b| - 1 :: b[1..][i].Some? {
        forall i | 0 <= i < |b| ensures b[i].Some? {
          if i > 0 { assert b[1..][i - 1] == b[i]; }
        }
      }
    }
  }

  /** A board whose cells are all empty holds no numbers. */
  lemma {:induction false} FilledValuesOfEmpty(b: Board)
    requires AllCellsEmpty(b)
    ensures FilledValues(b) == []
    decreases |b|
  {
    if b != [] {
      assert forall i | 0 <= i < |b| - 1 :: b[1..][i] == b[i + 1];
      FilledValuesOfEmpty(b[1..]);
    }
  }

  /** The empty board has 25 empty cells and holds no numbers. */
  lemma EmptyBoardHoldsNothing()
    ensures |EmptyBoard()| == BoardSize && AllCellsEmpty(EmptyBoard())
    ensures FilledCount(EmptyBoard()) == 0 && FilledWith(EmptyBoard(), 0)
  {
    FilledValuesOfEmpty(EmptyBoard());
  }

  /** Lifting a list of numbers gives a board whose filled values are that list. */
  lemma {:induction false} FilledValuesOfLift(s: seq<int>)
    ensures FilledValues(Lift(s)) == s
    decreases |s|
  {
    if s != [] {
      assert Lift(s)[1..] == Lift(s[1..]);
      FilledValuesOfLift(s[1..]);
    }
  }

  /** On a board without empty cells, the filled values are the cells' numbers, cell by cell. */
  lemma {:induction false} FilledValuesOfFull(b: Board)
    requires forall i | 0 <= i < |b| :: b[i].Some?
    ensures |FilledValues(b)| == |b|
    ensures forall i | 0 <= i < |b| :: FilledValues(b)[i] == b[i].value
    decreases |b|
  {
    if b != [] {
      assert forall i | 0 <= i < |b| - 1 :: b[1..][i] == b[i + 1];
      FilledValuesOfFull(b[1..]);
    }
  }

  /** Filling one empty cell with `x` adds exactly one `x` to the filled values. */
  lemma {:induction false} FilledValuesAfterFill(b: Board, i: int, x: int)
    requires 0 <= i < |b| && b[i] == None
    ensures multiset(FilledValues(b[i := Some(x)])) == multiset(FilledValues(b)) + multiset{x}
    decreases |b|
  {
    var b' := b[i := Some(x)];
    if i == 0 {
      assert b'[1..] == b[1..];
      assert FilledValues(b') == [x] + FilledValues(b[1..]);
      assert FilledValues(b) == FilledValues(b[1..]);
    } else {
      var head := if b[0].Some? then [b[0].value] else [];
      assert b'[0] == b[0];
      assert b'[1..] == b[1..][i - 1 := Some(x)];
      assert FilledValues(b') == head + FilledValues(b'[1..]);
      assert FilledValues(b) == head + FilledValues(b[1..]);
      FilledValuesAfterFill(b[1..], i - 1, x);
    }
  }

  /** A board holding exactly 1..k has k filled cells. */
  lemma FilledWithCount(b: Board, k: nat)
    requires FilledWith(b, k)
    ensures FilledCount(b) == k
  {
    assert |multiset(FilledValues(b))| == |multiset(Upto(k))|;
  }

  /** The numbers 1..k+1 are the numbers 1..k and one more k+1. */
  lemma UptoNext(k: nat)
    ensures multiset(Upto(k + 1)) == multiset(Upto(k)) + multiset{k + 1}
  {
    assert Upto(k + 1) == Upto(k) + [k + 1];
  }

  /** A sequence without repeats holds each number at most once. */
  lemma {:induction false} DistinctMultiplicity(s: seq<int>, v: int)
    requires Distinct(s)
    ensures multiset(s)[v] <= 1
    decreases |s|
  {
    if s != [] {
      assert s == [s[0]] + s[1..];
      assert Distinct(s[1..]) by {
        forall i, j | 0 <= i < j < |s[1..]| ensures s[1..][i] != s[1..][j] {
          assert s[1..][i] == s[i + 1] && s[1..][j] == s[j + 1];
        }
      }
      DistinctMultiplicity(s[1..], v);
      if s[0] == v {
        assert v !in s[1..] by {
          forall j | 0 <= j < |s[1..]| ensures s[1..][j] != v {
            assert s[1..][j] == s[j + 1];
          }
        }
      }
    }
  }

  /** A number at two different positions occurs at least twice. */
  lemma TwiceMultiplicity(s: seq<int>, i: int, j: int)
    requires 0 <= i < j < |s| && s[i] == s[j]
    ensures multiset(s)[s[i]] >= 2
  {
    assert s == s[..i] + [s[i]] + s[i + 1..j] + [s[j]] + s[j + 1..];
  }

  /** A rearrangement of a sequence without repeats has no repeats. */
  lemma PermutationKeepsDistinct(s: seq<int>, t: seq<int>)
    requires multiset(s) == multiset(t) && Distinct(t)
    ensures Distinct(s)
  {
    forall i, j | 0 <= i < j < |s| ensures s[i] != s[j] {
      if s[i] == s[j] {
        TwiceMultiplicity(s, i, j);
        DistinctMultiplicity(t, s[i]);
        assert false;
      }
    }
  }

  /**
   A full board has no repeats and no gaps: its cells hold pairwise different
   numbers, and every number 1..25 is in some cell.
   */
  lemma FullBoardIsPermutation(b: Board)
    requires IsFullBoard(b)
    ensures forall i, j | 0 <= i < j < |b| :: b[i] != b[j]
    ensures forall v | 1 <= v <= MaxNumber :: Some(v) in b
  {
    var vs := FilledValues(b);
    FilledValuesOfFull(b);
    PermutationKeepsDistinct(vs, Upto(MaxNumber));
    forall i, j | 0 <= i < j < |b| ensures b[i] != b[j] {
      assert vs[i] != vs[j];
    }
    forall v | 1 <= v <= MaxNumber ensures Some(v) in b {
      assert Upto(MaxNumber)[v - 1] == v;
      assert v in multiset(vs);
      var i :| 0 <= i < |vs| && vs[i] == v;
      assert b[i] == Some(v);
    }
  }

  // ---------------------------------------------------------------------------
  // Lemmas about fillCell

  /**
   `fillCell` on a board holding exactly 1..k: if the cell exists, is empty and
   k is below 25, the cell receives k + 1 and the board then holds exactly
   1..k+1; otherwise the board is unchanged.
   */
  lemma FillCellSequential(b: Board, index: int, k: nat)
    requires FilledWith(b, k)
    ensures |FillCellBoard(b, index)| == |b|
    ensures (0 <= index < |b| && b[index] == None && k < MaxNumber) ==>
      FillCellBoard(b, index) == b[index := Some(k + 1)] && FilledWith(FillCellBoard(b, index), k + 1)
    ensures !(0 <= index < |b| && b[index] == None && k < MaxNumber) ==> FillCellBoard(b, index) == b
  {
    FilledWithCount(b, k);
    if 0 <= index < |b| && b[index] == None && k < MaxNumber {
      assert FillCellBoard(b, index) == b[index := Some(k + 1)];
      FilledValuesAfterFill(b, index, k + 1);
      UptoNext(k);
    }
  }

  /** `fillCell` keeps a 25-cell board holding exactly 1..k, k its filled count. */
  lemma FillCellKeepsSetup(b: Board, index: int)
    ensures |b| == BoardSize && FilledWith(b, FilledCount(b)) ==>
      |FillCellBoard(b, index)| == BoardSize && FilledWith(FillCellBoard(b, index), FilledCount(FillCellBoard(b, index)))
  {
    if |b| == BoardSize && FilledWith(b, FilledCount(b)) {
      var r := FillCellBoard(b, index);
      FillCellSequential(b, index, FilledCount(b));
      if r != b {
        FilledWithCount(r, FilledCount(b) + 1);
      }
    }
  }

  /**
   On a 25-cell board the `nextNumber > 25` guard never refuses a fill that the
   empty-cell check lets through: an empty cell means fewer than 25 are filled.
   */
  lemma FillCellGuardNeverDecides(b: Board, index: int)
    requires |b| == BoardSize && 0 <= index < |b| && b[index] == None
    ensures FilledCount(b) + 1 <= MaxNumber
    ensures FillCellBoard(b, index) == b[index := Some(FilledCount(b) + 1)]
  {
    FilledCountBound(b);
  }

  /** A fill sequence keeps the board size. */
  lemma {:induction false} FillCellsLength(b: Board, indices: seq<int>)
    ensures |FillCells(b, indices)| == |b|
    decreases |indices|
  {
    if indices != [] {
      FillCellsLength(FillCellBoard(b, indices[0]), indices[1..]);
    }
  }

  /** Distinct empty cells of a board, as the fill sequence visits them. */
  ghost predicate DistinctEmptyCells(b: Board, indices: seq<int>)
  {
    (forall j | 0 <= j < |indices| :: 0 <= indices[j] < |b| && b[indices[j]] == None) &&
    (forall j1, j2 | 0 <= j1 < j2 < |indices| :: indices[j1] != indices[j2])
  }

  /** One step of a fill sequence on a 25-cell board holding exactly 1..k. */
  lemma FillCellsStep(b: Board, indices: seq<int>, k: nat)
    requires |b| == BoardSize && FilledWith(b, k)
    requires indices != [] && DistinctEmptyCells(b, indices)
    ensures FillCellBoard(b, indices[0]) == b[indices[0] := Some(k + 1)]
    ensures FilledWith(b[indices[0] := Some(k + 1)], k + 1)
    ensures DistinctEmptyCells(b[indices[0] := Some(k + 1)], indices[1..])
  {
    var i := indices[0];
    var rest := indices[1..];
    var b' := b[i := Some(k + 1)];
    FilledWithCount(b, k);
    FillCellGuardNeverDecides(b, i);
    FilledValuesAfterFill(b, i, k + 1);
    UptoNext(k);
    forall j | 0 <= j < |rest| ensures 0 <= rest[j] < |b'| && b'[rest[j]] == None {
      assert rest[j] == indices[j + 1] && indices[0] != indices[j + 1];
    }
    forall j1, j2 | 0 <= j1 < j2 < |rest| ensures rest[j1] != rest[j2] {
      assert rest[j1] == indices[j1 + 1] && rest[j2] == indices[j2 + 1];
    }
  }

  /**
   Filling distinct empty cells of a 25-cell board holding exactly 1..k adds
   the next numbers in turn: afterwards the board holds exactly 1..k+n.
   */
  lemma FillCellsSequential(b: Board, indices: seq<int>, k: nat)
    requires |b| == BoardSize && FilledWith(b, k)
    requires DistinctEmptyCells(b, indices)
    ensures FilledWith(FillCells(b, indices), k + |indices|)
  {
    FillCellsReach(b, indices, k, k + |indices|);
  }

  /** The induction behind `FillCellsSequential`, with the final count `n` fixed. */
  lemma {:induction false} FillCellsReach(b: Board, indices: seq<int>, k: nat, n: nat)
    requires |b| == BoardSize && FilledWith(b, k)
    requires DistinctEmptyCells(b, indices)
    requires n == k + |indices|
    ensures FilledWith(FillCells(b, indices), n)
    decreases |indices|
  {
    if indices == [] {
      assert FillCells(b, indices) == b;
    } else {
      var b' := b[indices[0] := Some(k + 1)];
      FillCellsStep(b, indices, k);
      assert FillCells(b, indices) == FillCells(b', indices[1..]);
      FillCellsReach(b', indices[1..], k + 1, n);
    }
  }

  /**
   Starting from the empty board, 25 `fillCell` calls on distinct cells give a
   full board (a permutation of 1..25), after which every `fillCell` is a no-op.
   */
  lemma FillAllCells(indices: seq<int>)
    requires |indices| == BoardSize
    requires forall j | 0 <= j < |indices| :: 0 <= indices[j] < BoardSize
    requires forall j1, j2 | 0 <= j1 < j2 < |indices| :: indices[j1] != indices[j2]
    ensures IsFullBoard(FillCells(EmptyBoard(), indices))
    ensures forall index :: FillCellBoard(FillCells(EmptyBoard(), indices), index) == FillCells(EmptyBoard(), indices)
  {
    var e := EmptyBoard();
    EmptyBoardHoldsNothing();
    assert DistinctEmptyCells(e, indices);
    FillCellsSequential(e, indices, 0);
    FillCellsLength(e, indices);
    var r := FillCells(e, indices);
    FilledWithCount(r, MaxNumber);
    FilledCountBound(r);
  }

  // ---------------------------------------------------------------------------
  // The store

  /** The store's fields and the actions that overwrite them. */
  class Store {
    var roomId: Option<string>
    var status: GameStatus
    var players: seq<Player>
    var currentPlayerTurnId: Option<string>
    var numbersPicked: seq<int>
    var winnerId: Option<string>
    var board: Board
    var localPlayerId: Option<string>

    /**
     The board-building invariant: 25 cells whose filled numbers are exactly
     1..k, k being the number of filled cells. The store's own building
     actions keep it; `SetBoard` accepts any board.
     */
    ghost predicate BoardInSetup()
      reads this
    {
      |board| == BoardSize && FilledWith(board, FilledCount(board))
    }

    /** The initial store. */
    constructor ()
      ensures roomId == None && status == Lobby && players == []
      ensures currentPlayerTurnId == None && numbersPicked == [] && winnerId == None
      ensures board == EmptyBoard() && localPlayerId == None
      ensures |board| == BoardSize && AllCellsEmpty(board)
      ensures BoardInSetup() && FilledCount(board) == 0
    {
      EmptyBoardHoldsNothing();
      var empty := EmptyBoard();
      roomId := None;
      status := Lobby;
      players := [];
      currentPlayerTurnId := None;
      numbersPicked := [];
      winnerId := None;
      board := empty;
      localPlayerId := None;
    }

    /**
     Gives the local player a freshly drawn id and makes the player list that
     single, not-yet-ready player with an empty board.
     */
    method SetPlayerName(name: string)
      modifies this`localPlayerId, this`players
      ensures localPlayerId.Some? && IsGeneratedId(localPlayerId.value)
      ensures |players| == 1
      ensures players[0] == Player(localPlayerId.value, name, false, false, [], [], None)
    {
      assert IsGeneratedId("");
      var newId: string :| IsGeneratedId(newId);
      localPlayerId := Some(newId);
      players := [Player(newId, name, false, false, [], [], None)];
    }

    /** Records the room the client is in. */
    method SetRoomId(id: string)
      modifies this`roomId
      ensures roomId == Some(id)
    {
      roomId := Some(id);
    }

    /** Overwrites the room status. */
    method SetGameStatus(s: GameStatus)
      modifies this`status
      ensures status == s
    {
      status := s;
    }

    /** Overwrites the local board with any board. */
    method SetBoard(newBoard: Board)
      modifies this`board
      ensures board == newBoard
    {
      board := newBoard;
    }

    /**
     Puts the next number (filled count + 1) into cell `index`. An index off
     the board, an occupied cell, or a next number above 25 leaves the store
     unchanged.
     */
    method FillCell(index: int)
      modifies this`board
      ensures board == FillCellBoard(old(board), index)
      ensures |board| == |old(board)|
      ensures (0 <= index < |old(board)| && old(board)[index] == None && FilledCount(old(board)) < MaxNumber) ==>
        board == old(board)[index := Some(FilledCount(old(board)) + 1)]
      ensures !(0 <= index < |old(board)| && old(board)[index] == None && FilledCount(old(board)) < MaxNumber) ==>
        board == old(board)
      ensures old(BoardInSetup()) ==> BoardInSetup()
    {
      if !(0 <= index < |board|) || board[index].Some? {
        return;
      }
      var nextNumber := FilledCount(board) + 1;
      if nextNumber > MaxNumber {
        return;
      }
      board := board[index := Some(nextNumber)];
      assert board == FillCellBoard(old(board), index);
      FillCellKeepsSetup(old(board), index);
    }

    /** Replaces the board with some permutation of 1..25. */
    method RandomizeBoard()
      modifies this`board
      ensures IsFullBoard(board)
      ensures BoardInSetup()
    {
      assert multiset(Upto(MaxNumber)) == multiset(Upto(MaxNumber));
      var shuffled: seq<int> :| multiset(shuffled) == multiset(Upto(MaxNumber));
      assert |shuffled| == MaxNumber by {
        assert |multiset(shuffled)| == |multiset(Upto(MaxNumber))|;
      }
      board := Lift(shuffled);
      FilledValuesOfLift(shuffled);
    }

    /** Mirrors the room's picked numbers. */
    method SetNumbersPicked(numbers: seq<int>)
      modifies this`numbersPicked
      ensures numbersPicked == numbers
    {
      numbersPicked := numbers;
    }

    /** Mirrors the room's player list. */
    method UpdatePlayers(newPlayers: seq<Player>)
      modifies this`players
      ensures players == newPlayers
    {
      players := newPlayers;
    }

    /** Records the winner and finishes the game. */
    method SetWinner(w: string)
      modifies this`winnerId, this`status
      ensures winnerId == Some(w) && status == Finished
    {
      winnerId := Some(w);
      status := Finished;
    }

    /**
     Returns to the lobby with no picks, no winner, no turn and an empty
     25-cell board; the room, the players and the local id are kept.
     */
    method ResetGame()
      modifies this`status, this`numbersPicked, this`winnerId, this`currentPlayerTurnId, this`board
      ensures status == Lobby && numbersPicked == [] && winnerId == None && currentPlayerTurnId == None
      ensures board == EmptyBoard() && |board| == BoardSize && AllCellsEmpty(board)
      ensures BoardInSetup() && FilledCount(board) == 0
    {
      status := Lobby;
      numbersPicked := [];
      winnerId := None;
      currentPlayerTurnId := None;
      board := EmptyBoard();
      EmptyBoardHoldsNothing();
    }
  }
}
