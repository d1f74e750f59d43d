/**
 * The board and the game state of src/environment.rs as objects updated in
 * place: `Board` owns the 3x3 array of cells, `Environment` owns the board
 * and remembers whose turn it is. Each method is proved against the
 * functions of module `Rules`.
 */
module Environment {
  import opened Wrappers
  import opened Agents
  import opened Rules

  /** `struct Board { cells: [[Cell; 3]; 3] }`, indexed `cells[y, x]`. */
  class Board {
    var cells: array2<Cell>

    ghost predicate Valid()
      reads this
    {
      cells.Length0 == 3 && cells.Length1 == 3
    }

    /** The contents of the board, as a value. */
    function Snapshot(): Grid
      reads this, cells
      requires Valid()
    {
      seq(3, y requires 0 <= y < 3 && Valid() reads this, cells =>
        seq(3, x requires 0 <= x < 3 && Valid() reads this, cells => cells[y, x]))
    }

    /** `Board::new`: every cell is `Cell::new()`. */
    constructor ()
      ensures Valid() && fresh(cells)
      ensures Snapshot() == EmptyGrid
    {
      cells := new Cell[3, 3]((y, x) => NewCell);
      new;
      assert Snapshot() == EmptyGrid by {
        assert forall y :: 0 <= y < 3 ==> Snapshot()[y] == EmptyGrid[y];
      }
    }

    /** `Board::put`: mark column `x`, row `y` for `agent`, keeping its counter. */
    method Put(x: nat, y: nat, agent: Agent)
      requires Valid() && x < 3 && y < 3
      modifies cells
      ensures Valid()
      ensures Snapshot() == Placed(old(Snapshot()), x, y, agent)
    {
      cells[y, x] := Cell(Some(agent), cells[y, x].counter);
      ghost var want := Placed(old(Snapshot()), x, y, agent);
      assert forall j :: 0 <= j < 3 ==> Snapshot()[j] == want[j];
    }

    /** `Board::update`: the nested loops that age every cell in place. */
    method Update()
      requires Valid() && AllCanAge(Snapshot())
      modifies cells
      ensures Valid()
      ensures Snapshot() == AgedGrid(old(Snapshot()))
    {
      ghost var g0 := Snapshot();
      var y := 0;
      while y < 3
        invariant 0 <= y <= 3
        invariant forall j, i :: 0 <= j < 3 && 0 <= i < 3 ==>
                    cells[j, i] == if j < y then Aged(g0[j][i]) else g0[j][i]
      {
        var x := 0;
        while x < 3
          invariant 0 <= x <= 3
          invariant forall j, i :: 0 <= j < 3 && 0 <= i < 3 ==>
                      cells[j, i] == if j < y || (j == y && i < x) then Aged(g0[j][i]) else g0[j][i]
        {
          cells[y, x] := Aged(cells[y, x]);
          x := x + 1;
        }
        y := y + 1;
      }
      ghost var want := AgedGrid(g0);
      assert forall j :: 0 <= j < 3 ==> Snapshot()[j] == want[j];
    }
  }

  /** `struct Environment { board, curent_agent }`. */
  class Environment {
    var board: Board
    var current: Agent

    /** The board has its shape and satisfies the invariant kept between turns. */
    ghost predicate Valid()
      reads this, board, board.cells
    {
      board.Valid() && Inv(board.Snapshot())
    }

    /** The state of the game, as a value. */
    ghost function State(): Game
      reads this, board, board.cells
      requires board.Valid()
    {
      Game(board.Snapshot(), current)
    }

    /** `Environment::new`: an empty board, and `MARU` to move. */
    constructor ()
      ensures Valid() && fresh(board) && fresh(board.cells)
      ensures State() == Initial
    {
      board := new Board();
      current := Maru;
      InitialInv();
    }

    /**
     * `Environment::next`: refuse an occupied cell and leave everything as
     * it was; otherwise place the current player's mark, pass the turn and
     * age every cell, as `Advance` says.
     */
    method Next(x: nat, y: nat) returns (r: Result<(), NextError>)
      requires Valid() && x < 3 && y < 3
      modifies this, board.cells
      ensures board == old(board) && board.cells == old(board.cells)
      ensures Valid()
      ensures CanAdvance(old(State()), x, y)
      ensures Advance(old(State()), x, y).Err? ==>
                r == Err(AlreadyPlaced) && State() == old(State())
      ensures Advance(old(State()), x, y).Ok? ==>
                r.Ok? && State() == Advance(old(State()), x, y).value
      ensures r.Ok? <==> old(board.Snapshot())[y][x].agent.None?
      ensures r.Ok? ==> board.Snapshot()[y][x] == Cell(Some(old(current)), 1) && current == old(current).Next()
    {
      AdvanceKeepsInv(State(), x, y);
      if board.cells[y, x].agent.Some? {
        return Err(AlreadyPlaced);
      }
      board.Put(x, y, current);
      current := current.Next();
      board.Update();
      r := Ok(());
    }

    /** `Environment::is_done`: some row, column or diagonal is all one player's. */
    function IsDone(): (r: bool)
      reads this, board, board.cells
      requires Valid()
      ensures r <==> exists l :: 0 <= l < 8 && LineComplete(board.Snapshot(), l)
    {
      WinnerIsFirstCompleteLine(board.Snapshot(), Maru);
      Rules.Winner(board.Snapshot()).Some?
    }

    /**
     * `Environment::winner` (which unwraps, so the game must be over): the
     * owner of the first complete line in scan order.
     */
    function Winner(): (r: Agent)
      reads this, board, board.cells
      requires Valid() && IsDone()
      ensures exists l :: 0 <= l < 8 && LineOwnedBy(board.Snapshot(), l, r) &&
                (forall m :: 0 <= m < l ==> !LineComplete(board.Snapshot(), m))
    {
      var a := Rules.Winner(board.Snapshot()).value;
      WinnerIsFirstCompleteLine(board.Snapshot(), a);
      a
    }

    /** `Environment::current_agent`: whose turn it is. */
    function CurrentAgent(): (r: Agent)
      reads this
      ensures r == current
    {
      current
    }
  }
}
