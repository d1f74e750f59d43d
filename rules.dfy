/**
 * The rules of the decaying-mark board of src/environment.rs, as values:
 * a cell, the 3x3 grid `cells[y][x]`, what `Board::put`, `Board::update`,
 * `Environment::next` and `Board::winner` do to them, and the invariant
 * that every sequence of moves keeps. The classes in environment.dfy carry
 * out these operations in place and are proved against these functions.
 */
module Rules {
  import opened Wrappers
  import opened Agents

  /** Rust's `u8`. */
  newtype u8 = n: int | 0 <= n < 256

  /** `Cell::MAX_COUNTER`: a mark whose counter reaches it is removed. */
  const MaxCounter: u8 := 7

  /** One square: who has marked it, and how many updates the mark has seen. */
  datatype Cell = Cell(agent: Option<Agent>, counter: u8)

  /** `Cell::new`. */
  const NewCell := Cell(None, 0)

  /** `counter += 1` on an occupied cell stays within `u8`. */
  predicate CanAge(c: Cell) {
    c.agent.None? || c.counter < 255
  }

  /**
   * `Cell::update`: an occupied cell's counter goes up by one and an empty
   * cell's is reset to 0; a cell whose counter reaches `MaxCounter` is
   * emptied.
   */
  function Aged(c: Cell): (r: Cell)
    requires CanAge(c)
    ensures r.agent.None? ==> r.counter == 0
    ensures r.agent.Some? ==> r.agent == c.agent && r.counter == c.counter + 1
    ensures c.agent.Some? && c.counter + 1 != MaxCounter ==> r.agent == c.agent
    ensures c.agent.Some? && c.counter + 1 == MaxCounter ==> r.agent.None?
  {
    var counter := if c.agent.Some? then c.counter + 1 else 0;
    if counter == MaxCounter then Cell(None, 0) else Cell(c.agent, counter)
  }

  /** `[[Cell; 3]; 3]`, indexed `g[y][x]`. */
  type Grid = g: seq<seq<Cell>> | |g| == 3 && forall y :: 0 <= y < |g| ==> |g[y]| == 3
    witness [[NewCell, NewCell, NewCell], [NewCell, NewCell, NewCell], [NewCell, NewCell, NewCell]]

  /** `Board::new`: nine new cells. */
  const EmptyGrid: Grid := seq(3, y => seq(3, x => NewCell))

  /** `Board::put`: the cell at column `x`, row `y` gets owner `a`; its counter is kept. */
  function Placed(g: Grid, x: nat, y: nat, a: Agent): (r: Grid)
    requires x < 3 && y < 3
    ensures r[y][x] == Cell(Some(a), g[y][x].counter)
    ensures forall j, i :: 0 <= j < 3 && 0 <= i < 3 && (j != y || i != x) ==> r[j][i] == g[j][i]
  {
    g[y := g[y][x := Cell(Some(a), g[y][x].counter)]]
  }

  predicate AllCanAge(g: Grid) {
    forall y, x :: 0 <= y < 3 && 0 <= x < 3 ==> CanAge(g[y][x])
  }

  /** `Board::update`: every cell is aged, each independently of the others. */
  function AgedGrid(g: Grid): (r: Grid)
    requires AllCanAge(g)
    ensures forall y, x :: 0 <= y < 3 && 0 <= x < 3 ==> r[y][x] == Aged(g[y][x])
  {
    seq(3, y requires 0 <= y < 3 => seq(3, x requires 0 <= x < 3 => Aged(g[y][x])))
  }

  /** The state of `Environment`: the board and whose turn it is. */
  datatype Game = Game(grid: Grid, current: Agent)

  /** `Environment::new`: an empty board, and `MARU` to move. */
  const Initial := Game(EmptyGrid, Maru)

  /** The one way `Environment::next` can fail. */
  datatype NextError = AlreadyPlaced

  /**
   * What `Environment::next` needs of its caller: a cell of the board
   * (`cells[y][x]` panics otherwise), and no `u8` overflow in the update.
   */
  predicate CanAdvance(s: Game, x: nat, y: nat) {
    && x < 3 && y < 3
    && (s.grid[y][x].agent.None? ==> AllCanAge(Placed(s.grid, x, y, s.current)))
  }

  /**
   * `Environment::next`: refuse an occupied cell; otherwise mark it for the
   * current player, pass the turn, and age every cell.
   */
  function Advance(s: Game, x: nat, y: nat): (r: Result<Game, NextError>)
    requires CanAdvance(s, x, y)
    ensures r.Err? <==> s.grid[y][x].agent.Some?
    ensures r.Ok? ==> r.value.current == s.current.Next()
    ensures r.Ok? ==> r.value.grid[y][x] == Aged(Cell(Some(s.current), s.grid[y][x].counter))
    ensures r.Ok? ==>
              forall j, i :: 0 <= j < 3 && 0 <= i < 3 && (j != y || i != x) ==>
                r.value.grid[j][i] == Aged(s.grid[j][i])
  {
    if s.grid[y][x].agent.Some? then Err(AlreadyPlaced)
    else Ok(Game(AgedGrid(Placed(s.grid, x, y, s.current)), s.current.Next()))
  }

  // ---------------------------------------------------------------------
  // The invariant kept between turns
  // ---------------------------------------------------------------------

  /** An empty cell has counter 0; a marked one has counter 1 to 6. */
  predicate CellInv(c: Cell) {
    if c.agent.None? then c.counter == 0 else 1 <= c.counter <= 6
  }

  /**
   * The board between turns: every cell satisfies `CellInv`, and no two
   * marks have the same counter (the counter of a mark is the number of
   * turns since it was placed).
   */
  predicate Inv(g: Grid) {
    && (forall y, x :: 0 <= y < 3 && 0 <= x < 3 ==> CellInv(g[y][x]))
    && (forall y1, x1, y2, x2 ::
          && 0 <= y1 < 3 && 0 <= x1 < 3 && 0 <= y2 < 3 && 0 <= x2 < 3
          && (y1 != y2 || x1 != x2)
          && g[y1][x1].agent.Some? && g[y2][x2].agent.Some?
          ==> g[y1][x1].counter != g[y2][x2].counter)
  }

  /** A new board satisfies the invariant, and so does the new game. */
  lemma InitialInv()
    ensures Inv(Initial.grid)
    ensures forall y, x :: 0 <= y < 3 && 0 <= x < 3 ==> Initial.grid[y][x] == NewCell
    ensures Initial.current == Maru
  {
  }

  /** Under the invariant, `Environment::next` never overflows a counter. */
  lemma InvCanAdvance(s: Game, x: nat, y: nat)
    requires Inv(s.grid) && x < 3 && y < 3
    ensures CanAdvance(s, x, y)
  {
    if s.grid[y][x].agent.None? {
      var p := Placed(s.grid, x, y, s.current);
      forall j, i | 0 <= j < 3 && 0 <= i < 3
        ensures CanAge(p[j][i])
      {
        assert CellInv(s.grid[j][i]);
      }
    }
  }

  /**
   * What a successful `Environment::next` does, on a board that satisfies
   * the invariant: the chosen cell holds the player who moved with counter
   * 1, the turn passes, every other cell is aged, and the invariant holds
   * again. A refused move changes nothing.
   */
  lemma {:induction false} AdvanceKeepsInv(s: Game, x: nat, y: nat)
    requires Inv(s.grid) && x < 3 && y < 3
    ensures CanAdvance(s, x, y)
    ensures s.grid[y][x].agent.Some? ==> Advance(s, x, y) == Err(AlreadyPlaced)
    ensures s.grid[y][x].agent.None? ==>
              && Advance(s, x, y).Ok?
              && Advance(s, x, y).value.grid[y][x] == Cell(Some(s.current), 1)
              && Advance(s, x, y).value.current == s.current.Next()
              && Inv(Advance(s, x, y).value.grid)
  {
    InvCanAdvance(s, x, y);
    if s.grid[y][x].agent.None? {
      var g := s.grid;
      var t := Advance(s, x, y).value.grid;
      assert CellInv(g[y][x]);
      assert t[y][x] == Cell(Some(s.current), 1);
      forall j, i | 0 <= j < 3 && 0 <= i < 3
        ensures CellInv(t[j][i])
        ensures t[j][i].agent.Some? && (j != y || i != x) ==>
                  g[j][i].agent.Some? && t[j][i].counter == g[j][i].counter + 1
      {
        assert CellInv(g[j][i]);
      }
      forall y1, x1, y2, x2 |
        && 0 <= y1 < 3 && 0 <= x1 < 3 && 0 <= y2 < 3 && 0 <= x2 < 3
        && (y1 != y2 || x1 != x2)
        && t[y1][x1].agent.Some? && t[y2][x2].agent.Some?
        ensures t[y1][x1].counter != t[y2][x2].counter
      {
        if (y1 != y || x1 != x) && (y2 != y || x2 != x) {
          assert g[y1][x1].counter != g[y2][x2].counter;
        }
      }
    }
  }

  // ---------------------------------------------------------------------
  // At most six marks: there is always a free cell
  // ---------------------------------------------------------------------

  /** The positions `(x, y)` that hold a mark. */
  function Marks(g: Grid): (m: set<(nat, nat)>)
    ensures forall p :: p in m ==> p.0 < 3 && p.1 < 3 && g[p.1][p.0].agent.Some?
  {
    set y: nat, x: nat | y < 3 && x < 3 && g[y][x].agent.Some? :: (x, y)
  }

  /** The counters of the marks at positions `ps`. */
  function Counters(g: Grid, ps: set<(nat, nat)>): set<int>
    requires forall p :: p in ps ==> p.0 < 3 && p.1 < 3
  {
    set p | p in ps :: g[p.1][p.0].counter as int
  }

  lemma {:induction false} CountersInjective(g: Grid, ps: set<(nat, nat)>)
    requires Inv(g) && ps <= Marks(g)
    ensures |Counters(g, ps)| == |ps|
    decreases ps
  {
    if ps != {} {
      var p :| p in ps;
      var rest := ps - {p};
      CountersInjective(g, rest);
      var c := g[p.1][p.0].counter as int;
      assert Counters(g, ps) == Counters(g, rest) + {c};
      assert c !in Counters(g, rest);
    }
  }

  /** At most six cells are marked between turns. */
  lemma AtMostSixMarks(g: Grid)
    requires Inv(g)
    ensures |Marks(g)| <= 6
  {
    CountersInjective(g, Marks(g));
    var range: set<int> := {1, 2, 3, 4, 5, 6};
    assert Counters(g, Marks(g)) <= range;
    SubsetCard(Counters(g, Marks(g)), range);
  }

  lemma SubsetCard<T>(a: set<T>, b: set<T>)
    requires a <= b
    ensures |a| <= |b|
  {
    assert b == a + (b - a);
    assert a * (b - a) == {};
  }

  /**
   * Between turns some cell is free, so a player who looks for a free cell
   * (as the random player does) can find one.
   */
  lemma HasFreeCell(g: Grid)
    requires Inv(g)
    ensures exists y, x :: 0 <= y < 3 && 0 <= x < 3 && g[y][x].agent.None?
  {
    AtMostSixMarks(g);
    if forall y, x :: 0 <= y < 3 && 0 <= x < 3 ==> g[y][x].agent.Some? {
      var m := Marks(g);
      assert (0, 0) in m && (1, 0) in m && (2, 0) in m;
      assert (0, 1) in m && (1, 1) in m && (2, 1) in m;
      assert (0, 2) in m;
      SevenCells();
      SubsetCard(SevenCellSet, m);
      assert false;
    }
  }

  /** Seven distinct positions. */
  const SevenCellSet: set<(nat, nat)> := {(0, 0), (1, 0), (2, 0), (0, 1), (1, 1), (2, 1), (0, 2)}

  lemma SevenCells()
    ensures |SevenCellSet| == 7
  {
    var a: set<(nat, nat)> := {(0, 0), (1, 0), (2, 0)};
    var b: set<(nat, nat)> := {(0, 1), (1, 1), (2, 1)};
    assert |a| == 3 && |b| == 3;
    assert a * b == {};
    assert |a + b| == 6;
    assert SevenCellSet == (a + b) + {(0, 2)};
  }

  // ---------------------------------------------------------------------
  // The life of a mark
  // ---------------------------------------------------------------------

  predicate OnBoard(moves: seq<(nat, nat)>) {
    forall k :: 0 <= k < |moves| ==> moves[k].0 < 3 && moves[k].1 < 3
  }

  /** The state after the moves `(x, y)` in order, or the first refusal. */
  ghost function Play(s: Game, moves: seq<(nat, nat)>): (r: Result<Game, NextError>)
    requires Inv(s.grid) && OnBoard(moves)
    ensures r.Ok? ==> Inv(r.value.grid)
    decreases |moves|
  {
    if moves == [] then Ok(s)
    else
      AdvanceKeepsInv(s, moves[0].0, moves[0].1);
      match Advance(s, moves[0].0, moves[0].1)
      case Err(e) => Err(e)
      case Ok(t) => Play(t, moves[1..])
  }

  /** A sequence of accepted moves passes the turn back and forth. */
  lemma {:induction false} TurnsAlternate(s: Game, moves: seq<(nat, nat)>)
    requires Inv(s.grid) && OnBoard(moves) && Play(s, moves).Ok?
    ensures Play(s, moves).value.current == if |moves| % 2 == 0 then s.current else s.current.Next()
    decreases |moves|
  {
    if moves != [] {
      AdvanceKeepsInv(s, moves[0].0, moves[0].1);
      TurnsAlternate(Advance(s, moves[0].0, moves[0].1).value, moves[1..]);
    }
  }

  /**
   * A mark with counter `c` keeps its owner and gains one per accepted
   * move while `c` stays below 7; the move that takes it to 7 removes it.
   */
  lemma {:induction false} MarkAges(s: Game, x: nat, y: nat, moves: seq<(nat, nat)>)
    requires Inv(s.grid) && OnBoard(moves) && Play(s, moves).Ok?
    requires x < 3 && y < 3 && s.grid[y][x].agent.Some?
    requires s.grid[y][x].counter as int + |moves| <= 7
    ensures s.grid[y][x].counter as int + |moves| < 7 ==>
              Play(s, moves).value.grid[y][x] ==
                Cell(s.grid[y][x].agent, (s.grid[y][x].counter as int + |moves|) as u8)
    ensures s.grid[y][x].counter as int + |moves| == 7 ==>
              Play(s, moves).value.grid[y][x] == NewCell
    decreases |moves|
  {
    if moves != [] {
      var (i, j) := moves[0];
      AdvanceKeepsInv(s, i, j);
      var t := Advance(s, i, j).value;
      assert j != y || i != x;
      assert t.grid[y][x] == Aged(s.grid[y][x]);
      if s.grid[y][x].counter + 1 < MaxCounter {
        MarkAges(t, x, y, moves[1..]);
      } else {
        assert |moves| == 1;
      }
    }
  }

  /**
   * A mark lives through six accepted moves: the move that places it at
   * `(x, y)` gives it counter 1, each of the next five moves adds one while
   * the owner stays, and the sixth move after it removes it.
   */
  lemma {:induction false} MarkLifetime(s: Game, x: nat, y: nat, moves: seq<(nat, nat)>)
    requires Inv(s.grid) && OnBoard(moves) && Play(s, moves).Ok?
    requires 1 <= |moves| <= 7 && moves[0] == (x, y)
    ensures |moves| <= 6 ==> Play(s, moves).value.grid[y][x] == Cell(Some(s.current), |moves| as u8)
    ensures |moves| == 7 ==> Play(s, moves).value.grid[y][x] == NewCell
  {
    AdvanceKeepsInv(s, x, y);
    var t := Advance(s, x, y).value;
    assert Play(s, moves) == Play(t, moves[1..]);
    MarkAges(t, x, y, moves[1..]);
  }

  // ---------------------------------------------------------------------
  // Board::winner
  // ---------------------------------------------------------------------

  /**
   * The `k`-th cell `(x, y)` of line `i`, in the order `Board::winner`
   * visits the lines: rows 0 to 2, columns 0 to 2, the diagonal
   * (0,0) (1,1) (2,2), then the diagonal (0,2) (1,1) (2,0).
   */
  function LineCell(i: nat, k: nat): (p: (nat, nat))
    requires i < 8 && k < 3
    ensures p.0 < 3 && p.1 < 3
  {
    if i < 3 then (k, i)
    else if i < 6 then (i - 3, k)
    else if i == 6 then (k, k)
    else (k, 2 - k)
  }

  /** All three cells of line `i` hold `Some(a)`. */
  predicate LineOwnedBy(g: Grid, i: nat, a: Agent)
    requires i < 8
  {
    forall k :: 0 <= k < 3 ==> g[LineCell(i, k).1][LineCell(i, k).0].agent == Some(a)
  }

  predicate LineComplete(g: Grid, i: nat)
    requires i < 8
  {
    LineOwnedBy(g, i, Maru) || LineOwnedBy(g, i, Batsu)
  }

  /** The owner of a complete line; no line can belong to both players. */
  function LineWinner(g: Grid, i: nat): Agent
    requires i < 8
  {
    if LineOwnedBy(g, i, Maru) then Maru else Batsu
  }

  /** The scan of `Board::winner` from line `i` on, with its early returns. */
  function ScanLines(g: Grid, i: nat): Option<Agent>
    requires i <= 8
    decreases 8 - i
  {
    if i == 8 then None
    else if LineOwnedBy(g, i, Maru) then Some(Maru)
    else if LineOwnedBy(g, i, Batsu) then Some(Batsu)
    else ScanLines(g, i + 1)
  }

  /** `Board::winner`. */
  function Winner(g: Grid): Option<Agent> {
    ScanLines(g, 0)
  }

  lemma {:induction false} ScanLinesFindsFirst(g: Grid, i: nat, a: Agent)
    requires i <= 8
    ensures ScanLines(g, i) == Some(a) <==>
              exists l :: i <= l < 8 && LineComplete(g, l) && LineWinner(g, l) == a &&
                (forall m :: i <= m < l ==> !LineComplete(g, m))
    ensures ScanLines(g, i).None? <==> forall l :: i <= l < 8 ==> !LineComplete(g, l)
    decreases 8 - i
  {
    if i < 8 {
      ScanLinesFindsFirst(g, i + 1, a);
      if !LineComplete(g, i) {
        if ScanLines(g, i) == Some(a) {
          var l :| i + 1 <= l < 8 && LineComplete(g, l) && LineWinner(g, l) == a &&
            (forall m :: i + 1 <= m < l ==> !LineComplete(g, m));
          assert forall m :: i <= m < l ==> !LineComplete(g, m);
        }
      }
    }
  }

  /**
   * `Board::winner` reports `Some(a)` exactly when the first complete line,
   * in scan order, is owned by `a`, and `None` exactly when no line is
   * complete.
   */
  lemma WinnerIsFirstCompleteLine(g: Grid, a: Agent)
    ensures Winner(g) == Some(a) <==>
              exists l :: 0 <= l < 8 && LineComplete(g, l) && LineWinner(g, l) == a &&
                (forall m :: 0 <= m < l ==> !LineComplete(g, m))
    ensures Winner(g).None? <==> forall l :: 0 <= l < 8 ==> !LineComplete(g, l)
  {
    ScanLinesFindsFirst(g, 0, a);
  }

  /** A reported winner owns a whole line. */
  lemma WinnerOwnsLine(g: Grid)
    requires Winner(g).Some?
    ensures exists l :: 0 <= l < 8 && LineOwnedBy(g, l, Winner(g).value)
  {
    WinnerIsFirstCompleteLine(g, Winner(g).value);
  }

  /** A new board has no winner. */
  lemma NoWinnerInitially()
    ensures Winner(EmptyGrid).None?
  {
    forall l | 0 <= l < 8
      ensures !LineComplete(EmptyGrid, l)
    {
      var p := LineCell(l, 0);
      assert EmptyGrid[p.1][p.0].agent.None?;
    }
    WinnerIsFirstCompleteLine(EmptyGrid, Maru);
  }
}
