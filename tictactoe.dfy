/** The rules of the tic-tac-toe engine: the 3x3 board, whose turn it is,
    the legal moves, applying a move, the winner and the score of a finished
    game (week0/tictactoe/tictactoe.py). */
module TicTacToe {

  datatype Mark = X | O

  /** Python's None: an empty cell, "no winner" and "no move". */
  datatype Option<T> = None | Some(value: T)

  /** A cell holds a player's mark, or None for EMPTY. */
  type Cell = Option<Mark>

  /** A board is a list of rows; the engine only ever builds 3x3 boards. */
  type Board = seq<seq<Cell>>

  /** A move (i, j): row i, column j. */
  type Action = (int, int)

  /** The exceptions the engine raises: `result` on an illegal move, and the
      Python errors the code as written runs into (see the Findings). */
  datatype Error = InvalidMove | TypeError | UnboundLocalError

  datatype Try<T> = Ok(value: T) | Raised(error: Error)

  function Other(p: Mark): Mark {
    if p == X then O else X
  }

  predicate WellFormed(b: Board) {
    |b| == 3 && forall i :: 0 <= i < 3 ==> |b[i]| == 3
  }

  predicate InRange(a: Action) {
    0 <= a.0 < 3 && 0 <= a.1 < 3
  }

  /** Row-major position of a cell, 0..8. */
  function Index(a: Action): int {
    3 * a.0 + a.1
  }

  /** The move at row-major position k: the inverse of Index. */
  function Square(k: int): (a: Action)
    requires 0 <= k < 9
    ensures InRange(a) && Index(a) == k
  {
    if k < 3 then (0, k) else if k < 6 then (1, k - 3) else (2, k - 6)
  }

  /** The cell at row-major position k. */
  function At(b: Board, k: int): Cell
    requires WellFormed(b) && 0 <= k < 9
  {
    b[Square(k).0][Square(k).1]
  }

  lemma AtIndex(b: Board, a: Action)
    requires WellFormed(b) && InRange(a)
    ensures 0 <= Index(a) < 9 && Square(Index(a)) == a && At(b, Index(a)) == b[a.0][a.1]
  {
  }

  // ---------------------------------------------------------------------
  // Counting marks

  /** Number of cells among the first k (in row-major order) that hold c. */
  function CountBelow(b: Board, c: Cell, k: nat): (n: nat)
    requires WellFormed(b) && k <= 9
    ensures n <= k
  {
    if k == 0 then 0 else CountBelow(b, c, k - 1) + (if At(b, k - 1) == c then 1 else 0)
  }

  /** Visiting cell (i, j) adds one to the count of what it holds. */
  lemma CountBelowStep(b: Board, c: Cell, i: int, j: int)
    requires WellFormed(b) && 0 <= i < 3 && 0 <= j < 3
    ensures CountBelow(b, c, 3 * i + j + 1) == CountBelow(b, c, 3 * i + j) + (if b[i][j] == c then 1 else 0)
  {
    AtIndex(b, (i, j));
  }

  /** Number of cells of the board that hold c. */
  function Tally(b: Board, c: Cell): nat
    requires WellFormed(b)
  {
    CountBelow(b, c, 9)
  }

  /** The board b with the cell a replaced by v. */
  function Place(b: Board, a: Action, v: Cell): (c: Board)
    requires WellFormed(b) && InRange(a)
    ensures WellFormed(c)
    ensures c[a.0][a.1] == v
    ensures forall i, j :: 0 <= i < 3 && 0 <= j < 3 && (i, j) != a ==> c[i][j] == b[i][j]
  {
    b[a.0 := b[a.0][a.1 := v]]
  }

  /** Replacing one cell changes the count of c by what left and what entered that cell. */
  lemma {:induction false} CountBelowPlace(b: Board, a: Action, v: Cell, c: Cell, k: nat)
    requires WellFormed(b) && InRange(a) && k <= 9
    ensures CountBelow(Place(b, a, v), c, k) + (if Index(a) < k && b[a.0][a.1] == c then 1 else 0)
         == CountBelow(b, c, k) + (if Index(a) < k && v == c then 1 else 0)
  {
    if k > 0 {
      CountBelowPlace(b, a, v, c, k - 1);
      var q := Place(b, a, v);
      var i, j := Square(k - 1).0, Square(k - 1).1;
      if (i, j) == a {
        assert At(q, k - 1) == v && At(b, k - 1) == b[a.0][a.1];
      } else {
        assert At(q, k - 1) == At(b, k - 1);
      }
    }
  }

  lemma TallyPlace(b: Board, a: Action, v: Cell, c: Cell)
    requires WellFormed(b) && InRange(a)
    ensures Tally(Place(b, a, v), c) + (if b[a.0][a.1] == c then 1 else 0)
         == Tally(b, c) + (if v == c then 1 else 0)
  {
    CountBelowPlace(b, a, v, c, 9);
  }

  // ---------------------------------------------------------------------
  // initial_state

  /** The starting board: three rows of three EMPTY cells. */
  function InitialState(): (b: Board)
    ensures WellFormed(b)
    ensures forall i, j :: 0 <= i < 3 && 0 <= j < 3 ==> b[i][j] == None
  {
    [[None, None, None], [None, None, None], [None, None, None]]
  }

  // ---------------------------------------------------------------------
  // player

  /** X moves when both players have placed the same number of marks, O otherwise. */
  function Turn(b: Board): Mark
    requires WellFormed(b)
  {
    if Tally(b, Some(X)) == Tally(b, Some(O)) then X else O
  }

  /** X has placed as many marks as O, or one more. Every board reached by
      play is balanced, though not every balanced board can be reached. */
  predicate Balanced(b: Board)
    requires WellFormed(b)
  {
    Tally(b, Some(O)) <= Tally(b, Some(X)) <= Tally(b, Some(O)) + 1
  }

  /** player(board): counts the X and O marks row by row. */
  method Player(b: Board) returns (p: Mark)
    requires WellFormed(b)
    ensures p == X <==> Tally(b, Some(X)) == Tally(b, Some(O))
    ensures p == Turn(b)
  {
    var x, o := 0, 0;
    for i := 0 to 3
      invariant x == CountBelow(b, Some(X), 3 * i)
      invariant o == CountBelow(b, Some(O), 3 * i)
    {
      for j := 0 to 3
        invariant x == CountBelow(b, Some(X), 3 * i + j)
        invariant o == CountBelow(b, Some(O), 3 * i + j)
      {
        CountBelowStep(b, Some(X), i, j);
        CountBelowStep(b, Some(O), i, j);
        if b[i][j] == Some(X) {
          x := x + 1;
        }
        if b[i][j] == Some(O) {
          o := o + 1;
        }
      }
    }
    if x == o {
      return X;
    }
    return O;
  }

  // ---------------------------------------------------------------------
  // actions

  /** A move is legal when it names a cell of the board and that cell is EMPTY. */
  predicate Legal(b: Board, a: Action)
    requires WellFormed(b)
  {
    InRange(a) && b[a.0][a.1] == None
  }

  /** The EMPTY cells among the first k, in row-major order. */
  function MovesBelow(b: Board, k: nat): seq<Action>
    requires WellFormed(b) && k <= 9
  {
    if k == 0 then []
    else MovesBelow(b, k - 1) + (if At(b, k - 1) == None then [Square(k - 1)] else [])
  }

  lemma {:induction false} MovesBelowMembers(b: Board, k: nat)
    requires WellFormed(b) && k <= 9
    ensures forall a :: a in MovesBelow(b, k) <==> Legal(b, a) && Index(a) < k
  {
    if k > 0 {
      MovesBelowMembers(b, k - 1);
      var a := Square(k - 1);
      AtIndex(b, a);
      forall a' | Legal(b, a') && Index(a') < k
        ensures a' in MovesBelow(b, k)
      {
        if Index(a') == k - 1 {
          assert a' == a;
        }
      }
    }
  }

  lemma {:induction false} MovesBelowLength(b: Board, k: nat)
    requires WellFormed(b) && k <= 9
    ensures |MovesBelow(b, k)| == CountBelow(b, None, k)
  {
    if k > 0 {
      MovesBelowLength(b, k - 1);
    }
  }

  lemma {:induction false} MovesBelowOrdered(b: Board, k: nat)
    requires WellFormed(b) && k <= 9
    ensures forall i, j :: 0 <= i < j < |MovesBelow(b, k)| ==>
              Index(MovesBelow(b, k)[i]) < Index(MovesBelow(b, k)[j])
  {
    if k > 0 {
      MovesBelowOrdered(b, k - 1);
      MovesBelowMembers(b, k - 1);
      var prev := MovesBelow(b, k - 1);
      forall i | 0 <= i < |prev|
        ensures Index(prev[i]) < k - 1
      {
        assert prev[i] in prev;
      }
    }
  }

  /** Visiting cell (i, j) extends the moves found so far by that cell when it is EMPTY. */
  lemma {:induction false} MovesBelowStep(b: Board, i: int, j: int)
    requires WellFormed(b) && 0 <= i < 3 && 0 <= j < 3
    ensures MovesBelow(b, 3 * i + j + 1) == MovesBelow(b, 3 * i + j) + (if b[i][j] == None then [(i, j)] else [])
  {
    AtIndex(b, (i, j));
  }

  /** All legal moves of the board, each once, in row-major order. */
  function Moves(b: Board): (ms: seq<Action>)
    requires WellFormed(b)
    ensures forall a :: a in ms <==> Legal(b, a)
    ensures |ms| == Tally(b, None)
    ensures forall i, j :: 0 <= i < j < |ms| ==> ms[i] != ms[j]
  {
    MovesBelowMembers(b, 9);
    MovesBelowLength(b, 9);
    MovesBelowOrdered(b, 9);
    MovesBelow(b, 9)
  }

  /** actions(board): the EMPTY cells, visited row by row. The set the
      source returns is given here in the row-major order the loops visit. */
  method Actions(b: Board) returns (acts: seq<Action>)
    requires WellFormed(b)
    ensures forall a :: a in acts <==> Legal(b, a)
    ensures acts == Moves(b)
  {
    acts := [];
    for i := 0 to 3
      invariant acts == MovesBelow(b, 3 * i)
    {
      acts := RowActions(b, i, acts);
    }
    assert acts == MovesBelow(b, 9) == Moves(b);
  }

  /** The inner loop of actions: appends the EMPTY cells of row i. */
  method RowActions(b: Board, i: int, found: seq<Action>) returns (acts: seq<Action>)
    requires WellFormed(b) && 0 <= i < 3
    requires found == MovesBelow(b, 3 * i)
    ensures acts == MovesBelow(b, 3 * i + 3)
  {
    acts := found;
    for j := 0 to 3
      invariant acts == MovesBelow(b, 3 * i + j)
    {
      MovesBelowStep(b, i, j);
      if b[i][j] == None {
        acts := acts + [(i, j)];
      }
    }
  }

  // ---------------------------------------------------------------------
  // result

  /** The board after the player to move marks the legal cell a. */
  function Apply(b: Board, a: Action): (c: Board)
    requires WellFormed(b) && Legal(b, a)
    ensures WellFormed(c)
    ensures c[a.0][a.1] == Some(Turn(b))
    ensures forall i, j :: 0 <= i < 3 && 0 <= j < 3 && (i, j) != a ==> c[i][j] == b[i][j]
    ensures Tally(c, Some(Turn(b))) == Tally(b, Some(Turn(b))) + 1
    ensures Tally(c, Some(Other(Turn(b)))) == Tally(b, Some(Other(Turn(b))))
    ensures |Moves(c)| == |Moves(b)| - 1
  {
    var p := Turn(b);
    TallyPlace(b, a, Some(p), Some(p));
    TallyPlace(b, a, Some(p), Some(Other(p)));
    TallyPlace(b, a, Some(p), None);
    Place(b, a, Some(p))
  }

  /** Moving flips the turn and keeps the mark counts of a balanced board balanced. */
  lemma TurnAlternates(b: Board, a: Action)
    requires WellFormed(b) && Legal(b, a) && Balanced(b)
    ensures Balanced(Apply(b, a))
    ensures Turn(Apply(b, a)) == Other(Turn(b))
  {
  }

  /** result(board, action): raises for a move that is not among the
      actions, otherwise marks that cell of a copy of the board for the
      player to move. Boards are values here, so the input is never altered. */
  method Result(b: Board, a: Action) returns (r: Try<Board>)
    requires WellFormed(b)
    ensures !Legal(b, a) ==> r == Raised(InvalidMove)
    ensures Legal(b, a) ==> r.Ok? && WellFormed(r.value) && r.value[a.0][a.1] == Some(Turn(b))
    ensures r.Ok? ==> forall i, j :: 0 <= i < 3 && 0 <= j < 3 && (i, j) != a ==> r.value[i][j] == b[i][j]
    ensures r.Ok? ==> r.value == Apply(b, a)
  {
    var acts := Actions(b);
    if a !in acts {
      return Raised(InvalidMove);
    }
    var next := b;  // copy.deepcopy: a sequence value shares nothing that could be altered
    var p := Player(next);
    next := next[a.0 := next[a.0][a.1 := Some(p)]];
    return Ok(next);
  }

  // ---------------------------------------------------------------------
  // winner

  /** The eight lines, in the order the source checks them: rows, columns, diagonals. */
  const Lines: seq<seq<Action>> := [
    [(0, 0), (0, 1), (0, 2)],
    [(1, 0), (1, 1), (1, 2)],
    [(2, 0), (2, 1), (2, 2)],
    [(0, 0), (1, 0), (2, 0)],
    [(0, 1), (1, 1), (2, 1)],
    [(0, 2), (1, 2), (2, 2)],
    [(0, 0), (1, 1), (2, 2)],
    [(0, 2), (1, 1), (2, 0)]
  ]

  lemma LinesShape()
    ensures |Lines| == 8
    ensures forall k :: 0 <= k < |Lines| ==> |Lines[k]| == 3
    ensures forall k, m :: 0 <= k < |Lines| && 0 <= m < |Lines[k]| ==> InRange(Lines[k][m])
  {
  }

  /** Every cell of the line holds p's mark. */
  predicate Owns(b: Board, line: seq<Action>, p: Mark)
    requires WellFormed(b)
  {
    forall m :: 0 <= m < |line| ==> InRange(line[m]) && b[line[m].0][line[m].1] == Some(p)
  }

  /** Some row, column or diagonal is filled with p's mark. */
  predicate HasLine(b: Board, p: Mark)
    requires WellFormed(b)
  {
    exists k :: 0 <= k < |Lines| && Owns(b, Lines[k], p)
  }

  /** The mark of the first line, from the k-th on, filled by one player;
      on each line X is checked before O. */
  function FirstWinner(b: Board, k: nat): Option<Mark>
    requires WellFormed(b) && k <= |Lines|
    decreases |Lines| - k
  {
    if k == |Lines| then None
    else if Owns(b, Lines[k], X) then Some(X)
    else if Owns(b, Lines[k], O) then Some(O)
    else FirstWinner(b, k + 1)
  }

  function WinnerOf(b: Board): Option<Mark>
    requires WellFormed(b)
  {
    FirstWinner(b, 0)
  }

  lemma {:induction false} FirstWinnerFacts(b: Board, k: nat)
    requires WellFormed(b) && k <= |Lines|
    ensures forall p :: FirstWinner(b, k) == Some(p) ==>
              exists n :: k <= n < |Lines| && Owns(b, Lines[n], p)
    ensures FirstWinner(b, k) == None <==>
              forall n :: k <= n < |Lines| ==> !Owns(b, Lines[n], X) && !Owns(b, Lines[n], O)
    decreases |Lines| - k
  {
    if k < |Lines| {
      FirstWinnerFacts(b, k + 1);
    }
  }

  /** The winner is a player who holds a full line, and there is none
      exactly when neither player holds one. */
  lemma WinnerIsLineOwner(b: Board)
    requires WellFormed(b)
    ensures forall p :: WinnerOf(b) == Some(p) ==> HasLine(b, p)
    ensures WinnerOf(b) == None <==> !HasLine(b, X) && !HasLine(b, O)
  {
    FirstWinnerFacts(b, 0);
  }

  /** When only one player holds a full line, that player is the winner. */
  lemma WinnerIsSoleLineOwner(b: Board, p: Mark)
    requires WellFormed(b) && !HasLine(b, Other(p))
    ensures WinnerOf(b) == Some(p) <==> HasLine(b, p)
  {
    WinnerIsLineOwner(b);
    if HasLine(b, p) {
      assert WinnerOf(b) != Some(Other(p));
    }
  }

  /** Number of the first n cells of the line that hold p's mark. */
  function LineCount(b: Board, line: seq<Action>, p: Mark, n: nat): (c: nat)
    requires WellFormed(b) && n <= |line|
    requires forall m :: 0 <= m < |line| ==> InRange(line[m])
    ensures c <= n
  {
    if n == 0 then 0
    else LineCount(b, line, p, n - 1) + (if b[line[n - 1].0][line[n - 1].1] == Some(p) then 1 else 0)
  }

  lemma {:induction false} LineCountFull(b: Board, line: seq<Action>, p: Mark, n: nat)
    requires WellFormed(b) && n <= |line|
    requires forall m :: 0 <= m < |line| ==> InRange(line[m])
    ensures LineCount(b, line, p, n) == n <==>
              forall m :: 0 <= m < n ==> b[line[m].0][line[m].1] == Some(p)
  {
    if n > 0 {
      LineCountFull(b, line, p, n - 1);
    }
  }

  /** winner(board): counts each line's X and O marks and returns the
      owner of the first full line, or None. */
  method Winner(b: Board) returns (w: Option<Mark>)
    requires WellFormed(b)
    ensures w == WinnerOf(b)
    ensures forall p :: w == Some(p) ==> HasLine(b, p)
    ensures w == None <==> !HasLine(b, X) && !HasLine(b, O)
  {
    LinesShape();
    WinnerIsLineOwner(b);
    for k := 0 to |Lines|
      invariant FirstWinner(b, k) == WinnerOf(b)
    {
      var line := Lines[k];
      var x, o := 0, 0;
      for m := 0 to |line|
        invariant x == LineCount(b, line, X, m)
        invariant o == LineCount(b, line, O, m)
      {
        var (i, j) := line[m];
        if b[i][j] == Some(X) {
          x := x + 1;
        }
        if b[i][j] == Some(O) {
          o := o + 1;
        }
      }
      LineCountFull(b, line, X, 3);
      LineCountFull(b, line, O, 3);
      if x == 3 {
        return Some(X);
      }
      if o == 3 {
        return Some(O);
      }
    }
    return None;
  }

  // ---------------------------------------------------------------------
  // terminal and utility

  /** The game is over when someone has won or no EMPTY cell is left. */
  predicate IsTerminal(b: Board)
    requires WellFormed(b)
  {
    WinnerOf(b) != None || Moves(b) == []
  }

  /** terminal(board). */
  method Terminal(b: Board) returns (t: bool)
    requires WellFormed(b)
    ensures t <==> HasLine(b, X) || HasLine(b, O) || Tally(b, None) == 0
    ensures t == IsTerminal(b)
  {
    var w := Winner(b);
    var acts := Actions(b);
    return w != None || acts == [];
  }

  /** 1 for an X win, -1 for an O win, 0 otherwise. */
  function Score(b: Board): int
    requires WellFormed(b)
  {
    if WinnerOf(b) == Some(X) then 1
    else if WinnerOf(b) == Some(O) then -1
    else 0
  }

  /** utility(board). */
  method Utility(b: Board) returns (u: int)
    requires WellFormed(b)
    ensures u == Score(b)
    ensures -1 <= u <= 1
    ensures !(HasLine(b, X) && HasLine(b, O)) ==>
              (u == 1 <==> HasLine(b, X)) && (u == -1 <==> HasLine(b, O)) &&
              (u == 0 <==> !HasLine(b, X) && !HasLine(b, O))
  {
    var w := Winner(b);
    WinnerIsLineOwner(b);
    if w == Some(X) {
      return 1;
    } else if w == Some(O) {
      return -1;
    }
    return 0;
  }

  /** The empty board: X moves first, all nine cells are legal moves and the game is not over. */
  lemma InitialStateFacts()
    ensures Tally(InitialState(), Some(X)) == 0 && Tally(InitialState(), Some(O)) == 0
    ensures Turn(InitialState()) == X
    ensures Balanced(InitialState())
    ensures |Moves(InitialState())| == 9
    ensures !IsTerminal(InitialState())
  {
    var b := InitialState();
    EmptyCounts(b, 9);
    FirstWinnerFacts(b, 0);
    LinesShape();
    forall k | 0 <= k < |Lines|
      ensures !Owns(b, Lines[k], X) && !Owns(b, Lines[k], O)
    {
      assert InRange(Lines[k][0]);
    }
  }

  lemma {:induction false} EmptyCounts(b: Board, k: nat)
    requires WellFormed(b) && k <= 9
    requires forall i, j :: 0 <= i < 3 && 0 <= j < 3 ==> b[i][j] == None
    ensures CountBelow(b, None, k) == k
    ensures CountBelow(b, Some(X), k) == 0 && CountBelow(b, Some(O), k) == 0
  {
    if k > 0 {
      EmptyCounts(b, k - 1);
      AtIndex(b, Square(k - 1));
    }
  }

  // ---------------------------------------------------------------------
  // The code as written. The operations above follow the documented intent;
  // the members below model the lines that depart from it.

  /** actions(board) as written: `for row, i in enumerate(board)` binds row
      to the index 0 and i to the first row, so `enumerate(row)` is applied to
      an integer and raises TypeError (the later `actions.add(i, j)` would
      raise TypeError too: set.add takes one argument). Only a board without
      rows gets through, with the empty set. */
  function ActionsAsWritten(b: Board): (r: Try<set<Action>>)
    ensures WellFormed(b) ==> r == Raised(TypeError)
    ensures r.Ok? ==> r.value == {} && |b| == 0
  {
    if |b| == 0 then Ok({}) else Raised(TypeError)
  }

  /** On every 3x3 board the code as written raises, where the intended
      actions are the EMPTY cells (all nine of them on the initial board). */
  lemma ActionsAsWrittenRaises(b: Board)
    requires WellFormed(b)
    ensures ActionsAsWritten(b) == Raised(TypeError)
    ensures ActionsAsWritten(InitialState()) == Raised(TypeError) && |Moves(InitialState())| == 9
  {
    InitialStateFacts();
  }

  /** winner(board) as written: the first statement of the loop body,
      `o = o`, reads the local o before any assignment to it, so every call
      raises UnboundLocalError. */
  function WinnerAsWritten(b: Board): (r: Try<Option<Mark>>)
    ensures !r.Ok?
  {
    Raised(UnboundLocalError)
  }

  /** winner(board) with `o = 0` at line 90 but the counting as written:
      `checks_x += 1` and `checks_o += 1` read locals that were never
      assigned, so the first occupied cell on a line raises
      UnboundLocalError, and x and o stay 0, so no line is ever reported.
      Every cell lies on some line, so this raises exactly when the board
      has a mark. */
  function WinnerCountingAsWritten(b: Board): (r: Try<Option<Mark>>)
    requires WellFormed(b)
    ensures forall p :: r != Ok(Some(p))
    ensures r == Ok(None) <==> Tally(b, None) == 9
    ensures r.Raised? ==> r.error == UnboundLocalError
  {
    if exists i, j :: 0 <= i < 3 && 0 <= j < 3 && b[i][j] != None then
      MarkedBoardNotEmpty(b);
      Raised(UnboundLocalError)
    else
      EmptyCounts(b, 9);
      Ok(None)
  }

  /** A board with a mark on it has fewer than nine EMPTY cells. */
  lemma MarkedBoardNotEmpty(b: Board)
    requires WellFormed(b) && exists i, j :: 0 <= i < 3 && 0 <= j < 3 && b[i][j] != None
    ensures Tally(b, None) < 9
  {
    var i, j :| 0 <= i < 3 && 0 <= j < 3 && b[i][j] != None;
    AtIndex(b, (i, j));
    CountBelowMissing(b, None, Index((i, j)), 9);
  }

  /** A cell among the first k that does not hold c keeps the count of c below k. */
  lemma {:induction false} CountBelowMissing(b: Board, c: Cell, m: nat, k: nat)
    requires WellFormed(b) && m < k <= 9 && At(b, m) != c
    ensures CountBelow(b, c, k) < k
    decreases k
  {
    if m < k - 1 {
      CountBelowMissing(b, c, m, k - 1);
    }
  }

  /** A board where X has completed the top row. */
  function XWinsTopRow(): (b: Board)
    ensures WellFormed(b)
  {
    [[Some(X), Some(X), Some(X)], [Some(O), Some(O), None], [None, None, None]]
  }

  /** A board where O has completed the top row. */
  function OWinsTopRow(): (b: Board)
    ensures WellFormed(b)
  {
    [[Some(O), Some(O), Some(O)], [Some(X), Some(X), None], [Some(X), None, None]]
  }

  /** Neither version of the code as written ever reports a winner, while
      the intended winner of a board with a full row of X is X. */
  lemma WinnerAsWrittenNeverReports(b: Board)
    requires WellFormed(b)
    ensures WinnerAsWritten(b).Raised?
    ensures forall p :: WinnerCountingAsWritten(b) != Ok(Some(p))
    ensures WinnerCountingAsWritten(XWinsTopRow()) == Raised(UnboundLocalError)
    ensures WinnerOf(XWinsTopRow()) == Some(X)
  {
    var w := XWinsTopRow();
    assert w[0][0] != None;
    LinesShape();
    assert Owns(w, Lines[0], X) by {
      assert Lines[0] == [(0, 0), (0, 1), (0, 2)];
    }
  }

  /** What winner(board) hands to its callers once lines 90-98 count
      correctly: line 99 returns the integer 0 where O is meant. */
  datatype Reported = ReportedMark(m: Mark) | ReportedZero | ReportedNone

  function WinnerReturningZero(b: Board): (r: Reported)
    requires WellFormed(b)
    ensures r == ReportedNone <==> !HasLine(b, X) && !HasLine(b, O)
    ensures r.ReportedMark? ==> r.m == X && HasLine(b, X)
    ensures r == ReportedZero ==> HasLine(b, O)
    ensures HasLine(b, X) && !HasLine(b, O) ==> r == ReportedMark(X)
    ensures HasLine(b, O) && !HasLine(b, X) ==> r == ReportedZero
  {
    WinnerIsLineOwner(b);
    assert !HasLine(b, O) ==> (WinnerOf(b) == Some(X) <==> HasLine(b, X)) by {
      if !HasLine(b, O) { WinnerIsSoleLineOwner(b, X); }
    }
    assert !HasLine(b, X) ==> (WinnerOf(b) == Some(O) <==> HasLine(b, O)) by {
      if !HasLine(b, X) { WinnerIsSoleLineOwner(b, O); }
    }
    match WinnerOf(b)
    case Some(X) => ReportedMark(X)
    case Some(O) => ReportedZero
    case None => ReportedNone
  }

  /** utility(board) over that winner: 0 is neither X nor O, so it scores 0. */
  function UtilityAsWritten(b: Board): (u: int)
    requires WellFormed(b)
    ensures 0 <= u <= 1
    ensures Score(b) != -1 ==> u == Score(b)
    ensures Score(b) == -1 ==> u == 0
  {
    var w := WinnerReturningZero(b);
    if w == ReportedMark(X) then 1
    else if w == ReportedMark(O) then -1
    else 0
  }

  /** With line 99 as written a won game for O scores 0, a draw's score,
      where utility's documented value is -1. */
  lemma UtilityAsWrittenMissesOWin()
    ensures Balanced(OWinsTopRow())
    ensures UtilityAsWritten(OWinsTopRow()) == 0
    ensures Score(OWinsTopRow()) == -1
  {
    OWinsTopRowCounts();
    OWinsTopRowWinner();
  }

  lemma OWinsTopRowCounts()
    ensures Tally(OWinsTopRow(), Some(X)) == 3 && Tally(OWinsTopRow(), Some(O)) == 3
  {
    var b := OWinsTopRow();
    assert CountBelow(b, Some(X), 3) == 0 && CountBelow(b, Some(O), 3) == 3;
    assert CountBelow(b, Some(X), 6) == 2 && CountBelow(b, Some(O), 6) == 3;
  }

  lemma OWinsTopRowWinner()
    ensures WinnerOf(OWinsTopRow()) == Some(O)
  {
    var b := OWinsTopRow();
    LinesShape();
    assert !Owns(b, Lines[0], X) && Owns(b, Lines[0], O) by {
      assert Lines[0] == [(0, 0), (0, 1), (0, 2)];
      assert b[Lines[0][0].0][Lines[0][0].1] == Some(O);
    }
  }
}
