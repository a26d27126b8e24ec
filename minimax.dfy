/** The search: plain minimax as the specification, and the source's
    minimax / minimax_value with their single-bound alpha-beta cutoff,
    proved against it (week0/tictactoe/tictactoe.py). */
module Minimax {
  import opened TicTacToe

  /** The integer that stands in for float("-inf") when X is to move and
      for float("inf") when O is: outside every utility in {-1, 0, 1}. */
  function Sentinel(p: Mark): int {
    if p == X then -2 else 2
  }

  /** max for X, min for O. */
  function Better(p: Mark, v: int, w: int): int {
    if p == X then (if v >= w then v else w)
    else (if v <= w then v else w)
  }

  /** p strictly prefers value v to value w. */
  predicate Prefers(p: Mark, v: int, w: int) {
    if p == X then v > w else v < w
  }

  /** The minimax value of a board: its utility when the game is over,
      otherwise the best child value for the player to move. */
  function Value(b: Board): (v: int)
    requires WellFormed(b)
    ensures -1 <= v <= 1
    decreases |Moves(b)|, 1, 0
  {
    if IsTerminal(b) then Score(b) else Best(b, Moves(b))
  }

  /** The best child value over the moves ms for the player to move,
      starting from the sentinel. */
  function Best(b: Board, ms: seq<Action>): (v: int)
    requires WellFormed(b)
    requires forall a :: a in ms ==> Legal(b, a)
    ensures ms == [] ==> v == Sentinel(Turn(b))
    ensures ms != [] ==> -1 <= v <= 1
    decreases |Moves(b)|, 0, |ms|
  {
    if ms == [] then Sentinel(Turn(b))
    else Better(Turn(b), Best(b, ms[..|ms| - 1]), Value(Apply(b, ms[|ms| - 1])))
  }

  /** The value of the child reached by the legal move a. */
  function ChildValue(b: Board, a: Action): int
    requires WellFormed(b) && Legal(b, a)
  {
    Value(Apply(b, a))
  }

  lemma {:induction false} BestIsBestChild(b: Board, ms: seq<Action>)
    requires WellFormed(b)
    requires forall a :: a in ms ==> Legal(b, a)
    ensures forall a :: a in ms ==> !Prefers(Turn(b), ChildValue(b, a), Best(b, ms))
    ensures ms != [] ==> exists a :: a in ms && ChildValue(b, a) == Best(b, ms)
    decreases |ms|
  {
    if ms != [] {
      var p := Turn(b);
      var init, last := ms[..|ms| - 1], ms[|ms| - 1];
      assert ms == init + [last];
      BestIsBestChild(b, init);
      var v := Best(b, ms);
      assert v == Better(p, Best(b, init), ChildValue(b, last));
      forall a | a in ms
        ensures !Prefers(p, ChildValue(b, a), v)
      {
        if a in init {
          assert !Prefers(p, ChildValue(b, a), Best(b, init));
        }
      }
      if v != ChildValue(b, last) {
        var a :| a in init && ChildValue(b, a) == Best(b, init);
        assert a in ms;
      }
    }
  }

  /** Minimax optimality: on a board that is not over, no move is better
      for the player to move than the board's value, and some move reaches it. */
  lemma {:induction false} ValueIsOptimal(b: Board)
    requires WellFormed(b) && !IsTerminal(b)
    ensures forall a :: Legal(b, a) ==> !Prefers(Turn(b), ChildValue(b, a), Value(b))
    ensures exists a :: Legal(b, a) && ChildValue(b, a) == Value(b)
  {
    BestIsBestChild(b, Moves(b));
  }

  /** minimax_value(board, best_value): the minimax value, except that as
      soon as a child is better for the player to move than the bound
      best_value (the best value of the caller so far), that child's value
      is returned at once. On balanced boards the result is the exact value
      unless it lies beyond the bound, and then it is a bound on the value
      from the side the caller rejects. */
  method MinimaxValue(b: Board, bestValue: int) returns (r: int)
    requires WellFormed(b)
    ensures -1 <= r <= 1
    ensures IsTerminal(b) ==> r == Score(b)
    ensures Balanced(b) && Turn(b) == X ==> r <= Value(b) && (r == Value(b) || r > bestValue)
    ensures Balanced(b) && Turn(b) == O ==> r >= Value(b) && (r == Value(b) || r < bestValue)
    decreases |Moves(b)|, 1
  {
    var t := Terminal(b);
    if t {
      r := Utility(b);
      return;
    }
    var p := Player(b);
    var value := Sentinel(p);
    var acts := Actions(b);
    for k := 0 to |acts|
      invariant k == 0 ==> value == Sentinel(p)
      invariant k > 0 ==> -1 <= value <= 1
      invariant p == X ==> value == -2 || value <= bestValue
      invariant p == O ==> value == 2 || value >= bestValue
      invariant Balanced(b) ==> value == Best(b, acts[..k])
    {
      var next, cut := ValueTurn(b, bestValue, p, acts, k, value);
      if cut {
        return next;
      }
      value := next;
    }
    assert acts[..|acts|] == acts;
    r := value;
  }

  /** The body of minimax_value's loop for the k-th move: the child's
      value, searched with the running best `value` as its bound, either
      lies beyond bestValue, and then it is returned at once (cut), or it
      is combined into the running best. */
  method ValueTurn(b: Board, bestValue: int, p: Mark, acts: seq<Action>, k: nat, value: int)
    returns (next: int, cut: bool)
    requires WellFormed(b) && !IsTerminal(b) && p == Turn(b) && acts == Moves(b) && k < |acts|
    requires k == 0 ==> value == Sentinel(p)
    requires k > 0 ==> -1 <= value <= 1
    requires p == X ==> value == -2 || value <= bestValue
    requires p == O ==> value == 2 || value >= bestValue
    requires Balanced(b) ==> value == Best(b, acts[..k])
    ensures -1 <= next <= 1
    ensures cut && p == X ==> next > bestValue && (Balanced(b) ==> next <= Value(b))
    ensures cut && p == O ==> next < bestValue && (Balanced(b) ==> next >= Value(b))
    ensures !cut && p == X ==> next <= bestValue
    ensures !cut && p == O ==> next >= bestValue
    ensures !cut && Balanced(b) ==> next == Best(b, acts[..k + 1])
    decreases |Moves(b)|, 0
  {
    var a := acts[k];
    assert a in acts;
    var child := Result(b, a);
    if Balanced(b) {
      TurnAlternates(b, a);
    }
    var newValue := MinimaxValue(child.value, value);
    if Balanced(b) {
      RootStep(b, acts, k, value, newValue);
      Cutoff(b, k, value, newValue, bestValue);
    }
    next, cut := value, false;
    if p == X {
      if newValue > bestValue {
        return newValue, true;
      }
      next := if value >= newValue then value else newValue;
    }
    if p == O {
      if newValue < bestValue {
        return newValue, true;
      }
      next := if value <= newValue then value else newValue;
    }
  }

  /** A child whose reply is beyond the bound ends minimax_value's loop:
      that reply lies between the board's value and the bound. */
  lemma {:induction false} Cutoff(b: Board, k: nat, weight: int, reply: int, bestValue: int)
    requires WellFormed(b) && !IsTerminal(b) && k < |Moves(b)|
    requires weight == Best(b, Moves(b)[..k])
    requires Turn(b) == X ==> reply >= ChildValue(b, Moves(b)[k]) && (reply == ChildValue(b, Moves(b)[k]) || reply < weight)
    requires Turn(b) == O ==> reply <= ChildValue(b, Moves(b)[k]) && (reply == ChildValue(b, Moves(b)[k]) || reply > weight)
    ensures Turn(b) == X && reply > bestValue ==> reply <= Value(b)
    ensures Turn(b) == O && reply < bestValue ==> reply >= Value(b)
  {
    var ms := Moves(b);
    BestIsBestChild(b, ms);
    BestIsBestChild(b, ms[..k]);
    assert ms[k] in ms;
    if k > 0 && reply != ChildValue(b, ms[k]) {
      var a :| a in ms[..k] && ChildValue(b, a) == weight;
      assert a in ms;
    }
  }

  /** One turn of minimax's loop over the moves ms: combining the running
      best `weight` with the reply of minimax_value for the k-th child gives
      the best value over the first k + 1 moves, and it changes exactly when
      that child is strictly better, taking that child's value. */
  lemma {:induction false} RootStep(b: Board, ms: seq<Action>, k: nat, weight: int, reply: int)
    requires WellFormed(b) && k < |ms|
    requires forall a :: a in ms ==> Legal(b, a)
    requires weight == Best(b, ms[..k])
    requires Turn(b) == X ==> reply >= ChildValue(b, ms[k]) && (reply == ChildValue(b, ms[k]) || reply < weight)
    requires Turn(b) == O ==> reply <= ChildValue(b, ms[k]) && (reply == ChildValue(b, ms[k]) || reply > weight)
    ensures Better(Turn(b), weight, reply) == Best(b, ms[..k + 1])
    ensures Better(Turn(b), weight, reply) != weight <==> Prefers(Turn(b), ChildValue(b, ms[k]), weight)
    ensures Better(Turn(b), weight, reply) != weight ==> Better(Turn(b), weight, reply) == ChildValue(b, ms[k])
    ensures forall i :: 0 <= i < k ==> !Prefers(Turn(b), ChildValue(b, ms[i]), weight)
    ensures Better(Turn(b), weight, reply) != weight ==>
              forall i :: 0 <= i < k ==> Prefers(Turn(b), Better(Turn(b), weight, reply), ChildValue(b, ms[i]))
  {
    assert ms[..k + 1][..k] == ms[..k];
    assert ms[..k + 1][k] == ms[k];
    BestIsBestChild(b, ms[..k]);
    forall i | 0 <= i < k
      ensures !Prefers(Turn(b), ChildValue(b, ms[i]), weight)
    {
      assert ms[i] in ms[..k];
    }
  }

  /** minimax(board): None on a finished game; otherwise the first move,
      in the order the moves are tried, whose child has the board's
      minimax value, which is the best the player to move can reach. */
  method Minimax(b: Board) returns (r: Option<Action>)
    requires WellFormed(b)
    ensures r == None <==> IsTerminal(b)
    ensures r.Some? ==> Legal(b, r.value)
    ensures r.Some? && Balanced(b) ==> ChildValue(b, r.value) == Value(b)
    ensures r.Some? && Balanced(b) ==>
              forall a :: Legal(b, a) ==> !Prefers(Turn(b), ChildValue(b, a), ChildValue(b, r.value))
    ensures r.Some? && Balanced(b) ==>
              exists k :: 0 <= k < |Moves(b)| && Moves(b)[k] == r.value &&
                forall i :: 0 <= i < k ==> ChildValue(b, Moves(b)[i]) != Value(b)
  {
    var t := Terminal(b);
    if t {
      return None;
    }
    var p := Player(b);
    var weight := Sentinel(p);
    var acts := Actions(b);
    ghost var chosen: nat := 0;
    r := None;  // optimal_action: unbound until the first move improves on the sentinel
    for k := 0 to |acts|
      invariant k == 0 ==> weight == Sentinel(p) && r == None
      invariant k > 0 ==> -1 <= weight <= 1 && r.Some? && 0 <= chosen < k && r.value == acts[chosen]
      invariant Balanced(b) ==> weight == Best(b, acts[..k])
      invariant Balanced(b) && k > 0 ==> ChildValue(b, acts[chosen]) == weight
      invariant Balanced(b) && k > 0 ==>
                  forall i :: 0 <= i < chosen ==> Prefers(p, weight, ChildValue(b, acts[i]))
    {
      weight, r, chosen := RootTurn(b, p, acts, k, weight, r, chosen);
    }
    assert acts[..|acts|] == acts;
    if Balanced(b) {
      ValueIsOptimal(b);
    }
  }

  /** The body of minimax's loop for the k-th move: the child's reply
      from minimax_value, bounded by the running best `weight`, replaces
      the running best and the move kept when it is strictly better. */
  method RootTurn(b: Board, p: Mark, acts: seq<Action>, k: nat, weight: int, r: Option<Action>, ghost chosen: nat)
    returns (weight': int, r': Option<Action>, ghost chosen': nat)
    requires WellFormed(b) && !IsTerminal(b) && p == Turn(b) && acts == Moves(b) && k < |acts|
    requires k == 0 ==> weight == Sentinel(Turn(b)) && r == None
    requires k > 0 ==> -1 <= weight <= 1 && r.Some? && chosen < k && r.value == acts[chosen]
    requires Balanced(b) ==> weight == Best(b, acts[..k])
    requires Balanced(b) && k > 0 ==> ChildValue(b, acts[chosen]) == weight
    requires Balanced(b) && k > 0 ==>
               forall i :: 0 <= i < chosen ==> Prefers(Turn(b), weight, ChildValue(b, acts[i]))
    ensures -1 <= weight' <= 1 && r'.Some? && chosen' <= k && r'.value == acts[chosen']
    ensures Balanced(b) ==> weight' == Best(b, acts[..k + 1])
    ensures Balanced(b) ==> ChildValue(b, acts[chosen']) == weight'
    ensures Balanced(b) ==>
              forall i :: 0 <= i < chosen' ==> Prefers(Turn(b), weight', ChildValue(b, acts[i]))
  {
    weight', r', chosen' := weight, r, chosen;
    var a := acts[k];
    assert a in acts;
    var child := Result(b, a);
    var reply := MinimaxValue(child.value, weight);
    var nextWeight := reply;
    if p == X {
      nextWeight := if weight >= nextWeight then weight else nextWeight;
    }
    if p == O {
      nextWeight := if weight <= nextWeight then weight else nextWeight;
    }
    if Balanced(b) {
      TurnAlternates(b, a);
      RootStep(b, acts, k, weight, reply);
    }
    if nextWeight != weight {
      weight' := nextWeight;
      r' := Some(a);
      chosen' := k;
    }
  }
}
