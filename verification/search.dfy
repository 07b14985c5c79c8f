/** The agent's look-ahead: depth-limited minimax with alpha-beta pruning,
    and the unpruned minimax it must agree with. The search is stated over a
    Game: the move list, the move application and the leaf score it uses;
    AgentGame supplies the engine's and the evaluator's. Scores are reals. */
module Lookahead {
  import opened Chess
  import opened Rules
  import opened Engine
  import opened Encoding

  /** The largest finite float64, (2 - 2^-52) * 2^1023, exactly: the search's
      stand-in for infinity. */
  const Infinity: real := 179769313486231570814527423731704356798070567525844996598917476803157260780028538760589558632766878171540458953514382464234321326889464182768467546703537516986049910576551282076245490090389328944075868508455133942304583236903222948165808559332123348274797826204144723168738177180919299881250404026184124858368.0

  /** The move returned where no move was searched: from (-1, -1). */
  const NoMove: Move := Move(Square(-1, -1), Square(0, 0))

  /** A position evaluator: a score for an encoded board. */
  type Evaluator = seq<int> -> real

  /** What the search needs of the game: the moves from a position, in the
      order they are tried; the position after a move; a leaf's score. */
  datatype Game = Game(legal: Board -> seq<Move>, play: (Board, Move) -> Board, score: Board -> real)

  datatype Outcome = Outcome(value: real, move: Move)

  /** The network's score of a position, read from its encoding. */
  function Evaluate(net: Evaluator, b: Board): real {
    net(BoardToVector(b))
  }

  /** The score sees only the pieces: two boards with the same layout score
      the same, whatever the turn, flags, en-passant square or counter. */
  lemma EvaluateSeesLayoutOnly(net: Evaluator, b1: Board, b2: Board)
    requires SameLayout(b1.cells, b2.cells)
    ensures Evaluate(net, b1) == Evaluate(net, b2)
  {
    EncodingIffSameLayout(b1, b2);
  }

  /** A legal move played on a copy of the board; any other move leaves the
      board as it is (the search only plays legal moves). */
  function Play(b: Board, m: Move): (r: Board)
    ensures m in GetLegalMoves(b) ==> Applicable(b, m) && r == MakeMove(b, m)
    ensures m !in GetLegalMoves(b) ==> r == b
  {
    if m in GetLegalMoves(b) then
      ValidIsApplicable(b, m);
      MakeMove(Clone(b), m)
    else b
  }

  /** The game the agent searches: the engine's legal moves in scan order,
      MakeMove on a copy, and the evaluator's score of the encoded board. */
  function AgentGame(net: Evaluator): (g: Game)
    ensures forall b :: g.legal(b) == GetLegalMoves(b)
    ensures forall b, m :: g.play(b, m) == Play(b, m)
    ensures forall b :: g.score(b) == Evaluate(net, b)
  {
    Game(b => GetLegalMoves(b), (b, m) => Play(b, m), b => Evaluate(net, b))
  }

  /** Every score strictly between the two sentinels, as for the network's
      tanh output in [-1, 1]. */
  ghost predicate Bounded(g: Game) {
    forall b :: -Infinity < g.score(b) < Infinity
  }

  function RMax(x: real, y: real): real {
    if x >= y then x else y
  }

  function RMin(x: real, y: real): real {
    if x <= y then x else y
  }

  /** A search leaf: depth exhausted, game over, or no move to make. */
  predicate Leaf(g: Game, b: Board, depth: nat) {
    depth == 0 || b.gameOver || |g.legal(b)| == 0
  }

  // ----- the search as the agent runs it -----

  /** Minimax with alpha-beta pruning. A leaf scores the position and returns
      NoMove; otherwise the legal moves are tried in scan order and the first
      one reaching the best score is kept, stopping once beta <= alpha. */
  function AlphaBeta(g: Game, b: Board, depth: nat, alpha: real, beta: real, maximizing: bool): (r: Outcome)
    ensures r.move == NoMove || r.move in g.legal(b)
    ensures Leaf(g, b, depth) ==> r.move == NoMove && r.value == g.score(b)
    decreases depth, 2, 0
  {
    if depth == 0 || b.gameOver then Outcome(g.score(b), NoMove)
    else
      var moves := g.legal(b);
      if |moves| == 0 then Outcome(g.score(b), NoMove)
      else if maximizing then MaxLoop(g, b, depth, moves, 0, alpha, beta, -Infinity, NoMove)
      else MinLoop(g, b, depth, moves, 0, alpha, beta, Infinity, NoMove)
  }

  /** The maximising player's loop from move `i` on. */
  function MaxLoop(g: Game, b: Board, depth: nat, moves: seq<Move>, i: nat,
                   alpha: real, beta: real, best: real, bestMove: Move): (r: Outcome)
    requires depth >= 1 && moves == g.legal(b) && i <= |moves|
    ensures r.move == bestMove || r.move in moves[i..]
    ensures r.value >= best
    decreases depth, 1, |moves| - i
  {
    if i == |moves| then Outcome(best, bestMove)
    else
      var m := moves[i];
      var eval := AlphaBeta(g, g.play(b, m), depth - 1, alpha, beta, false).value;
      var best' := if eval > best then eval else best;
      var bestMove' := if eval > best then m else bestMove;
      var alpha' := RMax(alpha, eval);
      if beta <= alpha' then Outcome(best', bestMove')
      else MaxLoop(g, b, depth, moves, i + 1, alpha', beta, best', bestMove')
  }

  /** The minimising player's loop from move `i` on. */
  function MinLoop(g: Game, b: Board, depth: nat, moves: seq<Move>, i: nat,
                   alpha: real, beta: real, best: real, bestMove: Move): (r: Outcome)
    requires depth >= 1 && moves == g.legal(b) && i <= |moves|
    ensures r.move == bestMove || r.move in moves[i..]
    ensures r.value <= best
    decreases depth, 1, |moves| - i
  {
    if i == |moves| then Outcome(best, bestMove)
    else
      var m := moves[i];
      var eval := AlphaBeta(g, g.play(b, m), depth - 1, alpha, beta, true).value;
      var best' := if eval < best then eval else best;
      var bestMove' := if eval < best then m else bestMove;
      var beta' := RMin(beta, eval);
      if beta' <= alpha then Outcome(best', bestMove')
      else MinLoop(g, b, depth, moves, i + 1, alpha, beta', best', bestMove')
  }

  // ----- the reference: minimax without pruning -----

  /** Plain minimax: every legal move is searched. */
  function Minimax(g: Game, b: Board, depth: nat, maximizing: bool): (r: Outcome)
    ensures r.move == NoMove || r.move in g.legal(b)
    ensures Leaf(g, b, depth) ==> r.move == NoMove && r.value == g.score(b)
    decreases depth, 2, 0
  {
    if Leaf(g, b, depth) then Outcome(g.score(b), NoMove)
    else if maximizing then MaxAll(g, b, depth, g.legal(b), 0, -Infinity, NoMove)
    else MinAll(g, b, depth, g.legal(b), 0, Infinity, NoMove)
  }

  function MaxAll(g: Game, b: Board, depth: nat, moves: seq<Move>, i: nat,
                  best: real, bestMove: Move): (r: Outcome)
    requires depth >= 1 && moves == g.legal(b) && i <= |moves|
    ensures r.move == bestMove || r.move in moves[i..]
    ensures r.value >= best
    decreases depth, 1, |moves| - i
  {
    if i == |moves| then Outcome(best, bestMove)
    else
      var m := moves[i];
      var eval := Minimax(g, g.play(b, m), depth - 1, false).value;
      if eval > best then MaxAll(g, b, depth, moves, i + 1, eval, m)
      else MaxAll(g, b, depth, moves, i + 1, best, bestMove)
  }

  function MinAll(g: Game, b: Board, depth: nat, moves: seq<Move>, i: nat,
                  best: real, bestMove: Move): (r: Outcome)
    requires depth >= 1 && moves == g.legal(b) && i <= |moves|
    ensures r.move == bestMove || r.move in moves[i..]
    ensures r.value <= best
    decreases depth, 1, |moves| - i
  {
    if i == |moves| then Outcome(best, bestMove)
    else
      var m := moves[i];
      var eval := Minimax(g, g.play(b, m), depth - 1, true).value;
      if eval < best then MinAll(g, b, depth, moves, i + 1, eval, m)
      else MinAll(g, b, depth, moves, i + 1, best, bestMove)
  }

  /** The minimax score of a legal move's position. */
  function ChildValue(g: Game, b: Board, depth: nat, m: Move, maximizing: bool): real
    requires depth >= 1 && m in g.legal(b)
  {
    Minimax(g, g.play(b, m), depth - 1, !maximizing).value
  }

  // ----- pruning is sound -----

  /** How a window (alpha, beta) search relates to the exact score v: exact
      inside the window, an upper bound at or below alpha, a lower bound at or
      above beta. */
  predicate Clamped(r: real, v: real, alpha: real, beta: real) {
    && (v <= alpha ==> r <= alpha)
    && (v >= beta ==> r >= beta)
    && (alpha < v < beta ==> r == v)
  }

  /** Alpha-beta returns the minimax score whenever it lies inside the
      window, and a bound on the correct side of the window otherwise. */
  lemma {:induction false} AlphaBetaClamped(g: Game, b: Board, depth: nat, alpha: real, beta: real, maximizing: bool)
    requires -Infinity <= alpha < beta <= Infinity
    ensures Clamped(AlphaBeta(g, b, depth, alpha, beta, maximizing).value, Minimax(g, b, depth, maximizing).value, alpha, beta)
    decreases depth, 2, 0
  {
    if !Leaf(g, b, depth) {
      var moves := g.legal(b);
      if maximizing {
        MaxLoopClamped(g, b, depth, moves, 0, alpha, alpha, beta, -Infinity, NoMove, -Infinity, NoMove);
      } else {
        MinLoopClamped(g, b, depth, moves, 0, beta, alpha, beta, Infinity, NoMove, Infinity, NoMove);
      }
    }
  }

  /** The maximising loop, against the unpruned loop over the same moves.
      `alpha0` is the window's lower end on entry to the node; `refBest` is
      the exact best score so far. */
  lemma {:induction false} MaxLoopClamped(g: Game, b: Board, depth: nat, moves: seq<Move>, i: nat, alpha0: real,
                                          alpha: real, beta: real, best: real, bestMove: Move, refBest: real, refMove: Move)
    requires depth >= 1 && moves == g.legal(b) && i <= |moves|
    requires -Infinity <= alpha0 && alpha < beta <= Infinity
    requires alpha == RMax(alpha0, best)
    requires refBest <= alpha0 ==> best <= alpha0
    requires refBest > alpha0 ==> best == refBest
    ensures Clamped(MaxLoop(g, b, depth, moves, i, alpha, beta, best, bestMove).value,
                    MaxAll(g, b, depth, moves, i, refBest, refMove).value, alpha0, beta)
    decreases depth, 1, |moves| - i
  {
    if i < |moves| {
      var m := moves[i];
      var c := g.play(b, m);
      AlphaBetaClamped(g, c, depth - 1, alpha, beta, false);
      var r := AlphaBeta(g, c, depth - 1, alpha, beta, false).value;
      var v := Minimax(g, c, depth - 1, false).value;
      var best' := if r > best then r else best;
      var bestMove' := if r > best then m else bestMove;
      var refBest' := if v > refBest then v else refBest;
      var refMove' := if v > refBest then m else refMove;
      var alpha' := RMax(alpha, r);
      assert MaxAll(g, b, depth, moves, i, refBest, refMove) == MaxAll(g, b, depth, moves, i + 1, refBest', refMove');
      if beta <= alpha' {
        assert MaxLoop(g, b, depth, moves, i, alpha, beta, best, bestMove).value == best';
        assert v >= beta;
      } else {
        assert MaxLoop(g, b, depth, moves, i, alpha, beta, best, bestMove)
            == MaxLoop(g, b, depth, moves, i + 1, alpha', beta, best', bestMove');
        MaxLoopClamped(g, b, depth, moves, i + 1, alpha0, alpha', beta, best', bestMove', refBest', refMove');
      }
    }
  }

  /** The minimising loop, mirror image of MaxLoopClamped; `beta0` is the
      window's upper end on entry to the node. */
  lemma {:induction false} MinLoopClamped(g: Game, b: Board, depth: nat, moves: seq<Move>, i: nat, beta0: real,
                                          alpha: real, beta: real, best: real, bestMove: Move, refBest: real, refMove: Move)
    requires depth >= 1 && moves == g.legal(b) && i <= |moves|
    requires beta0 <= Infinity && -Infinity <= alpha < beta
    requires beta == RMin(beta0, best)
    requires refBest >= beta0 ==> best >= beta0
    requires refBest < beta0 ==> best == refBest
    ensures Clamped(MinLoop(g, b, depth, moves, i, alpha, beta, best, bestMove).value,
                    MinAll(g, b, depth, moves, i, refBest, refMove).value, alpha, beta0)
    decreases depth, 1, |moves| - i
  {
    if i < |moves| {
      var m := moves[i];
      var c := g.play(b, m);
      AlphaBetaClamped(g, c, depth - 1, alpha, beta, true);
      var r := AlphaBeta(g, c, depth - 1, alpha, beta, true).value;
      var v := Minimax(g, c, depth - 1, true).value;
      var best' := if r < best then r else best;
      var bestMove' := if r < best then m else bestMove;
      var refBest' := if v < refBest then v else refBest;
      var refMove' := if v < refBest then m else refMove;
      var beta' := RMin(beta, r);
      assert MinAll(g, b, depth, moves, i, refBest, refMove) == MinAll(g, b, depth, moves, i + 1, refBest', refMove');
      if beta' <= alpha {
        assert MinLoop(g, b, depth, moves, i, alpha, beta, best, bestMove).value == best';
        assert v <= alpha;
      } else {
        assert MinLoop(g, b, depth, moves, i, alpha, beta, best, bestMove)
            == MinLoop(g, b, depth, moves, i + 1, alpha, beta', best', bestMove');
        MinLoopClamped(g, b, depth, moves, i + 1, beta0, alpha, beta', best', bestMove', refBest', refMove');
      }
    }
  }

  // ----- scores stay finite -----

  /** With a bounded evaluator every minimax score is strictly between the
      sentinels. */
  lemma {:induction false} MinimaxFinite(g: Game, b: Board, depth: nat, maximizing: bool)
    requires Bounded(g)
    ensures -Infinity < Minimax(g, b, depth, maximizing).value < Infinity
    decreases depth, 2, 0
  {
    if !Leaf(g, b, depth) {
      var moves := g.legal(b);
      if maximizing {
        MaxAllFinite(g, b, depth, moves, 0, -Infinity, NoMove);
      } else {
        MinAllFinite(g, b, depth, moves, 0, Infinity, NoMove);
      }
    }
  }

  lemma {:induction false} MaxAllFinite(g: Game, b: Board, depth: nat, moves: seq<Move>, i: nat, best: real, bestMove: Move)
    requires Bounded(g) && depth >= 1 && moves == g.legal(b) && i <= |moves|
    requires best < Infinity && (-Infinity < best || i < |moves|)
    ensures -Infinity < MaxAll(g, b, depth, moves, i, best, bestMove).value < Infinity
    decreases depth, 1, |moves| - i
  {
    if i < |moves| {
      var m := moves[i];
      MinimaxFinite(g, g.play(b, m), depth - 1, false);
      var eval := Minimax(g, g.play(b, m), depth - 1, false).value;
      if eval > best {
        MaxAllFinite(g, b, depth, moves, i + 1, eval, m);
      } else {
        MaxAllFinite(g, b, depth, moves, i + 1, best, bestMove);
      }
    }
  }

  lemma {:induction false} MinAllFinite(g: Game, b: Board, depth: nat, moves: seq<Move>, i: nat, best: real, bestMove: Move)
    requires Bounded(g) && depth >= 1 && moves == g.legal(b) && i <= |moves|
    requires -Infinity < best && (best < Infinity || i < |moves|)
    ensures -Infinity < MinAll(g, b, depth, moves, i, best, bestMove).value < Infinity
    decreases depth, 1, |moves| - i
  {
    if i < |moves| {
      var m := moves[i];
      MinimaxFinite(g, g.play(b, m), depth - 1, true);
      var eval := Minimax(g, g.play(b, m), depth - 1, true).value;
      if eval < best {
        MinAllFinite(g, b, depth, moves, i + 1, eval, m);
      } else {
        MinAllFinite(g, b, depth, moves, i + 1, best, bestMove);
      }
    }
  }

  // ----- the root call -----

  /** At the root the window is the full range, so it never closes and each
      child's score is exact whenever it could beat the best so far: the
      pruned loop and the unpruned loop agree on score and move. */
  lemma {:induction false} RootLoopExact(g: Game, b: Board, depth: nat, moves: seq<Move>, i: nat, best: real, bestMove: Move)
    requires Bounded(g) && depth >= 1 && moves == g.legal(b) && i <= |moves|
    requires -Infinity <= best < Infinity
    ensures MaxLoop(g, b, depth, moves, i, best, Infinity, best, bestMove) == MaxAll(g, b, depth, moves, i, best, bestMove)
    decreases |moves| - i
  {
    if i < |moves| {
      var m := moves[i];
      var c := g.play(b, m);
      MinimaxFinite(g, c, depth - 1, false);
      AlphaBetaClamped(g, c, depth - 1, best, Infinity, false);
      var v := Minimax(g, c, depth - 1, false).value;
      if v > best {
        RootLoopExact(g, b, depth, moves, i + 1, v, m);
      } else {
        RootLoopExact(g, b, depth, moves, i + 1, best, bestMove);
      }
    }
  }

  /** The agent's root search, maximising over the full window, returns
      exactly the unpruned minimax score and move. */
  lemma AlphaBetaRootExact(g: Game, b: Board, depth: nat)
    requires Bounded(g)
    ensures AlphaBeta(g, b, depth, -Infinity, Infinity, true) == Minimax(g, b, depth, true)
  {
    if !Leaf(g, b, depth) {
      RootLoopExact(g, b, depth, g.legal(b), 0, -Infinity, NoMove);
    }
  }

  // ----- what the reference chooses -----

  /** The unpruned maximising loop keeps the first move, in list order, whose
      score beats every score before it and is not beaten after it. */
  lemma {:induction false} MaxAllFirstBest(g: Game, b: Board, depth: nat, moves: seq<Move>, i: nat, best: real, bestMove: Move)
    requires depth >= 1 && moves == g.legal(b) && i <= |moves|
    ensures var r := MaxAll(g, b, depth, moves, i, best, bestMove);
      && (forall j :: i <= j < |moves| ==> ChildValue(g, b, depth, moves[j], true) <= r.value)
      && (r.value == best ==> r.move == bestMove)
      && (r.value > best ==> exists k :: i <= k < |moves| && r.move == moves[k] && ChildValue(g, b, depth, moves[k], true) == r.value
                                       && forall j :: i <= j < k ==> ChildValue(g, b, depth, moves[j], true) < r.value)
    decreases |moves| - i
  {
    if i < |moves| {
      var m := moves[i];
      var eval := ChildValue(g, b, depth, m, true);
      if eval > best {
        MaxAllFirstBest(g, b, depth, moves, i + 1, eval, m);
        var r := MaxAll(g, b, depth, moves, i + 1, eval, m);
        if r.value == eval {
          assert r.move == moves[i];
        } else {
          var k :| i + 1 <= k < |moves| && r.move == moves[k] && ChildValue(g, b, depth, moves[k], true) == r.value
                   && forall j :: i + 1 <= j < k ==> ChildValue(g, b, depth, moves[j], true) < r.value;
          assert forall j :: i <= j < k ==> ChildValue(g, b, depth, moves[j], true) < r.value;
        }
      } else {
        MaxAllFirstBest(g, b, depth, moves, i + 1, best, bestMove);
      }
    }
  }

  /** The root search picks the first legal move, in scan order, whose
      minimax score is the largest any legal move reaches. */
  lemma AlphaBetaPicksFirstBest(g: Game, b: Board, depth: nat)
    requires Bounded(g) && !Leaf(g, b, depth)
    ensures var r := AlphaBeta(g, b, depth, -Infinity, Infinity, true);
      var moves := g.legal(b);
      exists k :: 0 <= k < |moves| && r.move == moves[k] && ChildValue(g, b, depth, moves[k], true) == r.value
        && (forall j :: 0 <= j < |moves| ==> ChildValue(g, b, depth, moves[j], true) <= r.value)
        && (forall j :: 0 <= j < k ==> ChildValue(g, b, depth, moves[j], true) < r.value)
  {
    var moves := g.legal(b);
    AlphaBetaRootExact(g, b, depth);
    MaxAllFirstBest(g, b, depth, moves, 0, -Infinity, NoMove);
    MinimaxFinite(g, g.play(b, moves[0]), depth - 1, false);
  }

  /** With a bounded evaluator the root search of a live position with a
      legal move always returns one of the legal moves, never NoMove. */
  lemma AlphaBetaRootFindsMove(g: Game, b: Board, depth: nat)
    requires Bounded(g) && !Leaf(g, b, depth)
    ensures AlphaBeta(g, b, depth, -Infinity, Infinity, true).move in g.legal(b)
  {
    AlphaBetaPicksFirstBest(g, b, depth);
  }
}
