/** The reinforcement-learning agent: its exploration rate, discount factor
    and the encoded positions of the current game; move choice by
    epsilon-greedy over the look-ahead; end-of-game learning. The network's
    weights are outside the model: choosing takes the evaluator as a
    parameter, and learning returns the training calls it makes. */
module Agents {
  import opened Chess
  import opened Rules
  import opened Engine
  import opened Encoding
  import opened Lookahead

  datatype Agent = Agent(color: Color, epsilon: real, gamma: real, stateHistory: seq<seq<int>>)

  /** One call of the network's training step: an encoded position and the
      score it is pulled toward. */
  datatype TrainCall = TrainCall(state: seq<int>, target: real)

  /** A new agent explores one move in ten and discounts by 0.99 per move. */
  function NewAgent(color: Color): (a: Agent)
    ensures a.color == color && a.epsilon == 0.1 && a.gamma == 0.99
    ensures GetMovesCount(a) == 0
  {
    Agent(color, 0.1, 0.99, [])
  }

  /** Remember the encoding of the current position. */
  function RecordState(a: Agent, b: Board): (r: Agent)
    ensures r.stateHistory == a.stateHistory + [BoardToVector(b)]
    ensures r.(stateHistory := a.stateHistory) == a
    ensures GetMovesCount(r) == GetMovesCount(a) + 1
  {
    a.(stateHistory := a.stateHistory + [BoardToVector(b)])
  }

  /** The number of positions recorded in the current game. */
  function GetMovesCount(a: Agent): nat {
    |a.stateHistory|
  }

  /** The agent after recording each of `bs` in turn. */
  function RecordAll(a: Agent, bs: seq<Board>): Agent
    decreases |bs|
  {
    if |bs| == 0 then a else RecordAll(RecordState(a, bs[0]), bs[1..])
  }

  /** Recording a game's positions raises the move count by their number,
      appends their encodings in order, and leaves the rest of the agent as
      it was. */
  lemma {:induction false} RecordAllCount(a: Agent, bs: seq<Board>)
    ensures GetMovesCount(RecordAll(a, bs)) == GetMovesCount(a) + |bs|
    ensures RecordAll(a, bs).stateHistory ==
      a.stateHistory + seq(|bs|, k requires 0 <= k < |bs| => BoardToVector(bs[k]))
    ensures RecordAll(a, bs).(stateHistory := a.stateHistory) == a
    decreases |bs|
  {
    if |bs| > 0 {
      var a' := RecordState(a, bs[0]);
      RecordAllCount(a', bs[1..]);
      var rest := seq(|bs| - 1, k requires 0 <= k < |bs| - 1 => BoardToVector(bs[1..][k]));
      var all := seq(|bs|, k requires 0 <= k < |bs| => BoardToVector(bs[k]));
      assert all == [BoardToVector(bs[0])] + rest;
    }
  }

  function Pow(x: real, k: nat): real {
    if k == 0 then 1.0 else Pow(x, k - 1) * x
  }

  /** A reward multiplied by gamma `k` times over, as the learning loop
      computes it. */
  function Discounted(reward: real, gamma: real, k: nat): real {
    if k == 0 then reward else Discounted(reward, gamma, k - 1) * gamma
  }

  /** Repeated discounting is the reward times a power of gamma. */
  lemma {:induction false} DiscountedIsPow(reward: real, gamma: real, k: nat)
    ensures Discounted(reward, gamma, k) == reward * Pow(gamma, k)
  {
    if k > 0 {
      DiscountedIsPow(reward, gamma, k - 1);
      var p := Pow(gamma, k - 1);
      assert (reward * p) * gamma == reward * (p * gamma);
    }
  }

  /** Exploration decays by 0.5% per game, down to a floor of 0.01. */
  function DecayEpsilon(e: real): (r: real)
    ensures r >= 0.01
    ensures e >= 0.01 ==> r <= e
    ensures r == 0.01 || r == e * 0.995
    ensures e * 0.995 >= 0.01 ==> r == e * 0.995
    ensures e * 0.995 < 0.01 ==> r == 0.01
  {
    var e' := e * 0.995;
    if e' < 0.01 then 0.01 else e'
  }

  /** End-of-game learning. With no recorded position nothing happens.
      Otherwise the positions are trained from the last to the first, the
      last toward the final reward and each earlier one toward the next
      one's target times gamma; then exploration decays. The recorded
      positions are kept. */
  method Learn(a: Agent, finalReward: real) returns (r: Agent, trace: seq<TrainCall>)
    ensures |a.stateHistory| == 0 ==> r == a && trace == []
    ensures |trace| == |a.stateHistory|
    ensures forall k :: 0 <= k < |trace| ==>
      trace[k] == TrainCall(a.stateHistory[|a.stateHistory| - 1 - k], Discounted(finalReward, a.gamma, k))
    ensures r.stateHistory == a.stateHistory && r.color == a.color && r.gamma == a.gamma
    ensures |a.stateHistory| > 0 ==> r.epsilon == DecayEpsilon(a.epsilon)
  {
    var n := |a.stateHistory|;
    if n == 0 {
      return a, [];
    }
    var reward := finalReward;
    var i := n - 1;
    trace := [];
    while i >= 0
      invariant -1 <= i < n
      invariant |trace| == n - 1 - i
      invariant reward == Discounted(finalReward, a.gamma, n - 1 - i)
      invariant forall k :: 0 <= k < |trace| ==>
        trace[k] == TrainCall(a.stateHistory[n - 1 - k], Discounted(finalReward, a.gamma, k))
    {
      trace := trace + [TrainCall(a.stateHistory[i], reward)];
      reward := reward * a.gamma;
      i := i - 1;
    }
    r := a.(epsilon := DecayEpsilon(a.epsilon));
  }

  /** Position `i` of a game of `n` recorded positions is trained toward
      finalReward * gamma^(n-1-i). */
  lemma LearnTargets(a: Agent, finalReward: real, trace: seq<TrainCall>, i: int)
    requires |trace| == |a.stateHistory|
    requires forall k :: 0 <= k < |trace| ==>
      trace[k] == TrainCall(a.stateHistory[|a.stateHistory| - 1 - k], Discounted(finalReward, a.gamma, k))
    requires 0 <= i < |a.stateHistory|
    ensures var k := |a.stateHistory| - 1 - i;
      0 <= k < |trace| && trace[k].state == a.stateHistory[i]
      && trace[k].target == finalReward * Pow(a.gamma, |a.stateHistory| - 1 - i)
  {
    var k := |a.stateHistory| - 1 - i;
    assert trace[k] == TrainCall(a.stateHistory[|a.stateHistory| - 1 - k], Discounted(finalReward, a.gamma, k));
    DiscountedIsPow(finalReward, a.gamma, k);
  }

  /** Epsilon after `n` finished games. */
  function DecayTimes(e: real, n: nat): real {
    if n == 0 then e else DecayEpsilon(DecayTimes(e, n - 1))
  }

  /** From at or above the floor, epsilon never rises and never drops below
      0.01, and stays put only at the floor. */
  lemma {:induction false} DecayMonotone(e: real, n: nat)
    requires e >= 0.01
    ensures 0.01 <= DecayTimes(e, n + 1) <= DecayTimes(e, n) <= e
    ensures DecayTimes(e, n + 1) == DecayTimes(e, n) <==> DecayTimes(e, n) == 0.01
  {
    if n > 0 {
      DecayMonotone(e, n - 1);
    }
  }

  /** 0.995^k >= 1 - 0.005 k. */
  lemma {:induction false} PowLowerBound(k: nat)
    ensures Pow(0.995, k) >= 1.0 - 0.005 * k as real
  {
    if k > 0 {
      PowLowerBound(k - 1);
      var p := Pow(0.995, k - 1);
      if p >= 0.0 {
        assert p * 0.995 >= (1.0 - 0.005 * (k - 1) as real) * 0.995;
      } else {
        assert 1.0 - 0.005 * (k - 1) as real < 0.0;
      }
    }
  }

  /** Decay from the initial 0.1 is slow: over the first hundred games the
      floor is never reached, epsilon is 0.1 * 0.995^n, and it is still at
      least 0.05. */
  lemma {:induction false} EarlyDecay(n: nat)
    requires n <= 100
    ensures DecayTimes(0.1, n) == 0.1 * Pow(0.995, n)
    ensures DecayTimes(0.1, n) >= 0.05
  {
    if n > 0 {
      EarlyDecay(n - 1);
      PowLowerBound(n);
      assert 0.1 * Pow(0.995, n) >= 0.05;
      assert DecayTimes(0.1, n - 1) * 0.995 == 0.1 * Pow(0.995, n);
    }
  }

  /** Epsilon-greedy move choice. `u` is the uniform draw in [0, 1) and
      `pick` the random index draw, used modulo the number of moves. With no
      legal move the zero move is returned. With probability epsilon a random
      legal move is played; otherwise the depth-2 search's move, or a random
      legal move when the search returns none. */
  function ChooseMove(a: Agent, net: Evaluator, b: Board, u: real, pick: nat): (m: Move)
    ensures |GetLegalMoves(b)| == 0 ==> m == ZeroMove
    ensures |GetLegalMoves(b)| > 0 ==> m in GetLegalMoves(b)
    ensures |GetLegalMoves(b)| > 0 && u < a.epsilon ==> m == GetLegalMoves(b)[pick % |GetLegalMoves(b)|]
  {
    var moves := GetLegalMoves(b);
    if |moves| == 0 then ZeroMove
    else if u < a.epsilon then moves[pick % |moves|]
    else
      var best := AlphaBeta(AgentGame(net), b, 2, -Infinity, Infinity, true).move;
      if best.from.row == -1 then moves[pick % |moves|] else best
  }

  /** In an ended game the root search does not look ahead: it returns the
      network's score of the position and the sentinel move. */
  lemma EndedGameScored(net: Evaluator, b: Board)
    requires b.gameOver
    ensures AlphaBeta(AgentGame(net), b, 2, -Infinity, Infinity, true) == Outcome(Evaluate(net, b), NoMove)
  {
  }

  /** When it does not explore and the game is still on, the agent plays the
      move of the root search, which with a bounded evaluator is a legal move
      and the unpruned depth-2 minimax choice: the first legal move, in scan
      order, with the largest score (AlphaBetaPicksFirstBest). */
  lemma ChooseMoveGreedy(a: Agent, net: Evaluator, b: Board, u: real, pick: nat)
    requires Bounded(AgentGame(net)) && !b.gameOver && |GetLegalMoves(b)| > 0 && u >= a.epsilon
    ensures ChooseMove(a, net, b, u, pick) == AlphaBeta(AgentGame(net), b, 2, -Infinity, Infinity, true).move
  {
    var g := AgentGame(net);
    var r := AlphaBeta(g, b, 2, -Infinity, Infinity, true);
    assert !Leaf(g, b, 2) by {
      assert g.legal(b) == GetLegalMoves(b);
    }
    AlphaBetaRootFindsMove(g, b, 2);
    assert r.move.from.row != -1 by {
      assert r.move in GetLegalMoves(b);
    }
  }
}
