/** Round scoring: how many rounds each side has won so far (`determineScore`). */
module Scoring {

  datatype Score = Score(challenger: nat, opponent: nat)

  function Min(a: nat, b: nat): nat {
    if a <= b then a else b
  }

  /** The point one round awards: the strictly higher roll wins it, equal rolls award nothing. */
  function RoundPoint(challengerRoll: int, opponentRoll: int): Score {
    if challengerRoll > opponentRoll then Score(1, 0)
    else if opponentRoll > challengerRoll then Score(0, 1)
    else Score(0, 0)
  }

  function Add(a: Score, b: Score): Score {
    Score(a.challenger + b.challenger, a.opponent + b.opponent)
  }

  /** The score over the first `n` rounds, both sides having rolled at least `n` times. */
  function ScoreOfRounds(c: seq<int>, o: seq<int>, n: nat): (s: Score)
    requires n <= |c| && n <= |o|
    ensures s.challenger + s.opponent <= n
  {
    if n == 0 then Score(0, 0)
    else Add(ScoreOfRounds(c, o, n - 1), RoundPoint(c[n - 1], o[n - 1]))
  }

  /** The score of a game: only rounds both sides have rolled are compared. */
  function ScoreOf(c: seq<int>, o: seq<int>): (s: Score)
    ensures s.challenger + s.opponent <= Min(|c|, |o|)
    ensures |c| == 0 || |o| == 0 ==> s == Score(0, 0)
  {
    ScoreOfRounds(c, o, Min(|c|, |o|))
  }

  /** The counting loop of `determineScore`. */
  method DetermineScore(challengerRolls: seq<int>, opponentRolls: seq<int>) returns (s: Score)
    ensures s == ScoreOf(challengerRolls, opponentRolls)
  {
    var challengerScore: nat := 0;
    var opponentScore: nat := 0;
    var n := Min(|challengerRolls|, |opponentRolls|);
    for i := 0 to n
      invariant Score(challengerScore, opponentScore) == ScoreOfRounds(challengerRolls, opponentRolls, i)
    {
      var challengerRoll := challengerRolls[i];
      var opponentRoll := opponentRolls[i];
      if challengerRoll > opponentRoll {
        challengerScore := challengerScore + 1;
      } else if opponentRoll > challengerRoll {
        opponentScore := opponentScore + 1;
      }
    }
    s := Score(challengerScore, opponentScore);
  }

  /** The score of the first `n` rounds depends on those rounds only. */
  lemma {:induction false} ScoreOfRoundsPrefix(c: seq<int>, o: seq<int>, c': seq<int>, o': seq<int>, n: nat)
    requires n <= |c| && n <= |o| && n <= |c'| && n <= |o'|
    requires c[..n] == c'[..n] && o[..n] == o'[..n]
    ensures ScoreOfRounds(c, o, n) == ScoreOfRounds(c', o', n)
  {
    if n > 0 {
      assert c[..n - 1] == c[..n][..n - 1] && c'[..n - 1] == c'[..n][..n - 1];
      assert o[..n - 1] == o[..n][..n - 1] && o'[..n - 1] == o'[..n][..n - 1];
      assert c[n - 1] == c[..n][n - 1] && c'[n - 1] == c'[..n][n - 1];
      assert o[n - 1] == o[..n][n - 1] && o'[n - 1] == o'[..n][n - 1];
      ScoreOfRoundsPrefix(c, o, c', o', n - 1);
    }
  }

  /** Trailing unmatched rolls are ignored: only the rounds both sides rolled count. */
  lemma ScoreIgnoresTrailing(c: seq<int>, o: seq<int>)
    ensures ScoreOf(c, o) == ScoreOf(c[..Min(|c|, |o|)], o[..Min(|c|, |o|)])
  {
    var m := Min(|c|, |o|);
    ScoreOfRoundsPrefix(c, o, c[..m], o[..m], m);
  }

  /** Identical roll sequences give 0-0: every round is a tie. */
  lemma {:induction false} ScoreOfRoundsIdentical(c: seq<int>, n: nat)
    requires n <= |c|
    ensures ScoreOfRounds(c, c, n) == Score(0, 0)
  {
    if n > 0 {
      ScoreOfRoundsIdentical(c, n - 1);
    }
  }

  lemma ScoreOfIdentical(c: seq<int>)
    ensures ScoreOf(c, c) == Score(0, 0)
  {
    ScoreOfRoundsIdentical(c, |c|);
  }

  /** Swapping the sides swaps the score. */
  lemma {:induction false} ScoreOfRoundsSwap(c: seq<int>, o: seq<int>, n: nat)
    requires n <= |c| && n <= |o|
    ensures ScoreOfRounds(o, c, n) == Score(ScoreOfRounds(c, o, n).opponent, ScoreOfRounds(c, o, n).challenger)
  {
    if n > 0 {
      ScoreOfRoundsSwap(c, o, n - 1);
    }
  }

  lemma ScoreSymmetric(c: seq<int>, o: seq<int>)
    ensures ScoreOf(o, c) == Score(ScoreOf(c, o).opponent, ScoreOf(c, o).challenger)
  {
    ScoreOfRoundsSwap(c, o, Min(|c|, |o|));
  }

  /** A roll that opens a round (the roller is not behind) leaves the score unchanged. */
  lemma ScoreAfterOpeningRoll(c: seq<int>, o: seq<int>, x: int)
    ensures |c| >= |o| ==> ScoreOf(c + [x], o) == ScoreOf(c, o)
    ensures |o| >= |c| ==> ScoreOf(c, o + [x]) == ScoreOf(c, o)
  {
    var m := Min(|c|, |o|);
    if |c| >= |o| {
      assert (c + [x])[..m] == c[..m];
      ScoreOfRoundsPrefix(c + [x], o, c, o, m);
    }
    if |o| >= |c| {
      assert (o + [x])[..m] == o[..m];
      ScoreOfRoundsPrefix(c, o + [x], c, o, m);
    }
  }

  /** A roll that answers the other side's open round adds exactly that round's point. */
  lemma ScoreAfterAnsweringRoll(c: seq<int>, o: seq<int>, x: int)
    ensures |c| + 1 == |o| ==> ScoreOf(c + [x], o) == Add(ScoreOf(c, o), RoundPoint(x, o[|c|]))
    ensures |o| + 1 == |c| ==> ScoreOf(c, o + [x]) == Add(ScoreOf(c, o), RoundPoint(c[|o|], x))
  {
    if |c| + 1 == |o| {
      var n := |c|;
      assert (c + [x])[..n] == c[..n];
      assert o[..n] == o[..n];
      ScoreOfRoundsPrefix(c + [x], o, c, o, n);
    }
    if |o| + 1 == |c| {
      var n := |o|;
      assert (o + [x])[..n] == o[..n];
      ScoreOfRoundsPrefix(c, o + [x], c, o, n);
    }
  }

  /** The indices below `n` where the challenger rolled higher. */
  function ChallengerRounds(c: seq<int>, o: seq<int>, n: nat): set<nat>
    requires n <= |c| && n <= |o|
  {
    set i: nat | i < n && c[i] > o[i]
  }

  /** The indices below `n` where the opponent rolled higher. */
  function OpponentRounds(c: seq<int>, o: seq<int>, n: nat): set<nat>
    requires n <= |c| && n <= |o|
  {
    set i: nat | i < n && o[i] > c[i]
  }

  lemma ChallengerRoundsStep(c: seq<int>, o: seq<int>, n: nat)
    requires 0 < n <= |c| && n <= |o|
    ensures |ChallengerRounds(c, o, n)| == |ChallengerRounds(c, o, n - 1)| + (if c[n - 1] > o[n - 1] then 1 else 0)
  {
    var k := n - 1;
    if c[k] > o[k] {
      assert ChallengerRounds(c, o, n) == ChallengerRounds(c, o, k) + {k};
      assert k !in ChallengerRounds(c, o, k);
    } else {
      assert ChallengerRounds(c, o, n) == ChallengerRounds(c, o, k);
    }
  }

  lemma OpponentRoundsStep(c: seq<int>, o: seq<int>, n: nat)
    requires 0 < n <= |c| && n <= |o|
    ensures |OpponentRounds(c, o, n)| == |OpponentRounds(c, o, n - 1)| + (if o[n - 1] > c[n - 1] then 1 else 0)
  {
    var k := n - 1;
    if o[k] > c[k] {
      assert OpponentRounds(c, o, n) == OpponentRounds(c, o, k) + {k};
      assert k !in OpponentRounds(c, o, k);
    } else {
      assert OpponentRounds(c, o, n) == OpponentRounds(c, o, k);
    }
  }

  /** Each side's score is the number of compared rounds in which it rolled strictly higher. */
  lemma {:induction false} ScoreOfRoundsCounts(c: seq<int>, o: seq<int>, n: nat)
    requires n <= |c| && n <= |o|
    ensures ScoreOfRounds(c, o, n).challenger == |ChallengerRounds(c, o, n)|
    ensures ScoreOfRounds(c, o, n).opponent == |OpponentRounds(c, o, n)|
  {
    if n > 0 {
      ScoreOfRoundsCounts(c, o, n - 1);
      ChallengerRoundsStep(c, o, n);
      OpponentRoundsStep(c, o, n);
    } else {
      assert ChallengerRounds(c, o, 0) == {} && OpponentRounds(c, o, 0) == {};
    }
  }

  lemma ScoreCountsRounds(c: seq<int>, o: seq<int>)
    ensures ScoreOf(c, o).challenger == |ChallengerRounds(c, o, Min(|c|, |o|))|
    ensures ScoreOf(c, o).opponent == |OpponentRounds(c, o, Min(|c|, |o|))|
  {
    ScoreOfRoundsCounts(c, o, Min(|c|, |o|));
  }
}
