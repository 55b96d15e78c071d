/**
 * The roll rules of `updateGameRoll` on game values: whose turn it is, which
 * sequence grows, and how the outcome of a roll is classified.
 */
module Rolls {
  import opened Wrappers
  import opened Models
  import opened Scoring

  datatype RollResult = RollResult(status: RollStatus, game: GameRecord)

  /** Turns alternate: neither side is more than one roll ahead. */
  predicate Balanced(g: GameRecord) {
    -1 <= |g.challengerRolls| - |g.opponentRolls| <= 1
  }

  function GameScore(g: GameRecord): Score {
    ScoreOf(g.challengerRolls, g.opponentRolls)
  }

  /** The roller is identified as the challenger (this check takes precedence). */
  predicate IsChallenger(g: GameRecord, player: Player) {
    g.challenger.id == player.id
  }

  predicate IsOpponent(g: GameRecord, player: Player) {
    g.opponent.id == player.id
  }

  /** The roller already has more rolls than the other side. */
  predicate OutOfTurn(g: GameRecord, player: Player) {
    || (IsChallenger(g, player) && |g.challengerRolls| > |g.opponentRolls|)
    || (IsOpponent(g, player) && |g.opponentRolls| > |g.challengerRolls|)
  }

  /** The game after the roll is appended to the roller's sequence. */
  function Appended(g: GameRecord, player: Player, roll: int): GameRecord {
    if IsChallenger(g, player) then g.(challengerRolls := g.challengerRolls + [roll])
    else g.(opponentRolls := g.opponentRolls + [roll])
  }

  /**
   * One roll applied to a game: the new status and the game as it is written back.
   * A roller who is neither side is an error; an out-of-turn roll leaves the game as it was.
   */
  function ApplyRoll(g: GameRecord, player: Player, roll: int): (r: Result<RollResult, Error>)
    ensures r.Failure? <==> g.challenger.id != player.id && g.opponent.id != player.id
    ensures r.Failure? ==> r.error == PlayerNotInGame
    ensures r.Success? ==> (r.value.status == Invalid <==> OutOfTurn(g, player))
    ensures r.Success? && r.value.status == Invalid ==> r.value.game == g
    ensures r.Success? ==> StateRank(r.value.game.state) >= StateRank(g.state)
    ensures r.Success? ==> (r.value.game.state != g.state <==> r.value.status == Closed && g.state != Finished)
    ensures r.Success? && r.value.status == Closed ==> r.value.game.state == Finished
  {
    if !(IsChallenger(g, player) || IsOpponent(g, player)) then Failure(PlayerNotInGame)
    else if OutOfTurn(g, player) then Success(RollResult(Invalid, g))
    else
      var opening := |g.challengerRolls| == |g.opponentRolls|;
      var next := Appended(g, player, roll);
      if opening then Success(RollResult(Open, next))
      else
        var other := if IsChallenger(g, player) then g.opponentRolls[|g.opponentRolls| - 1]
                     else g.challengerRolls[|g.challengerRolls| - 1];
        var score := GameScore(next);
        if roll == other then Success(RollResult(Tie, next))
        else if score.challenger == g.winningRounds || score.opponent == g.winningRounds then
          Success(RollResult(Closed, next.(state := Finished)))
        else if roll > other then Success(RollResult(Win, next))
        else Success(RollResult(Loose, next))
  }

  /**
   * A valid roll appends exactly that roll to the roller's sequence only; the id, the players
   * and the number of winning rounds never change.
   */
  lemma ValidRollAppendsOne(g: GameRecord, player: Player, roll: int)
    requires ApplyRoll(g, player, roll).Success? && !OutOfTurn(g, player)
    ensures var g' := ApplyRoll(g, player, roll).value.game;
      && g'.id == g.id && g'.challenger == g.challenger && g'.opponent == g.opponent
      && g'.winningRounds == g.winningRounds
      && (if IsChallenger(g, player)
          then g'.challengerRolls == g.challengerRolls + [roll] && g'.opponentRolls == g.opponentRolls
          else g'.opponentRolls == g.opponentRolls + [roll] && g'.challengerRolls == g.challengerRolls)
  {
  }

  /**
   * The rules never read the game's state: the same roll on the same game in any other state
   * has the same outcome, and only a `Closed` roll changes the state (to Finished).
   */
  lemma RollIgnoresState(g: GameRecord, s: GameState, player: Player, roll: int)
    ensures var a, b := ApplyRoll(g, player, roll), ApplyRoll(g.(state := s), player, roll);
      && (a.Failure? <==> b.Failure?)
      && (a.Success? ==>
            && b.value.status == a.value.status
            && b.value.game == a.value.game.(state := if a.value.status == Closed then Finished else s))
  {
  }

  /** Turn alternation is preserved by every roll. */
  lemma RollKeepsTurnsBalanced(g: GameRecord, player: Player, roll: int)
    requires Balanced(g) && ApplyRoll(g, player, roll).Success?
    ensures Balanced(ApplyRoll(g, player, roll).value.game)
  {
  }

  /**
   * The order in which a valid roll's outcome is decided: equal lengths open a round;
   * otherwise a roll equal to the other side's last one ties; otherwise a side reaching
   * `winningRounds` closes the game (before any plain win); otherwise higher wins, lower loses.
   */
  lemma RollOutcomeOrder(g: GameRecord, player: Player, roll: int)
    requires ApplyRoll(g, player, roll).Success? && !OutOfTurn(g, player)
    ensures var status := ApplyRoll(g, player, roll).value.status;
      var c, o := g.challengerRolls, g.opponentRolls;
      var score := GameScore(Appended(g, player, roll));
      var reached := score.challenger == g.winningRounds || score.opponent == g.winningRounds;
      && (status == Open <==> |c| == |o|)
      && (|c| != |o| ==>
            var other := if IsChallenger(g, player) then o[|o| - 1] else c[|c| - 1];
            && (status == Tie <==> roll == other)
            && (status == Closed <==> roll != other && reached)
            && (status == Win <==> roll > other && !reached)
            && (status == Loose <==> roll < other && !reached))
  {
  }

  /** A `Closed` roll leaves a side with exactly `winningRounds` round wins. */
  lemma ClosedMeansMatchWon(g: GameRecord, player: Player, roll: int)
    requires ApplyRoll(g, player, roll).Success? && ApplyRoll(g, player, roll).value.status == Closed
    ensures var s := GameScore(ApplyRoll(g, player, roll).value.game);
      s.challenger == g.winningRounds || s.opponent == g.winningRounds
  {
  }

  /**
   * In a game whose turns alternate, `Open` and `Tie` leave the score as it was, `Win` gives
   * the roller's side one more round, `Loose` gives the other side one more round, and
   * `Closed` gives one side one more round.
   */
  lemma RollScoreEffect(g: GameRecord, player: Player, roll: int)
    requires Balanced(g) && ApplyRoll(g, player, roll).Success?
    ensures var r := ApplyRoll(g, player, roll).value;
      var before, after := GameScore(g), GameScore(r.game);
      var byChallenger := IsChallenger(g, player);
      && (r.status in {Invalid, Open, Tie} ==> after == before)
      && (r.status == Win ==>
            if byChallenger then after == Score(before.challenger + 1, before.opponent)
            else after == Score(before.challenger, before.opponent + 1))
      && (r.status == Loose ==>
            if byChallenger then after == Score(before.challenger, before.opponent + 1)
            else after == Score(before.challenger + 1, before.opponent))
      && (r.status == Closed ==>
            after == Score(before.challenger + 1, before.opponent)
            || after == Score(before.challenger, before.opponent + 1))
  {
    var c, o := g.challengerRolls, g.opponentRolls;
    if !OutOfTurn(g, player) {
      if IsChallenger(g, player) {
        ScoreAfterOpeningRoll(c, o, roll);
        ScoreAfterAnsweringRoll(c, o, roll);
      } else {
        ScoreAfterOpeningRoll(c, o, roll);
        ScoreAfterAnsweringRoll(c, o, roll);
      }
    }
  }
}
