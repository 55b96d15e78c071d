/** The scores the repository's tests compute, stated against the model. */
module ScoreScenarios {
  import opened Scoring

  /** Identical rolls score nothing, as `determineScore`'s tie test expects. */
  lemma TiedScoreCase()
    ensures ScoreOf([3, 4, 5, 6], [3, 4, 5, 6]) == Score(0, 0)
  {
    ScoreOfIdentical([3, 4, 5, 6]);
  }
}

/** The rolls the repository's tests make, stated against the model. */
module RollScenarios {
  import opened Wrappers
  import opened Models
  import opened Rolls

  function TestGame(c: seq<int>, o: seq<int>): GameRecord {
    GameRecord(0, Player(Some(1), "challenger"), Player(Some(2), "opponent"), Accepted, 3, c, o)
  }

  /** The first roll of a game opens a round. */
  lemma OpeningRollCase()
    ensures ApplyRoll(TestGame([], []), Player(Some(1), "challenger"), 4)
         == Success(RollResult(Open, TestGame([4], [])))
  {
    assert [] + [4] == [4];
  }

  /** A roll after two complete rounds opens the third. */
  lemma ThirdRoundOpensCase()
    ensures ApplyRoll(TestGame([6, 5], [4, 3]), Player(Some(1), "challenger"), 6)
         == Success(RollResult(Open, TestGame([6, 5, 6], [4, 3])))
  {
    assert [6, 5] + [6] == [6, 5, 6];
  }

  /**
   * A second roll before the other side answers is refused; a stranger's roll is an error.
   * As in the test, the game was finished by the step before: its state plays no part.
   */
  lemma RefusedRollCases()
    ensures var finished := TestGame([4], []).(state := Finished);
      && ApplyRoll(finished, Player(Some(1), "challenger"), 5) == Success(RollResult(Invalid, finished))
      && ApplyRoll(finished, Player(Some(3), "stranger"), 5) == Failure(PlayerNotInGame)
  {
  }

  /** Equal rolls tie the round. */
  lemma TiedRollCase()
    ensures ApplyRoll(TestGame([4], []), Player(Some(2), "opponent"), 4)
         == Success(RollResult(Tie, TestGame([4], [4])))
  {
    assert [] + [4] == [4];
  }
}

/** The listings and the store sequence of the repository's tests, stated against the model. */
module StoreScenarios {
  import opened Wrappers
  import opened Models
  import opened Kv

  /** The listing of two games stored in creation order, for any state filter. */
  lemma ListingOfTwo(chat: ChatId, other: ChatId, g1: GameRecord, g2: GameRecord, states: seq<GameState>)
    requires other != chat
    requires g1.id == 1 && g2.id == 2
    ensures var m := map[GameKey(chat, 1) := g1, GameKey(chat, 2) := g2];
      && ListGamesInChat(m, chat, states)
           == (if g1.state in states then [g1] else []) + (if g2.state in states then [g2] else [])
      && ListGamesInChat(m, other, states) == []
  {
    var m0: map<GameKey, GameRecord> := map[];
    var m1 := m0[GameKey(chat, 1) := g1];
    assert ListGamesInChat(m0, chat, states) == [] && ListGamesInChat(m0, other, states) == [];
    ListAfterCreate(m0, chat, g1, states, other);
    assert ListGamesInChat(m1, chat, states) == (if g1.state in states then [g1] else []) by {
      assert [] + (if g1.state in states then [g1] else []) == (if g1.state in states then [g1] else []);
    }
    assert forall k :: k in m1 ==> k.id < 2;
    ListAfterCreate(m1, chat, g2, states, other);
    assert m1[GameKey(chat, 2) := g2] == map[GameKey(chat, 1) := g1, GameKey(chat, 2) := g2];
  }

  /** The listing of three games stored in creation order, for any state filter. */
  lemma ListingOfThree(chat: ChatId, other: ChatId, g1: GameRecord, g2: GameRecord, g3: GameRecord, states: seq<GameState>)
    requires other != chat
    requires g1.id == 1 && g2.id == 2 && g3.id == 3
    ensures var m := map[GameKey(chat, 1) := g1, GameKey(chat, 2) := g2, GameKey(chat, 3) := g3];
      && ListGamesInChat(m, chat, states)
           == (if g1.state in states then [g1] else [])
            + (if g2.state in states then [g2] else [])
            + (if g3.state in states then [g3] else [])
      && ListGamesInChat(m, other, states) == []
  {
    var m2 := map[GameKey(chat, 1) := g1, GameKey(chat, 2) := g2];
    ListingOfTwo(chat, other, g1, g2, states);
    assert forall k :: k in m2 ==> k.id < 3;
    ListAfterCreate(m2, chat, g3, states, other);
    assert m2[GameKey(chat, 3) := g3] == map[GameKey(chat, 1) := g1, GameKey(chat, 2) := g2, GameKey(chat, 3) := g3];
  }

  /** The in-progress filter of the listing test: the Initiated and the Accepted game, in that order. */
  lemma ActiveListingCase(chat: ChatId, other: ChatId, g1: GameRecord, g2: GameRecord, g3: GameRecord)
    requires other != chat
    requires g1.id == 1 && g2.id == 2 && g3.id == 3
    requires g1.state == Initiated && g2.state == Accepted && g3.state == Finished
    ensures var m := map[GameKey(chat, 1) := g1, GameKey(chat, 2) := g2, GameKey(chat, 3) := g3];
      && ListGamesInChat(m, chat, ActiveStates) == [g1, g2]
      && ListGamesInChat(m, other, ActiveStates) == []
  {
    ListingOfThree(chat, other, g1, g2, g3, ActiveStates);
    assert g1.state in ActiveStates && g2.state in ActiveStates && g3.state !in ActiveStates;
    assert [g1] + [g2] + [] == [g1, g2];
  }

  /** The finished filter of the listing test: only the Finished game. */
  lemma FinishedListingCase(chat: ChatId, other: ChatId, g1: GameRecord, g2: GameRecord, g3: GameRecord)
    requires other != chat
    requires g1.id == 1 && g2.id == 2 && g3.id == 3
    requires g1.state == Initiated && g2.state == Accepted && g3.state == Finished
    ensures var m := map[GameKey(chat, 1) := g1, GameKey(chat, 2) := g2, GameKey(chat, 3) := g3];
      ListGamesInChat(m, chat, [Finished]) == [g3]
  {
    ListingOfThree(chat, other, g1, g2, g3, [Finished]);
    assert g1.state !in [Finished] && g2.state !in [Finished] && g3.state in [Finished];
    assert [] + [] + [g3] == [g3];
  }

  /** A two-state filter keeps the stored order: the Initiated game before the Finished one. */
  lemma MixedListingCase(chat: ChatId, other: ChatId, g1: GameRecord, g2: GameRecord, g3: GameRecord)
    requires other != chat
    requires g1.id == 1 && g2.id == 2 && g3.id == 3
    requires g1.state == Initiated && g2.state == Accepted && g3.state == Finished
    ensures var m := map[GameKey(chat, 1) := g1, GameKey(chat, 2) := g2, GameKey(chat, 3) := g3];
      ListGamesInChat(m, chat, [Initiated, Finished]) == [g1, g3]
  {
    ListingOfThree(chat, other, g1, g2, g3, [Initiated, Finished]);
    assert g1.state in [Initiated, Finished] && g2.state !in [Initiated, Finished];
    assert g3.state in [Initiated, Finished];
    assert [g1] + [] + [g3] == [g1, g3];
  }

  /** The only game of a store is listed under its own state. */
  lemma OnlyGameListed(chat: ChatId, g: GameRecord)
    ensures ListGamesInChat(map[][GameKey(chat, g.id) := g], chat, [g.state]) == [g]
  {
    var empty: map<GameKey, GameRecord> := map[];
    assert ListGamesInChat(empty, chat, [g.state]) == [];
    ListAfterCreate(empty, chat, g, [g.state], chat + 1);
  }

  /**
   * The steps of the DB test in order: a player is created, read back and renamed; a game is
   * created and read back; it is then listed as Initiated, set to Accepted and written back.
   * The accepted record is what the last read returns.
   */
  method DbScenario() returns (updated: Option<GameRecord>)
    ensures updated.Some? && updated.value.state == Accepted
    ensures updated.Some? ==>
      && updated.value.challenger == Player(Some(123), "challenger")
      && updated.value.opponent == Player(Some(456), "opponent")
      && updated.value.winningRounds == 1
  {
    var store := new Store();
    var testuser := Context(Some(Sender(Some(123), Some("testuser"))), None);
    var created := store.GetPlayerFromContext(testuser);
    assert created == Success(Player(Some(123), "testuser"));

    var before := store.GetPlayerFromContext(testuser);
    assert before == Success(Player(Some(123), "testuser"));
    var after := store.GetPlayerFromContext(Context(Some(Sender(Some(123), Some("updateduser"))), None));
    assert after == Success(Player(Some(123), "updateduser"));

    var challenger := Player(Some(123), "challenger");
    var opponent := Player(Some(456), "opponent");
    var result := store.CreateGame(challenger, opponent, 789, 1);
    assert result.Created?;
    var made := result.game;
    assert made.challenger == challenger && made.opponent == opponent;
    assert made.state == Initiated && made.winningRounds == 1;
    var chatCtx := Context(None, Some(789));
    assert store.GetGame(chatCtx, made.id) == Success(Some(made));

    OnlyGameListed(789, made);
    var games := ListGamesInChat(store.games, 789, [Initiated]);
    assert games == [made];
    var game := new Game.FromRecord(games[0]);
    game.state := Accepted;
    var written := store.UpdateGame(chatCtx, game);
    assert written == Success(());
    var read := store.GetGame(chatCtx, game.id);
    updated := read.value;
  }
}
