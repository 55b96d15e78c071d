/** `acceptGameHandler`: the only transition from Initiated to Accepted. */
module AcceptGame {
  import opened Wrappers
  import opened Models
  import opened Kv

  /** The handler's answers; each refusal leaves the store as it was. */
  datatype AcceptOutcome = NoLongerExists | AlreadyAccepted | AlreadyFinished | NotChallengedPlayer | GameOn

  /** `ctx.from?.username === game.opponent.username`: a missing username never matches. */
  predicate IsChallengedPlayer(ctx: Context, g: GameRecord) {
    ctx.from.Some? && ctx.from.value.username == Some(g.opponent.username)
  }

  /**
   * The guard sequence: existence, then state, then identity. The game may change only when
   * it exists, is Initiated and is addressed to the accepter.
   */
  function Guard(stored: Option<GameRecord>, ctx: Context): (r: AcceptOutcome)
    ensures r == GameOn <==> stored.Some? && stored.value.state == Initiated && IsChallengedPlayer(ctx, stored.value)
    ensures r == NoLongerExists <==> stored.None?
    ensures r == AlreadyAccepted <==> stored.Some? && stored.value.state == Accepted
    ensures r == AlreadyFinished <==> stored.Some? && stored.value.state == Finished
  {
    if stored.None? then NoLongerExists
    else if stored.value.state == Accepted then AlreadyAccepted
    else if stored.value.state == Finished then AlreadyFinished
    else if !IsChallengedPlayer(ctx, stored.value) then NotChallengedPlayer
    else assert stored.value.state == Initiated; GameOn
  }

  /** The stored game after acceptance: the resolved player becomes the opponent. */
  function Accept(g: GameRecord, opponent: Player): GameRecord {
    g.(opponent := opponent, state := Accepted)
  }

  /** Acceptance moves the state forward and touches nothing but the opponent and the state. */
  lemma AcceptIsForwardOnly(g: GameRecord, opponent: Player)
    requires g.state == Initiated
    ensures var a := Accept(g, opponent);
      && StateRank(a.state) > StateRank(g.state)
      && a.id == g.id && a.challenger == g.challenger && a.winningRounds == g.winningRounds
      && a.challengerRolls == g.challengerRolls && a.opponentRolls == g.opponentRolls
  {
  }

  /**
   * The handler: a refusal writes nothing; on `GameOn` the sender is resolved to a player
   * (which writes its record only when it is new or renamed) and the accepted game is
   * written back under its key.
   */
  method AcceptGameHandler(store: Store, ctx: Context, gameId: GameId) returns (r: Result<AcceptOutcome, Error>)
    requires store.Valid()
    modifies store
    ensures store.Valid()
    ensures ctx.chat.None? ==>
      && r == Failure(NoChatId) && store.games == old(store.games) && store.players == old(store.players)
      && store.writes == old(store.writes)
    ensures ctx.chat.Some? ==>
      var key := GameKey(ctx.chat.value, gameId);
      var stored := if key in old(store.games) then Some(old(store.games)[key]) else None;
      var guard := Guard(stored, ctx);
      && (guard != GameOn ==>
            && r == Success(guard) && store.games == old(store.games) && store.players == old(store.players)
            && store.writes == old(store.writes))
      && (guard == GameOn && SenderId(ctx).None? ==>
            && r == Failure(NoPlayerId) && store.games == old(store.games) && store.players == old(store.players)
            && store.writes == old(store.writes))
      && (guard == GameOn && SenderId(ctx).Some? ==>
            var accepter := Player(SenderId(ctx), SenderUsername(ctx));
            && r == Success(GameOn)
            && store.players == old(store.players)[SenderId(ctx).value := accepter]
            && store.games == old(store.games)[key := Accept(stored.value, accepter)]
            && var id := SenderId(ctx).value;
               var upToDate := id in old(store.players) && old(store.players)[id].username == SenderUsername(ctx);
               store.writes == old(store.writes) + (if upToDate then 1 else 2))
  {
    var found := store.GetGame(ctx, gameId);
    if found.Failure? {
      return Failure(found.error);
    }
    var stored := found.value;
    var guard := Guard(stored, ctx);
    if guard != GameOn {
      return Success(guard);
    }
    var resolved := store.GetPlayerFromContext(ctx);
    if resolved.Failure? {
      return Failure(resolved.error);
    }
    var game := new Game.FromRecord(stored.value);
    game.opponent := resolved.value;
    game.state := Accepted;
    var written := store.UpdateGame(ctx, game);
    r := Success(GameOn);
  }
}
