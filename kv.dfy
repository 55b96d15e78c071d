/**
 * The persistence layer: an ordered key-value store holding players under `["players", id]`
 * and games under `["games", chatId, gameId]`, with the repository operations and the roll
 * state machine that write through it.
 */
module Kv {
  import opened Wrappers
  import opened Models
  import opened Scoring
  import opened Listing
  import opened Rolls

  /** The key `["games", chat, id]`. */
  datatype GameKey = GameKey(chat: ChatId, id: GameId)

  /** Outcome of `createGame`: the new game, or the in-progress game that blocks it. */
  datatype CreateGameResult =
    | Created(game: GameRecord)
    | ChallengerHasGame(game: GameRecord)
    | OpponentHasGame(game: GameRecord)

  /** The default state filter of `listGamesInChat`: the games still in progress. */
  const ActiveStates: seq<GameState> := [Initiated, Accepted]

  /** Every game is stored under its own id. */
  ghost predicate WellKeyed(m: map<GameKey, GameRecord>) {
    forall k :: k in m ==> m[k].id == k.id
  }

  /** The ids stored under a chat's key prefix. */
  function ChatIds(m: map<GameKey, GameRecord>, chat: ChatId): set<GameId> {
    set k | k in m && k.chat == chat :: k.id
  }

  /** The records under a chat's key prefix, in ascending key order. */
  function ChatRecords(m: map<GameKey, GameRecord>, chat: ChatId): (r: seq<GameRecord>)
    ensures forall k :: k in m && k.chat == chat ==> m[k] in r
    ensures WellKeyed(m) ==> forall g :: g in r ==> GameKey(chat, g.id) in m && m[GameKey(chat, g.id)] == g
    ensures WellKeyed(m) ==> IdsIncreasing(r)
  {
    var ids := SortedIds(ChatIds(m, chat));
    assert forall i :: 0 <= i < |ids| ==> GameKey(chat, ids[i]) in m by {
      forall i | 0 <= i < |ids| ensures GameKey(chat, ids[i]) in m {
        assert ids[i] in ChatIds(m, chat);
      }
    }
    var r := seq(|ids|, i requires 0 <= i < |ids| => m[GameKey(chat, ids[i])]);
    assert forall k :: k in m && k.chat == chat ==> m[k] in r by {
      forall k | k in m && k.chat == chat ensures m[k] in r {
        assert k.id in ChatIds(m, chat);
        var i :| 0 <= i < |ids| && ids[i] == k.id;
        assert r[i] == m[k];
      }
    }
    r
  }

  /**
   * `listGamesInChat`: exactly the records under the chat's prefix whose state is one of
   * `states`, in ascending key order.
   */
  function ListGamesInChat(m: map<GameKey, GameRecord>, chat: ChatId, states: seq<GameState>): (r: seq<GameRecord>)
    ensures forall k :: k in m && k.chat == chat && m[k].state in states ==> m[k] in r
    ensures forall g :: g in r ==> g.state in states
    ensures WellKeyed(m) ==> forall g :: g in r ==> GameKey(chat, g.id) in m && m[GameKey(chat, g.id)] == g
    ensures WellKeyed(m) ==> IdsIncreasing(r)
    ensures (forall k :: k in m ==> k.chat != chat) ==> r == []
  {
    var all := ChatRecords(m, chat);
    assert (forall k :: k in m ==> k.chat != chat) ==> all == [] by {
      assert (forall k :: k in m ==> k.chat != chat) ==> ChatIds(m, chat) == {};
    }
    FilterByState(all, states)
  }

  /** A game stored under a fresh key above every id of its chat is listed last. */
  lemma ChatRecordsAfterInsert(m: map<GameKey, GameRecord>, chat: ChatId, g: GameRecord)
    requires forall k :: k in m && k.chat == chat ==> k.id < g.id
    ensures ChatRecords(m[GameKey(chat, g.id) := g], chat) == ChatRecords(m, chat) + [g]
  {
    var m' := m[GameKey(chat, g.id) := g];
    assert ChatIds(m', chat) == ChatIds(m, chat) + {g.id};
    SortedIdsAddGreatest(ChatIds(m, chat), g.id);
    var ids := SortedIds(ChatIds(m, chat));
    var ids' := SortedIds(ChatIds(m', chat));
    assert ids' == ids + [g.id];
    var a := ChatRecords(m', chat);
    var b := ChatRecords(m, chat) + [g];
    assert |a| == |b|;
    forall i | 0 <= i < |a|
      ensures a[i] == b[i]
    {
      if i < |ids| {
        assert ids[i] in ChatIds(m, chat);
        assert ids'[i] == ids[i] && ids[i] != g.id;
      }
    }
  }

  /** Storing a game under another chat does not change a chat's records. */
  lemma ChatRecordsOtherChat(m: map<GameKey, GameRecord>, chat: ChatId, k: GameKey, g: GameRecord)
    requires k.chat != chat
    ensures ChatRecords(m[k := g], chat) == ChatRecords(m, chat)
  {
    assert ChatIds(m[k := g], chat) == ChatIds(m, chat);
  }

  /**
   * Listings follow creation order: a game created with an id above every id of its chat
   * appears at the end of every listing whose filter admits its state, and other chats'
   * listings do not change.
   */
  lemma ListAfterCreate(m: map<GameKey, GameRecord>, chat: ChatId, g: GameRecord, states: seq<GameState>, other: ChatId)
    requires forall k :: k in m && k.chat == chat ==> k.id < g.id
    requires other != chat
    ensures ListGamesInChat(m[GameKey(chat, g.id) := g], chat, states)
         == ListGamesInChat(m, chat, states) + (if g.state in states then [g] else [])
    ensures ListGamesInChat(m[GameKey(chat, g.id) := g], other, states) == ListGamesInChat(m, other, states)
  {
    ChatRecordsAfterInsert(m, chat, g);
    FilterByStateAppend(ChatRecords(m, chat), g, states);
    ChatRecordsOtherChat(m, other, GameKey(chat, g.id), g);
  }

  /** The first in-progress game that already has this challenger (ids compared as values). */
  function ChallengerGame(active: seq<GameRecord>, challenger: Player): Option<GameRecord> {
    Find(active, (g: GameRecord) => g.challenger.id == challenger.id)
  }

  /** The first in-progress game whose opponent has this username. */
  function OpponentGame(active: seq<GameRecord>, opponent: Player): Option<GameRecord> {
    Find(active, (g: GameRecord) => g.opponent.username == opponent.username)
  }

  /** The record `createGame` builds for a fresh id. */
  function NewGame(id: GameId, challenger: Player, opponent: Player, winningRounds: int): GameRecord {
    GameRecord(id, challenger, opponent, Initiated, winningRounds, [], [])
  }

  class Store {
    var games: map<GameKey, GameRecord>
    var players: map<PlayerId, Player>
    /** The fresh-id oracle: above every id stored so far, and only ever increased. */
    var nextId: GameId
    /** The number of store writes (`kv.set` calls) made so far. */
    ghost var writes: nat

    ghost predicate Valid()
      reads this
    {
      && WellKeyed(games)
      && (forall k :: k in games ==> k.id < nextId)
      && (forall p :: p in players ==> players[p].id == Some(p))
    }

    constructor ()
      ensures Valid()
      ensures games == map[] && players == map[] && writes == 0
    {
      games := map[];
      players := map[];
      nextId := 0;
      writes := 0;
    }

    /** `getPlayerFromId`: the player stored under `["players", id]`, if any. */
    function GetPlayerFromId(id: PlayerId): (r: Option<Player>)
      reads this
      requires Valid()
      ensures r.Some? <==> id in players
      ensures r.Some? ==> r.value == players[id] && r.value.id == Some(id)
    {
      if id in players then Some(players[id]) else None
    }

    /**
     * `getPlayerFromContext`: resolves the sender to a player, creating the record on first
     * sight and rewriting it when the username changed; an up-to-date record is not written.
     */
    method GetPlayerFromContext(ctx: Context) returns (r: Result<Player, Error>)
      requires Valid()
      modifies this
      ensures Valid()
      ensures games == old(games) && nextId == old(nextId)
      ensures SenderId(ctx).None? ==> r == Failure(NoPlayerId) && players == old(players) && writes == old(writes)
      ensures SenderId(ctx).Some? ==>
        var id, name := SenderId(ctx).value, SenderUsername(ctx);
        var upToDate := id in old(players) && old(players)[id].username == name;
        && r == Success(Player(Some(id), name))
        && players == old(players)[id := Player(Some(id), name)]
        && (upToDate ==> players == old(players) && writes == old(writes))
        && (!upToDate ==> writes == old(writes) + 1)
    {
      var senderId := SenderId(ctx);
      if senderId.None? {
        return Failure(NoPlayerId);
      }
      var userId := senderId.value;
      var username := SenderUsername(ctx);
      var stored := GetPlayerFromId(userId);
      var player: Player;
      if stored.None? {
        player := Player(Some(userId), username);
        players := players[userId := player];
        writes := writes + 1;
      } else if stored.value.username != username {
        player := stored.value.(username := username);
        players := players[userId := player];
        writes := writes + 1;
      } else {
        player := stored.value;
      }
      r := Success(player);
    }

    /**
     * `createGame`: refuses when an Accepted game of the chat already has this challenger,
     * then when one already has an opponent of this username, each time carrying that game
     * and writing nothing; otherwise stores an Initiated game under a fresh id.
     */
    method CreateGame(challenger: Player, opponent: Player, chat: ChatId, winningRounds: int)
      returns (r: CreateGameResult)
      requires Valid()
      modifies this
      ensures Valid()
      ensures players == old(players)
      ensures
        var active := ListGamesInChat(old(games), chat, [Accepted]);
        var byChallenger, byOpponent := ChallengerGame(active, challenger), OpponentGame(active, opponent);
        && (byChallenger.Some? ==>
              && r == ChallengerHasGame(byChallenger.value)
              && games == old(games) && nextId == old(nextId) && writes == old(writes))
        && (byChallenger.None? && byOpponent.Some? ==>
              && r == OpponentHasGame(byOpponent.value)
              && games == old(games) && nextId == old(nextId) && writes == old(writes))
        && (byChallenger.None? && byOpponent.None? ==>
              && r == Created(NewGame(old(nextId), challenger, opponent, winningRounds))
              && GameKey(chat, old(nextId)) !in old(games)
              && (forall k :: k in old(games) ==> k.id < old(nextId))
              && games == old(games)[GameKey(chat, old(nextId)) := r.game]
              && nextId > old(nextId)
              && writes == old(writes) + 1)
    {
      var active := ListGamesInChat(games, chat, [Accepted]);
      var challengerGame := ChallengerGame(active, challenger);
      var opponentGame := OpponentGame(active, opponent);
      if challengerGame.Some? {
        return ChallengerHasGame(challengerGame.value);
      } else if opponentGame.Some? {
        return OpponentHasGame(opponentGame.value);
      }
      var gameId := nextId;
      nextId := nextId + 1;
      var game := NewGame(gameId, challenger, opponent, winningRounds);
      games := games[GameKey(chat, gameId) := game];
      writes := writes + 1;
      r := Created(game);
    }

    /** `getGame`: point lookup of `["games", chat, gameId]`; a missing chat id is an error. */
    function GetGame(ctx: Context, gameId: GameId): (r: Result<Option<GameRecord>, Error>)
      reads this
      requires Valid()
      ensures r.Failure? <==> ctx.chat.None?
      ensures r.Failure? ==> r.error == NoChatId
      ensures r.Success? ==>
        var key := GameKey(ctx.chat.value, gameId);
        && (r.value.Some? <==> key in games)
        && (r.value.Some? ==> r.value.value == games[key] && r.value.value.id == gameId)
    {
      match ctx.chat
      case None => Failure(NoChatId)
      case Some(chat) =>
        var key := GameKey(chat, gameId);
        Success(if key in games then Some(games[key]) else None)
    }

    /** `updateGame`: unconditional overwrite of the whole record at `["games", chat, game.id]`. */
    method UpdateGame(ctx: Context, game: Game) returns (r: Result<(), Error>)
      requires Valid()
      modifies this
      ensures Valid()
      ensures players == old(players) && nextId >= old(nextId)
      ensures ctx.chat.None? ==> r == Failure(NoChatId) && games == old(games) && writes == old(writes)
      ensures ctx.chat.Some? ==>
        && r == Success(())
        && games == old(games)[GameKey(ctx.chat.value, game.id) := game.Record()]
        && writes == old(writes) + 1
    {
      if ctx.chat.None? {
        return Failure(NoChatId);
      }
      games := games[GameKey(ctx.chat.value, game.id) := game.Record()];
      writes := writes + 1;
      if game.id >= nextId {
        // the id oracle stays ahead of every id that is ever stored
        nextId := game.id + 1;
      }
      r := Success(());
    }

    /**
     * `updateGameRoll`: applies one roll to the game object in place and writes it back.
     * The new game and status are those of `ApplyRoll`; a stranger's roll is an error and an
     * out-of-turn roll is `Invalid`, both leaving the game and the store untouched.
     */
    method UpdateGameRoll(ctx: Context, game: Game, player: Player, roll: int) returns (r: Result<RollStatus, Error>)
      requires Valid()
      modifies this, game
      ensures Valid()
      ensures players == old(players)
      ensures
        var spec := ApplyRoll(old(game.Record()), player, roll);
        && (spec.Failure? ==>
              && r == Failure(spec.error) && game.Record() == old(game.Record())
              && games == old(games) && writes == old(writes))
        && (spec.Success? && spec.value.status == Invalid ==>
              && r == Success(Invalid) && game.Record() == old(game.Record())
              && games == old(games) && writes == old(writes))
        && (spec.Success? && spec.value.status != Invalid ==>
              && game.Record() == spec.value.game
              && (ctx.chat.None? ==> r == Failure(NoChatId) && games == old(games) && writes == old(writes))
              && (ctx.chat.Some? ==>
                    && r == Success(spec.value.status)
                    && games == old(games)[GameKey(ctx.chat.value, game.id) := spec.value.game]
                    && writes == old(writes) + 1))
    {
      ghost var before := game.Record();
      var isChallenger := game.challenger.id == player.id;
      var isOpponent := game.opponent.id == player.id;
      if !(isChallenger || isOpponent) {
        return Failure(PlayerNotInGame);
      }
      if || (isChallenger && |game.challengerRolls| > |game.opponentRolls|)
         || (isOpponent && |game.opponentRolls| > |game.challengerRolls|)
      {
        return Success(Invalid);
      }
      var isOpening := |game.challengerRolls| == |game.opponentRolls|;
      var status := Loose;
      if isChallenger {
        game.challengerRolls := game.challengerRolls + [roll];
      } else {
        game.opponentRolls := game.opponentRolls + [roll];
      }
      assert game.Record() == Appended(before, player, roll);
      if isOpening {
        status := Open;
      } else {
        var otherLastRoll := if isChallenger then game.opponentRolls[|game.opponentRolls| - 1]
                             else game.challengerRolls[|game.challengerRolls| - 1];
        var score := DetermineScore(game.challengerRolls, game.opponentRolls);
        if roll == otherLastRoll {
          status := Tie;
        } else if score.challenger == game.winningRounds || score.opponent == game.winningRounds {
          status := Closed;
          game.state := Finished;
        } else if roll > otherLastRoll {
          status := Win;
        }
      }
      assert ApplyRoll(before, player, roll) == Success(RollResult(status, game.Record()));
      var written := UpdateGame(ctx, game);
      if written.Failure? {
        return Failure(written.error);
      }
      r := Success(status);
    }
  }
}
