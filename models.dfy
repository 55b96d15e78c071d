/** The records of the dice duel: players, games, states and roll outcomes. */
module Models {
  import opened Wrappers

  /** Telegram user ids are numbers; the store keys them by their decimal text, an injective rendering. */
  type PlayerId = int
  /** Telegram chat ids, keyed the same way. */
  type ChatId = int
  /** Game ids stand for time-ordered, lexicographically sortable ulids: a totally ordered type. */
  type GameId = nat

  datatype GameState = Initiated | Accepted | Finished

  /** The numeric value of the state in the source's enum; states only ever move to a higher value. */
  function StateRank(s: GameState): nat {
    match s
    case Initiated => 0
    case Accepted => 1
    case Finished => 2
  }

  /** Outcome of one roll; `Loose` keeps the source's spelling of its `loose` member. */
  datatype RollStatus = Invalid | Tie | Win | Loose | Open | Closed

  /** A player; `id` is absent for an opponent named by username before acceptance. */
  datatype Player = Player(id: Option<PlayerId>, username: string)

  /** A game as the store holds it (the serialised value written by a store write). */
  datatype GameRecord = GameRecord(
    id: GameId,
    challenger: Player,
    opponent: Player,
    state: GameState,
    winningRounds: int,
    challengerRolls: seq<int>,
    opponentRolls: seq<int>)

  /** The sender of an update as the chat platform reports it. */
  datatype Sender = Sender(id: Option<int>, username: Option<string>)

  /** The parts of a request context the core reads. */
  datatype Context = Context(from: Option<Sender>, chat: Option<ChatId>)

  /** Errors the source throws (as opposed to outcomes it returns). */
  datatype Error = NoPlayerId | NoChatId | PlayerNotInGame

  /** `ctx.from?.id` when it is truthy: present and not 0. */
  function SenderId(ctx: Context): (r: Option<PlayerId>)
    ensures r.Some? <==> ctx.from.Some? && ctx.from.value.id.Some? && ctx.from.value.id.value != 0
    ensures r.Some? ==> r == ctx.from.value.id
  {
    match ctx.from
    case None => None
    case Some(s) =>
      match s.id
      case None => None
      case Some(n) => if n == 0 then None else Some(n)
  }

  /** `ctx.from.username || ""`: the sender's username, empty when it has none. */
  function SenderUsername(ctx: Context): (r: string)
    ensures ctx.from.Some? && ctx.from.value.username.Some? ==> r == ctx.from.value.username.value
    ensures ctx.from.None? || ctx.from.value.username.None? ==> r == ""
  {
    match ctx.from
    case None => ""
    case Some(s) => s.username.GetOr("")
  }

  /** A game object in memory: handlers read it from the store and update its fields in place. */
  class Game {
    const id: GameId
    var challenger: Player
    var opponent: Player
    var state: GameState
    var winningRounds: int
    var challengerRolls: seq<int>
    var opponentRolls: seq<int>

    /** The value a store write of this object records. */
    function Record(): GameRecord
      reads this
    {
      GameRecord(id, challenger, opponent, state, winningRounds, challengerRolls, opponentRolls)
    }

    /** Deserialises a stored record into a fresh object. */
    constructor FromRecord(r: GameRecord)
      ensures Record() == r
    {
      id := r.id;
      challenger := r.challenger;
      opponent := r.opponent;
      state := r.state;
      winningRounds := r.winningRounds;
      challengerRolls := r.challengerRolls;
      opponentRolls := r.opponentRolls;
    }
  }
}
