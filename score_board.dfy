/**
 * `scoreBoardHandler`: one point per finished game to its winner, tallied in an
 * insertion-ordered map, then ranked by points with medal or "(n)" prefixes.
 */
module ScoreBoard {
  import opened Wrappers
  import opened Models
  import opened Scoring
  import opened Kv

  /** One entry of the tally: a player id (absent ids are a key too) and its points. */
  datatype Entry = Entry(player: Option<PlayerId>, points: nat)

  /** One line of the board: its rank prefix, the player and the points. */
  datatype RankLine = RankLine(prefix: string, player: Option<PlayerId>, points: nat)

  /** The player a finished game credits: the challenger on a strictly higher score, otherwise the opponent. */
  function Winner(g: GameRecord): Option<PlayerId> {
    var s := ScoreOf(g.challengerRolls, g.opponentRolls);
    if s.challenger > s.opponent then g.challenger.id else g.opponent.id
  }

  /** The points a tally gives `p`. */
  function PointsOf(t: seq<Entry>, p: Option<PlayerId>): nat {
    if t == [] then 0 else (if t[0].player == p then t[0].points else 0) + PointsOf(t[1..], p)
  }

  /** The points of all entries together. */
  function Total(t: seq<Entry>): nat {
    if t == [] then 0 else t[0].points + Total(t[1..])
  }

  /** The players a tally lists. */
  function Players(t: seq<Entry>): set<Option<PlayerId>> {
    if t == [] then {} else {t[0].player} + Players(t[1..])
  }

  ghost predicate DistinctPlayers(t: seq<Entry>) {
    forall i, j :: 0 <= i < j < |t| ==> t[i].player != t[j].player
  }

  ghost predicate AllPositive(t: seq<Entry>) {
    forall i :: 0 <= i < |t| ==> t[i].points >= 1
  }

  lemma {:induction false} PlayersAt(t: seq<Entry>, p: Option<PlayerId>)
    ensures p in Players(t) <==> exists i :: 0 <= i < |t| && t[i].player == p
  {
    if t != [] {
      PlayersAt(t[1..], p);
      if p in Players(t[1..]) {
        var i :| 0 <= i < |t[1..]| && t[1..][i].player == p;
        assert t[i + 1].player == p;
      }
      if exists i :: 0 <= i < |t| && t[i].player == p {
        var i :| 0 <= i < |t| && t[i].player == p;
        if i > 0 {
          assert t[1..][i - 1].player == p;
        }
      }
    }
  }

  /** A tally is duplicate-free iff its head is not listed again and its tail is duplicate-free. */
  lemma DistinctCons(x: Entry, t: seq<Entry>)
    ensures DistinctPlayers([x] + t) <==> x.player !in Players(t) && DistinctPlayers(t)
  {
    var r := [x] + t;
    PlayersAt(t, x.player);
    if DistinctPlayers(r) {
      forall i, j | 0 <= i < j < |t| ensures t[i].player != t[j].player {
        assert r[i + 1] == t[i] && r[j + 1] == t[j];
      }
      forall i | 0 <= i < |t| ensures t[i].player != x.player {
        assert r[i + 1] == t[i] && r[0] == x;
      }
    }
    if x.player !in Players(t) && DistinctPlayers(t) {
      forall i, j | 0 <= i < j < |r| ensures r[i].player != r[j].player {
        if i == 0 {
          assert r[j] == t[j - 1];
        } else {
          assert r[i] == t[i - 1] && r[j] == t[j - 1];
        }
      }
    }
  }

  /** In a tally of positive entries, a player is listed iff it has points. */
  lemma {:induction false} ListedIffPoints(t: seq<Entry>, p: Option<PlayerId>)
    requires AllPositive(t)
    ensures p in Players(t) <==> PointsOf(t, p) > 0
  {
    if t != [] {
      assert AllPositive(t[1..]) by {
        forall i | 0 <= i < |t[1..]| ensures t[1..][i].points >= 1 {
          assert t[1..][i] == t[i + 1];
        }
      }
      ListedIffPoints(t[1..], p);
    }
  }

  /** A player a tally does not list has no points in it. */
  lemma {:induction false} UnlistedHasNoPoints(t: seq<Entry>, p: Option<PlayerId>)
    requires p !in Players(t)
    ensures PointsOf(t, p) == 0
  {
    if t != [] {
      UnlistedHasNoPoints(t[1..], p);
    }
  }

  /** In a duplicate-free tally, an entry's points are all the points its player has. */
  lemma {:induction false} EntryHoldsPoints(t: seq<Entry>, i: nat)
    requires DistinctPlayers(t) && i < |t|
    ensures PointsOf(t, t[i].player) == t[i].points
  {
    assert t == [t[0]] + t[1..];
    DistinctCons(t[0], t[1..]);
    if i == 0 {
      UnlistedHasNoPoints(t[1..], t[0].player);
    } else {
      assert t[0].player != t[i].player;
      assert t[1..][i - 1] == t[i];
      EntryHoldsPoints(t[1..], i - 1);
    }
  }

  /** `map.set(p, (map.get(p) || 0) + 1)`: an existing entry keeps its place, a new one goes last. */
  function Credit(t: seq<Entry>, p: Option<PlayerId>): seq<Entry> {
    if t == [] then [Entry(p, 1)]
    else if t[0].player == p then [Entry(p, t[0].points + 1)] + t[1..]
    else [t[0]] + Credit(t[1..], p)
  }

  /** Crediting `p` adds one point to `p` and to nobody else. */
  lemma {:induction false} CreditPoints(t: seq<Entry>, p: Option<PlayerId>, q: Option<PlayerId>)
    ensures PointsOf(Credit(t, p), q) == PointsOf(t, q) + (if q == p then 1 else 0)
    ensures Total(Credit(t, p)) == Total(t) + 1
  {
    if t != [] {
      var r := Credit(t, p);
      if t[0].player == p {
        assert r[1..] == t[1..];
      } else {
        assert r[1..] == Credit(t[1..], p);
        CreditPoints(t[1..], p, q);
      }
    }
  }

  lemma {:induction false} CreditPlayers(t: seq<Entry>, p: Option<PlayerId>)
    ensures Players(Credit(t, p)) == Players(t) + {p}
  {
    if t != [] && t[0].player != p {
      CreditPlayers(t[1..], p);
    }
  }

  lemma {:induction false} CreditDistinct(t: seq<Entry>, p: Option<PlayerId>)
    requires DistinctPlayers(t)
    ensures DistinctPlayers(Credit(t, p))
  {
    if t != [] {
      var r := Credit(t, p);
      assert t == [t[0]] + t[1..];
      DistinctCons(t[0], t[1..]);
      if t[0].player == p {
        assert r == [r[0]] + t[1..];
        DistinctCons(r[0], t[1..]);
      } else {
        CreditDistinct(t[1..], p);
        CreditPlayers(t[1..], p);
        assert r == [t[0]] + Credit(t[1..], p);
        DistinctCons(t[0], Credit(t[1..], p));
      }
    }
  }

  lemma {:induction false} CreditPositive(t: seq<Entry>, p: Option<PlayerId>)
    requires AllPositive(t)
    ensures AllPositive(Credit(t, p))
  {
    if t != [] && t[0].player != p {
      var r := Credit(t, p);
      assert AllPositive(t[1..]) by {
        forall i | 0 <= i < |t[1..]| ensures t[1..][i].points >= 1 {
          assert t[1..][i] == t[i + 1];
        }
      }
      CreditPositive(t[1..], p);
      forall i | 0 <= i < |r| ensures r[i].points >= 1 {
        if i > 0 {
          assert r[i] == Credit(t[1..], p)[i - 1];
        }
      }
    }
  }

  /** Crediting lists `p` once and keeps every entry positive. */
  lemma {:induction false} CreditShape(t: seq<Entry>, p: Option<PlayerId>)
    ensures Players(Credit(t, p)) == Players(t) + {p}
    ensures DistinctPlayers(t) ==> DistinctPlayers(Credit(t, p))
    ensures AllPositive(t) ==> AllPositive(Credit(t, p))
  {
    CreditPlayers(t, p);
    if DistinctPlayers(t) {
      CreditDistinct(t, p);
    }
    if AllPositive(t) {
      CreditPositive(t, p);
    }
  }

  /** The tally after the loop over `games`, crediting each game's winner in order. */
  function TallyOf(games: seq<GameRecord>): seq<Entry> {
    if games == [] then []
    else Credit(TallyOf(games[..|games| - 1]), Winner(games[|games| - 1]))
  }

  /** The positions of the games that credit `p`: the independent count of its points. */
  function GamesWonBy(games: seq<GameRecord>, p: Option<PlayerId>): set<nat> {
    set i: nat | i < |games| && Winner(games[i]) == p
  }

  lemma GamesWonByLast(games: seq<GameRecord>, p: Option<PlayerId>)
    requires games != []
    ensures var n := |games| - 1;
      GamesWonBy(games, p) == GamesWonBy(games[..n], p) + (if Winner(games[n]) == p then {n} else {})
  {
    var n := |games| - 1;
    forall i: nat | i < n ensures games[..n][i] == games[i] {}
  }

  /** The tally gives every player exactly one point per finished game it won. */
  lemma {:induction false} TallyPoints(games: seq<GameRecord>, p: Option<PlayerId>)
    ensures PointsOf(TallyOf(games), p) == |GamesWonBy(games, p)|
  {
    if games != [] {
      var n := |games| - 1;
      TallyPoints(games[..n], p);
      CreditPoints(TallyOf(games[..n]), Winner(games[n]), p);
      GamesWonByLast(games, p);
      assert n !in GamesWonBy(games[..n], p);
    }
  }

  /**
   * The tally's points add up to the number of finished games, every entry has at least
   * one point and no player is listed twice.
   */
  lemma {:induction false} TallyShape(games: seq<GameRecord>)
    ensures Total(TallyOf(games)) == |games|
    ensures DistinctPlayers(TallyOf(games)) && AllPositive(TallyOf(games))
  {
    if games != [] {
      var n := |games| - 1;
      TallyShape(games[..n]);
      CreditPoints(TallyOf(games[..n]), Winner(games[n]), None);
      CreditShape(TallyOf(games[..n]), Winner(games[n]));
    }
  }

  /** A player is listed iff it won at least one finished game, so never with zero points. */
  lemma TallyListsWinners(games: seq<GameRecord>, p: Option<PlayerId>)
    ensures p in Players(TallyOf(games)) <==> |GamesWonBy(games, p)| > 0
  {
    TallyShape(games);
    TallyPoints(games, p);
    ListedIffPoints(TallyOf(games), p);
  }

  /** The tally loop of the handler. */
  method Tally(finishedGames: seq<GameRecord>) returns (t: seq<Entry>)
    ensures t == TallyOf(finishedGames)
  {
    t := [];
    for i := 0 to |finishedGames|
      invariant t == TallyOf(finishedGames[..i])
    {
      var game := finishedGames[i];
      var score := DetermineScore(game.challengerRolls, game.opponentRolls);
      if score.challenger > score.opponent {
        t := Credit(t, game.challenger.id);
      } else {
        t := Credit(t, game.opponent.id);
      }
      assert finishedGames[..i + 1][..i] == finishedGames[..i];
    }
    assert finishedGames[..|finishedGames|] == finishedGames;
  }

  ghost predicate NonIncreasing(t: seq<Entry>) {
    forall i, j :: 0 <= i < j < |t| ==> t[i].points >= t[j].points
  }

  /** Places `e` before the first entry that has no more points than it (so ties keep their order). */
  function InsertByPoints(e: Entry, s: seq<Entry>): (r: seq<Entry>)
    ensures multiset(r) == multiset(s) + multiset{e}
  {
    if s == [] then [e]
    else if s[0].points <= e.points then [e] + s
    else
      assert s == [s[0]] + s[1..];
      [s[0]] + InsertByPoints(e, s[1..])
  }

  ghost predicate AtMost(t: seq<Entry>, bound: nat) {
    forall i :: 0 <= i < |t| ==> t[i].points <= bound
  }

  lemma {:induction false} InsertAtMost(e: Entry, s: seq<Entry>, bound: nat)
    requires AtMost(s, bound) && e.points <= bound
    ensures AtMost(InsertByPoints(e, s), bound)
  {
    if s != [] && s[0].points > e.points {
      assert AtMost(s[1..], bound) by {
        forall i | 0 <= i < |s[1..]| ensures s[1..][i].points <= bound {
          assert s[1..][i] == s[i + 1];
        }
      }
      InsertAtMost(e, s[1..], bound);
    }
  }

  /** Inserting keeps the entries ordered by non-increasing points. */
  lemma {:induction false} InsertKeepsOrder(e: Entry, s: seq<Entry>)
    requires NonIncreasing(s)
    ensures NonIncreasing(InsertByPoints(e, s))
  {
    if s != [] && s[0].points > e.points {
      var r := InsertByPoints(e, s);
      var rest := InsertByPoints(e, s[1..]);
      assert NonIncreasing(s[1..]) by {
        forall i, j | 0 <= i < j < |s[1..]| ensures s[1..][i].points >= s[1..][j].points {
          assert s[1..][i] == s[i + 1] && s[1..][j] == s[j + 1];
        }
      }
      InsertKeepsOrder(e, s[1..]);
      assert AtMost(s[1..], s[0].points) by {
        forall i | 0 <= i < |s[1..]| ensures s[1..][i].points <= s[0].points {
          assert s[1..][i] == s[i + 1];
        }
      }
      InsertAtMost(e, s[1..], s[0].points);
      assert r == [s[0]] + rest;
      forall i, j | 0 <= i < j < |r| ensures r[i].points >= r[j].points {
        assert r[j] == rest[j - 1];
        if i > 0 {
          assert r[i] == rest[i - 1];
        }
      }
    }
  }

  /** Inserting adds the entry's points and its player. */
  lemma {:induction false} InsertKeepsTotal(e: Entry, s: seq<Entry>)
    ensures Total(InsertByPoints(e, s)) == Total(s) + e.points
    ensures Players(InsertByPoints(e, s)) == Players(s) + {e.player}
  {
    if s != [] && s[0].points > e.points {
      InsertKeepsTotal(e, s[1..]);
    }
  }

  /** Inserting an entry for a player not yet listed keeps the players distinct. */
  lemma {:induction false} InsertKeepsDistinct(e: Entry, s: seq<Entry>)
    requires DistinctPlayers(s) && e.player !in Players(s)
    ensures DistinctPlayers(InsertByPoints(e, s))
  {
    if s == [] {
    } else if s[0].points <= e.points {
      DistinctCons(e, s);
    } else {
      var rest := InsertByPoints(e, s[1..]);
      assert s == [s[0]] + s[1..];
      DistinctCons(s[0], s[1..]);
      InsertKeepsDistinct(e, s[1..]);
      InsertKeepsTotal(e, s[1..]);
      DistinctCons(s[0], rest);
    }
  }

  /** The sort of the tally entries by points, highest first (a stable insertion sort). */
  function RankByPoints(t: seq<Entry>): (r: seq<Entry>)
    ensures multiset(r) == multiset(t)
  {
    if t == [] then []
    else
      assert t == [t[0]] + t[1..];
      InsertByPoints(t[0], RankByPoints(t[1..]))
  }

  /** The ranking is ordered by non-increasing points and keeps the total and the players. */
  lemma {:induction false} RankKeepsOrder(t: seq<Entry>)
    ensures NonIncreasing(RankByPoints(t))
    ensures Total(RankByPoints(t)) == Total(t)
    ensures Players(RankByPoints(t)) == Players(t)
  {
    if t != [] {
      RankKeepsOrder(t[1..]);
      InsertKeepsOrder(t[0], RankByPoints(t[1..]));
      InsertKeepsTotal(t[0], RankByPoints(t[1..]));
    }
  }

  /** The ranking keeps a positive, duplicate-free tally positive and duplicate-free. */
  lemma {:induction false} RankKeepsDistinct(t: seq<Entry>)
    requires DistinctPlayers(t) && AllPositive(t)
    ensures DistinctPlayers(RankByPoints(t)) && AllPositive(RankByPoints(t))
  {
    if t != [] {
      assert t == [t[0]] + t[1..];
      DistinctCons(t[0], t[1..]);
      assert AllPositive(t[1..]) by {
        forall i | 0 <= i < |t[1..]| ensures t[1..][i].points >= 1 {
          assert t[1..][i] == t[i + 1];
        }
      }
      RankKeepsDistinct(t[1..]);
      RankKeepsOrder(t[1..]);
      InsertKeepsDistinct(t[0], RankByPoints(t[1..]));
      var r := RankByPoints(t);
      forall i | 0 <= i < |r| ensures r[i].points >= 1 {
        assert r[i] in multiset(t);
        var k :| 0 <= k < |t| && t[k] == r[i];
      }
    }
  }

  function Digit(d: nat): char
    requires d < 10
  {
    ('0' as int + d) as char
  }

  /** The decimal text of a number, as `toString` renders it. */
  function Decimal(n: nat): (s: string)
    ensures |s| >= 1
    ensures forall i :: 0 <= i < |s| ==> '0' <= s[i] <= '9'
  {
    if n < 10 then [Digit(n)] else Decimal(n / 10) + [Digit(n % 10)]
  }

  /** Reads decimal text back into a number. */
  function ParseDecimal(s: string): nat
    requires forall i :: 0 <= i < |s| ==> '0' <= s[i] <= '9'
  {
    if s == [] then 0
    else ParseDecimal(s[..|s| - 1]) * 10 + (s[|s| - 1] as int - '0' as int)
  }

  lemma {:induction false} DecimalRoundTrip(n: nat)
    ensures ParseDecimal(Decimal(n)) == n
  {
    if n >= 10 {
      DecimalRoundTrip(n / 10);
      var s := Decimal(n);
      assert s[..|s| - 1] == Decimal(n / 10);
    }
  }

  /** The label of the line at `index`: three medals, then "(4)", "(5)", ... */
  function RankPrefix(index: nat): string {
    if index == 0 then "\U{1F947}"
    else if index == 1 then "\U{1F948}"
    else if index == 2 then "\U{1F949}"
    else "(" + Decimal(index + 1) + ")"
  }

  /** A numbered label is `(`, the decimal text of the 1-based position, then `)`. */
  lemma NumberedPrefix(i: nat)
    requires i >= 3
    ensures var s := RankPrefix(i); |s| >= 3 && s[0] == '(' && ParseDecimal(s[1..|s| - 1]) == i + 1
  {
    assert RankPrefix(i)[1..|RankPrefix(i)| - 1] == Decimal(i + 1);
    DecimalRoundTrip(i + 1);
  }

  /** No two lines of the board share a label; lines after the medals are numbered from 4. */
  lemma RankPrefixInjective(i: nat, j: nat)
    requires i != j
    ensures RankPrefix(i) != RankPrefix(j)
    ensures i >= 3 ==> RankPrefix(i)[0] == '(' && ParseDecimal(RankPrefix(i)[1..|RankPrefix(i)| - 1]) == i + 1
  {
    if i >= 3 {
      NumberedPrefix(i);
    }
    if j >= 3 {
      NumberedPrefix(j);
    }
    if i >= 3 && j < 3 {
      assert RankPrefix(j)[0] != '(';
    } else if j >= 3 && i < 3 {
      assert RankPrefix(i)[0] != '(';
    }
  }

  /** The board's lines for a ranking. */
  function Lines(ranked: seq<Entry>): seq<RankLine> {
    seq(|ranked|, i requires 0 <= i < |ranked| => RankLine(RankPrefix(i), ranked[i].player, ranked[i].points))
  }

  /** The board a tally of finished games yields. */
  function Board(finishedGames: seq<GameRecord>): seq<RankLine> {
    Lines(RankByPoints(TallyOf(finishedGames)))
  }

  /**
   * The board's points add up to the number of finished games; every line has at least one
   * point, names a distinct player, and lines are ordered by non-increasing points.
   */
  lemma BoardShape(finishedGames: seq<GameRecord>)
    ensures var b := Board(finishedGames);
      && (forall i :: 0 <= i < |b| ==> b[i].points >= 1)
      && (forall i, j :: 0 <= i < j < |b| ==> b[i].points >= b[j].points)
      && (forall i, j :: 0 <= i < j < |b| ==> b[i].player != b[j].player)
      && Total(RankByPoints(TallyOf(finishedGames))) == |finishedGames|
  {
    TallyShape(finishedGames);
    RankKeepsOrder(TallyOf(finishedGames));
    RankKeepsDistinct(TallyOf(finishedGames));
  }

  /** Each board line shows exactly the number of finished games its player won. */
  lemma BoardPoints(finishedGames: seq<GameRecord>)
    ensures var b := Board(finishedGames);
      forall i :: 0 <= i < |b| ==> b[i].points == |GamesWonBy(finishedGames, b[i].player)|
  {
    var t := TallyOf(finishedGames);
    var ranked := RankByPoints(t);
    var b := Board(finishedGames);
    TallyShape(finishedGames);
    forall i | 0 <= i < |b|
      ensures b[i].points == |GamesWonBy(finishedGames, b[i].player)|
    {
      assert b[i].player == ranked[i].player && b[i].points == ranked[i].points;
      assert ranked[i] in multiset(t) by {
        assert ranked[i] in multiset(ranked);
      }
      var j :| 0 <= j < |t| && t[j] == ranked[i];
      EntryHoldsPoints(t, j);
      TallyPoints(finishedGames, t[j].player);
    }
  }

  /**
   * The handler without its name lookups and message text: the board of the chat's
   * finished games, or an error when the context has no chat.
   */
  method ScoreBoardHandler(store: Store, ctx: Context) returns (r: Result<seq<RankLine>, Error>)
    requires store.Valid()
    ensures ctx.chat.None? ==> r == Failure(NoChatId)
    ensures ctx.chat.Some? ==> r == Success(Board(ListGamesInChat(store.games, ctx.chat.value, [Finished])))
  {
    if ctx.chat.None? {
      return Failure(NoChatId);
    }
    var finishedGames := ListGamesInChat(store.games, ctx.chat.value, [Finished]);
    var tally := Tally(finishedGames);
    var ranked := RankByPoints(tally);
    r := Success(Lines(ranked));
  }
}
