/**
 * Ordered-key listing over the store: the ids of a chat in ascending key order,
 * the state filter of `listGamesInChat`, and the first-match search (`Array.find`).
 */
module Listing {
  import opened Wrappers
  import opened Models

  ghost predicate Increasing(s: seq<GameId>) {
    forall i, j :: 0 <= i < j < |s| ==> s[i] < s[j]
  }

  ghost predicate IdsIncreasing(gs: seq<GameRecord>) {
    forall i, j :: 0 <= i < j < |gs| ==> gs[i].id < gs[j].id
  }

  predicate IsLeast(m: GameId, s: set<GameId>) {
    m in s && forall k :: k in s ==> m <= k
  }

  lemma {:induction false} HasLeast(s: set<GameId>)
    requires s != {}
    ensures exists m :: IsLeast(m, s)
  {
    var x :| x in s;
    if s == {x} {
      assert IsLeast(x, s);
    } else {
      HasLeast(s - {x});
      var m :| IsLeast(m, s - {x});
      var least := if x < m then x else m;
      forall k | k in s
        ensures least <= k
      {
        if k != x {
          assert k in s - {x};
        }
      }
      assert IsLeast(least, s);
    }
  }

  /** The least id of a non-empty set. */
  function Least(s: set<GameId>): (m: GameId)
    requires s != {}
    ensures m in s && forall k :: k in s ==> m <= k
  {
    HasLeast(s);
    var m :| IsLeast(m, s);
    m
  }

  /** The ids of a set in ascending order: the order in which the store enumerates keys. */
  function SortedIds(s: set<GameId>): (r: seq<GameId>)
    ensures Increasing(r)
    ensures forall k :: k in r <==> k in s
    decreases s
  {
    if s == {} then []
    else
      var m := Least(s);
      [m] + SortedIds(s - {m})
  }

  lemma HeadIsLeast(a: seq<GameId>)
    requires Increasing(a) && a != []
    ensures forall k :: k in a ==> a[0] <= k
  {
  }

  /** An ascending enumeration of a set is unique. */
  lemma {:induction false} IncreasingUnique(a: seq<GameId>, b: seq<GameId>)
    requires Increasing(a) && Increasing(b)
    requires forall k :: k in a <==> k in b
    ensures a == b
  {
    assert a != [] ==> a[0] in b;
    assert b != [] ==> b[0] in a;
    if a != [] && b != [] {
      HeadIsLeast(a);
      HeadIsLeast(b);
      assert a[0] == b[0];
      forall k
        ensures k in a[1..] <==> k in b[1..]
      {
        if k in a[1..] {
          assert k in b;
          assert k != b[0];
        }
        if k in b[1..] {
          assert k in a;
          assert k != a[0];
        }
      }
      IncreasingUnique(a[1..], b[1..]);
      assert a == [a[0]] + a[1..];
      assert b == [b[0]] + b[1..];
    }
  }

  /** An id above every existing one is enumerated last. */
  lemma SortedIdsAddGreatest(s: set<GameId>, m: GameId)
    requires forall k :: k in s ==> k < m
    ensures SortedIds(s + {m}) == SortedIds(s) + [m]
  {
    var r := SortedIds(s) + [m];
    assert forall k :: k in r <==> k in s + {m};
    assert Increasing(r) by {
      forall i, j | 0 <= i < j < |r|
        ensures r[i] < r[j]
      {
        if j == |r| - 1 {
          assert r[i] in SortedIds(s);
        }
      }
    }
    IncreasingUnique(SortedIds(s + {m}), r);
  }

  lemma PrefixIdsIncreasing(gs: seq<GameRecord>, n: nat)
    requires n <= |gs| && IdsIncreasing(gs)
    ensures IdsIncreasing(gs[..n])
  {
    forall i, j | 0 <= i < j < n
      ensures gs[..n][i].id < gs[..n][j].id
    {
      assert gs[..n][i] == gs[i] && gs[..n][j] == gs[j];
    }
  }

  lemma AppendIdsIncreasing(a: seq<GameRecord>, b: seq<GameRecord>)
    requires IdsIncreasing(a) && IdsIncreasing(b)
    requires forall x, y :: x in a && y in b ==> x.id < y.id
    ensures IdsIncreasing(a + b)
  {
    forall i, j | 0 <= i < j < |a + b|
      ensures (a + b)[i].id < (a + b)[j].id
    {
      if j < |a| {
        assert (a + b)[i] == a[i] && (a + b)[j] == a[j];
      } else if i >= |a| {
        assert (a + b)[i] == b[i - |a|] && (a + b)[j] == b[j - |a|];
      } else {
        assert (a + b)[i] in a && (a + b)[j] in b;
      }
    }
  }

  /** The records whose state is in `states`, in their order in `gs` (the push loop of `listGamesInChat`). */
  function FilterByState(gs: seq<GameRecord>, states: seq<GameState>): (r: seq<GameRecord>)
    ensures |r| <= |gs|
    ensures forall g :: g in r <==> g in gs && g.state in states
    ensures IdsIncreasing(gs) ==> IdsIncreasing(r)
  {
    if gs == [] then []
    else
      var init := gs[..|gs| - 1];
      var last := gs[|gs| - 1];
      var rest := FilterByState(init, states);
      FilterStep(gs, states, rest);
      rest + (if last.state in states then [last] else [])
  }

  /** One step of `FilterByState`: filtering the last record onto the filtered prefix. */
  lemma FilterStep(gs: seq<GameRecord>, states: seq<GameState>, rest: seq<GameRecord>)
    requires gs != []
    requires |rest| <= |gs| - 1
    requires forall g :: g in rest <==> g in gs[..|gs| - 1] && g.state in states
    requires IdsIncreasing(gs[..|gs| - 1]) ==> IdsIncreasing(rest)
    ensures var r := rest + (if gs[|gs| - 1].state in states then [gs[|gs| - 1]] else []);
      && |r| <= |gs|
      && (forall g :: g in r <==> g in gs && g.state in states)
      && (IdsIncreasing(gs) ==> IdsIncreasing(r))
  {
    var init := gs[..|gs| - 1];
    var last := gs[|gs| - 1];
    assert gs == init + [last];
    var tail := if last.state in states then [last] else [];
    var r := rest + tail;
    forall g
      ensures g in r <==> g in gs && g.state in states
    {
      assert g in gs <==> g in init || g == last;
      assert g in r <==> g in rest || g in tail;
    }
    if IdsIncreasing(gs) {
      PrefixIdsIncreasing(gs, |gs| - 1);
      forall x | x in rest
        ensures x.id < last.id
      {
        var k :| 0 <= k < |init| && init[k] == x;
        assert gs[k] == x;
      }
      AppendIdsIncreasing(rest, tail);
    }
  }

  lemma FilterByStateAppend(gs: seq<GameRecord>, g: GameRecord, states: seq<GameState>)
    ensures FilterByState(gs + [g], states) == FilterByState(gs, states) + (if g.state in states then [g] else [])
  {
    assert (gs + [g])[..|gs|] == gs;
  }

  /** The first element satisfying `p`, as `Array.prototype.find` returns it. */
  function Find<T>(s: seq<T>, p: T -> bool): (r: Option<T>)
    ensures r.None? <==> forall i :: 0 <= i < |s| ==> !p(s[i])
    ensures r.Some? ==> exists i :: 0 <= i < |s| && s[i] == r.value && p(s[i]) && forall j :: 0 <= j < i ==> !p(s[j])
  {
    if s == [] then None
    else if p(s[0]) then Some(s[0])
    else
      var r := Find(s[1..], p);
      assert r.Some? ==> exists i :: 0 <= i < |s| && s[i] == r.value && p(s[i]) && forall j :: 0 <= j < i ==> !p(s[j]) by {
        if r.Some? {
          var i :| 0 <= i < |s[1..]| && s[1..][i] == r.value && p(s[1..][i]) && forall j :: 0 <= j < i ==> !p(s[1..][j]);
          assert s[i + 1] == r.value;
          assert forall j :: 0 <= j < i + 1 ==> !p(s[j]) by {
            forall j | 0 <= j < i + 1 ensures !p(s[j]) {
              if j > 0 { assert s[j] == s[1..][j - 1]; }
            }
          }
        }
      }
      assert r.None? ==> forall i :: 0 <= i < |s| ==> !p(s[i]) by {
        if r.None? {
          forall i | 0 <= i < |s| ensures !p(s[i]) {
            if i > 0 { assert s[i] == s[1..][i - 1]; }
          }
        }
      }
      r
  }
}
