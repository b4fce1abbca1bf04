/**
 * The leaderboards of backend/src/session/leaderboard.ts. Both list the
 * session's players as (address, streak) in map order, sort by streak from
 * highest to lowest with a stable sort (ties keep map order), and the live one
 * keeps only positive streaks and the first `limit` entries.
 */
module Leaderboard {

  import opened Players

  datatype LeaderEntry = LeaderEntry(address: string, streak: nat)

  const DEFAULT_LIMIT: nat := 10

  /** The map step: one entry per player, in map order. */
  function ToEntries(m: PlayerMap): (r: seq<LeaderEntry>)
    ensures |r| == |m|
    ensures forall i :: 0 <= i < |m| ==> r[i] == LeaderEntry(m[i].address, m[i].player.streak)
  {
    if m == [] then [] else [LeaderEntry(m[0].address, m[0].player.streak)] + ToEntries(m[1..])
  }

  function Filter(s: seq<LeaderEntry>, keep: LeaderEntry -> bool): (r: seq<LeaderEntry>)
    ensures |r| <= |s|
  {
    if s == [] then [] else (if keep(s[0]) then [s[0]] else []) + Filter(s[1..], keep)
  }

  /** The filter keeps only entries of its input that pass the test. */
  lemma {:induction false} FilterSubset(s: seq<LeaderEntry>, keep: LeaderEntry -> bool)
    ensures forall e :: e in Filter(s, keep) ==> e in s && keep(e)
  {
    if s != [] {
      FilterSubset(s[1..], keep);
    }
  }

  predicate PositiveStreak(e: LeaderEntry)
  {
    e.streak > 0
  }

  predicate SortedByStreak(s: seq<LeaderEntry>)
  {
    forall i, j :: 0 <= i < j < |s| ==> s[i].streak >= s[j].streak
  }

  /** Inserts `x` after every entry whose streak is at least `x`'s. */
  function Insert(s: seq<LeaderEntry>, x: LeaderEntry): (r: seq<LeaderEntry>)
    ensures |r| == |s| + 1
  {
    if s == [] then [x]
    else if s[0].streak >= x.streak then [s[0]] + Insert(s[1..], x)
    else [x] + s
  }

  lemma {:induction false} InsertPermutes(s: seq<LeaderEntry>, x: LeaderEntry)
    ensures multiset(Insert(s, x)) == multiset(s) + multiset{x}
  {
    if s != [] {
      assert s == [s[0]] + s[1..];
      if s[0].streak >= x.streak {
        InsertPermutes(s[1..], x);
      }
    }
  }

  /** Putting an entry in front of a sorted list whose head it does not trail keeps it sorted. */
  lemma ConsSorted(a: LeaderEntry, r: seq<LeaderEntry>)
    requires SortedByStreak(r) && (r == [] || a.streak >= r[0].streak)
    ensures SortedByStreak([a] + r)
  {
    var t := [a] + r;
    forall i, j | 0 <= i < j < |t| ensures t[i].streak >= t[j].streak {
      if i == 0 {
        assert t[j] == r[j - 1];
        assert r[0].streak >= r[j - 1].streak || j == 1;
      } else {
        assert t[i] == r[i - 1] && t[j] == r[j - 1];
      }
    }
  }

  lemma {:induction false} InsertSorted(s: seq<LeaderEntry>, x: LeaderEntry)
    requires SortedByStreak(s)
    ensures SortedByStreak(Insert(s, x))
  {
    if s == [] {
    } else if s[0].streak >= x.streak {
      var tail := s[1..];
      assert SortedByStreak(tail) by {
        forall i, j | 0 <= i < j < |tail| ensures tail[i].streak >= tail[j].streak {
          assert tail[i] == s[i + 1] && tail[j] == s[j + 1];
        }
      }
      InsertSorted(tail, x);
      var r := Insert(tail, x);
      assert r[0] == x || r[0] == tail[0];
      if r[0] != x {
        assert tail[0] == s[1];
      }
      ConsSorted(s[0], r);
    } else {
      ConsSorted(x, s);
    }
  }

  /**
   * The descending sort by streak. ECMAScript's `Array.prototype.sort` is
   * stable, so entries of equal streak keep their input order: each entry is
   * inserted, in input order, after every equal one.
   */
  function SortByStreak(s: seq<LeaderEntry>): (r: seq<LeaderEntry>)
    ensures SortedByStreak(r)
    ensures multiset(r) == multiset(s)
  {
    if s == [] then []
    else
      var init, last := s[..|s| - 1], s[|s| - 1];
      var sorted := SortByStreak(init);
      assert s == init + [last];
      assert SortedByStreak(Insert(sorted, last)) && multiset(Insert(sorted, last)) == multiset(sorted) + multiset{last} by {
        InsertSorted(sorted, last);
        InsertPermutes(sorted, last);
      }
      Insert(sorted, last)
  }

  function Take(s: seq<LeaderEntry>, n: nat): (r: seq<LeaderEntry>)
    ensures |r| == if |s| <= n then |s| else n
    ensures r == s[..|r|]
  {
    if |s| <= n then s else s[..n]
  }

  /** `buildLeaderboard(session, limit)`. */
  function BuildLeaderboard(players: PlayerMap, limit: nat := DEFAULT_LIMIT): (r: seq<LeaderEntry>)
    ensures |r| <= limit
    ensures forall e :: e in r ==> e.streak > 0 && e in ToEntries(players)
    ensures SortedByStreak(r)
  {
    var positive := Filter(ToEntries(players), PositiveStreak);
    var sorted := SortByStreak(positive);
    var r := Take(sorted, limit);
    assert forall e :: e in r ==> e.streak > 0 && e in ToEntries(players) by {
      forall e | e in r ensures e.streak > 0 && e in ToEntries(players) {
        assert e in sorted;
        assert e in multiset(sorted);
        assert e in positive;
        FilterSubset(ToEntries(players), PositiveStreak);
        assert PositiveStreak(e);
      }
    }
    r
  }

  /** `buildFinalLeaderboard(session)`: every player, sorted. */
  function BuildFinalLeaderboard(players: PlayerMap): (r: seq<LeaderEntry>)
    ensures SortedByStreak(r)
    ensures multiset(r) == multiset(ToEntries(players))
  {
    SortByStreak(ToEntries(players))
  }

  // ---- Stability ---------------------------------------------------------

  /** Insertion into a sorted list lands after the prefix whose streaks are at least `x`'s. */
  lemma {:induction false} InsertSplit(a: seq<LeaderEntry>, b: seq<LeaderEntry>, x: LeaderEntry)
    requires forall i :: 0 <= i < |a| ==> a[i].streak >= x.streak
    requires b == [] || b[0].streak < x.streak
    ensures Insert(a + b, x) == a + [x] + b
  {
    if a == [] {
      assert a + b == b;
      if b != [] {
        assert b == [b[0]] + b[1..];
      }
    } else {
      assert (a + b)[0] == a[0];
      assert (a + b)[1..] == a[1..] + b;
      InsertSplit(a[1..], b, x);
    }
  }

  lemma {:induction false} FilterAppend(s: seq<LeaderEntry>, t: seq<LeaderEntry>, keep: LeaderEntry -> bool)
    ensures Filter(s + t, keep) == Filter(s, keep) + Filter(t, keep)
  {
    if s == [] {
      assert s + t == t;
    } else {
      var u := s + t;
      var head := if keep(s[0]) then [s[0]] else [];
      assert u[0] == s[0] && u[1..] == s[1..] + t;
      assert Filter(u, keep) == head + Filter(s[1..] + t, keep);
      FilterAppend(s[1..], t, keep);
      assert Filter(s, keep) == head + Filter(s[1..], keep);
      assert head + (Filter(s[1..], keep) + Filter(t, keep)) == (head + Filter(s[1..], keep)) + Filter(t, keep);
    }
  }

  /** The first index whose streak is below `x`'s, i.e. where `Insert` puts `x`. */
  function InsertPosition(s: seq<LeaderEntry>, x: LeaderEntry): (k: nat)
    ensures k <= |s|
    ensures forall i :: 0 <= i < k ==> s[i].streak >= x.streak
    ensures k < |s| ==> s[k].streak < x.streak
  {
    if s == [] || s[0].streak < x.streak then 0 else 1 + InsertPosition(s[1..], x)
  }

  /** In a sorted list, everything from the insertion position on is below `x`. */
  lemma BelowFromPosition(s: seq<LeaderEntry>, x: LeaderEntry, k: nat)
    requires SortedByStreak(s) && k == InsertPosition(s, x)
    ensures forall e :: e in s[k..] ==> e.streak < x.streak
  {
    forall e | e in s[k..] ensures e.streak < x.streak {
      var j :| k <= j < |s| && s[j] == e;
      assert s[k].streak >= s[j].streak;
    }
  }

  lemma FilterAround(a: seq<LeaderEntry>, x: LeaderEntry, b: seq<LeaderEntry>, keep: LeaderEntry -> bool)
    ensures Filter(a + [x] + b, keep) == Filter(a, keep) + (if keep(x) then [x] else []) + Filter(b, keep)
  {
    assert a + [x] + b == a + ([x] + b);
    FilterAppend(a, [x] + b, keep);
    FilterAppend([x], b, keep);
    assert [x][0] == x && [x][1..] == [];
    assert Filter([x], keep) == if keep(x) then [x] else [];
  }

  /** Filtering commutes with inserting into a sorted list. */
  lemma FilterInsert(s: seq<LeaderEntry>, x: LeaderEntry, keep: LeaderEntry -> bool)
    requires SortedByStreak(s)
    ensures Filter(Insert(s, x), keep) == if keep(x) then Insert(Filter(s, keep), x) else Filter(s, keep)
  {
    var k := InsertPosition(s, x);
    var a, b := s[..k], s[k..];
    assert s == a + b;
    InsertSplit(a, b, x);
    FilterAround(a, x, b, keep);
    FilterAppend(a, b, keep);
    if keep(x) {
      BelowFromPosition(s, x, k);
      FilterSplitInsert(a, b, x, keep);
    } else {
      assert Filter(a, keep) + [] + Filter(b, keep) == Filter(a, keep) + Filter(b, keep);
    }
  }

  /** Inserting into the filtered halves lands between them. */
  lemma FilterSplitInsert(a: seq<LeaderEntry>, b: seq<LeaderEntry>, x: LeaderEntry, keep: LeaderEntry -> bool)
    requires forall i :: 0 <= i < |a| ==> a[i].streak >= x.streak
    requires forall e :: e in b ==> e.streak < x.streak
    ensures Insert(Filter(a, keep) + Filter(b, keep), x) == Filter(a, keep) + [x] + Filter(b, keep)
  {
    FilterHead(b, keep, x);
    FilterSubset(a, keep);
    var fa := Filter(a, keep);
    forall j | 0 <= j < |fa| ensures fa[j].streak >= x.streak {
      assert fa[j] in fa;
      var i :| 0 <= i < |a| && a[i] == fa[j];
    }
    InsertSplit(fa, Filter(b, keep), x);
  }

  lemma FilterHead(b: seq<LeaderEntry>, keep: LeaderEntry -> bool, x: LeaderEntry)
    requires forall e :: e in b ==> e.streak < x.streak
    ensures Filter(b, keep) == [] || Filter(b, keep)[0].streak < x.streak
  {
    var fb := Filter(b, keep);
    if fb != [] {
      FilterSubset(b, keep);
      assert fb[0] in fb;
    }
  }

  /** Sorting and filtering commute (the sort is stable). */
  lemma {:induction false} FilterSortCommute(s: seq<LeaderEntry>, keep: LeaderEntry -> bool)
    ensures Filter(SortByStreak(s), keep) == SortByStreak(Filter(s, keep))
    decreases |s|
  {
    if s != [] {
      var init, last := s[..|s| - 1], s[|s| - 1];
      assert s == init + [last];
      FilterSortCommute(init, keep);
      FilterInsert(SortByStreak(init), last, keep);
      FilterAppend(init, [last], keep);
      var f := Filter(init, keep);
      if keep(last) {
        assert Filter(s, keep) == f + [last];
        assert (f + [last])[..|f + [last]| - 1] == f;
      } else {
        assert Filter(s, keep) == f + [];
        assert f + [] == f;
      }
    }
  }

  predicate HasStreak(e: LeaderEntry, k: nat)
  {
    e.streak == k
  }

  /** Sorting a list whose entries all share one streak changes nothing. */
  lemma {:induction false} SortEqualStreaks(s: seq<LeaderEntry>, k: nat)
    requires forall e :: e in s ==> e.streak == k
    ensures SortByStreak(s) == s
    decreases |s|
  {
    if s != [] {
      var init, last := s[..|s| - 1], s[|s| - 1];
      assert s == init + [last];
      assert forall e :: e in init ==> e.streak == k by {
        forall e | e in init ensures e.streak == k {
          assert e in s;
        }
      }
      SortEqualStreaks(init, k);
      assert last in s;
      InsertSplit(init, [], last);
      assert init + [] == init;
      assert init + [last] + [] == s;
    }
  }

  /**
   * Stability: the entries with any one streak appear in the sorted list in
   * the same relative order as in the input.
   */
  lemma SortIsStable(s: seq<LeaderEntry>, k: nat)
    ensures Filter(SortByStreak(s), e => HasStreak(e, k)) == Filter(s, e => HasStreak(e, k))
  {
    var keep := e => HasStreak(e, k);
    FilterSortCommute(s, keep);
    FilterSubset(s, keep);
    SortEqualStreaks(Filter(s, keep), k);
  }

  /** The live leaderboard is the first `limit` positive-streak entries of the final one. */
  lemma LeaderboardIsTopOfFinal(players: PlayerMap, limit: nat)
    ensures BuildLeaderboard(players, limit) == Take(Filter(BuildFinalLeaderboard(players), PositiveStreak), limit)
  {
    FilterSortCommute(ToEntries(players), PositiveStreak);
  }

  // ---- The final leaderboard lists every player exactly once --------------

  predicate DistinctEntryAddresses(s: seq<LeaderEntry>)
  {
    forall i, j :: 0 <= i < j < |s| ==> s[i].address != s[j].address
  }

  lemma DistinctAround(a: seq<LeaderEntry>, x: LeaderEntry, b: seq<LeaderEntry>)
    requires DistinctEntryAddresses(a + b)
    requires forall e :: e in a + b ==> e.address != x.address
    ensures DistinctEntryAddresses(a + [x] + b)
  {
    var s, r := a + b, a + [x] + b;
    var k := |a|;
    forall i, j | 0 <= i < j < |r| ensures r[i].address != r[j].address {
      if i == k {
        assert r[j] == s[j - 1];
      } else if j == k {
        assert r[i] == s[i];
      } else if i < k && k < j {
        assert r[i] == s[i] && r[j] == s[j - 1];
      } else if j < k {
        assert r[i] == s[i] && r[j] == s[j];
      } else {
        assert r[i] == s[i - 1] && r[j] == s[j - 1];
      }
    }
  }

  lemma InsertKeepsDistinct(s: seq<LeaderEntry>, x: LeaderEntry)
    requires DistinctEntryAddresses(s)
    requires forall e :: e in s ==> e.address != x.address
    ensures DistinctEntryAddresses(Insert(s, x))
  {
    var k := InsertPosition(s, x);
    assert s == s[..k] + s[k..];
    InsertSplit(s[..k], s[k..], x);
    DistinctAround(s[..k], x, s[k..]);
  }

  lemma {:induction false} SortKeepsDistinct(s: seq<LeaderEntry>)
    requires DistinctEntryAddresses(s)
    ensures DistinctEntryAddresses(SortByStreak(s))
    decreases |s|
  {
    if s != [] {
      var init, last := s[..|s| - 1], s[|s| - 1];
      SortKeepsDistinct(init);
      var sorted := SortByStreak(init);
      forall e | e in sorted ensures e.address != last.address {
        assert e in multiset(init);
        var i :| 0 <= i < |init| && init[i] == e;
        assert s[i] == e;
      }
      InsertKeepsDistinct(sorted, last);
    }
  }

  /**
   * With distinct player addresses, the final leaderboard names every player
   * and nobody else, each exactly once, with that player's streak.
   */
  lemma FinalLeaderboardListsEveryPlayerOnce(players: PlayerMap)
    requires DistinctAddresses(players)
    ensures DistinctEntryAddresses(BuildFinalLeaderboard(players))
    ensures forall a :: (exists j :: 0 <= j < |BuildFinalLeaderboard(players)| && BuildFinalLeaderboard(players)[j].address == a) <==> Has(players, a)
    ensures forall i :: 0 <= i < |players| ==> LeaderEntry(players[i].address, players[i].player.streak) in BuildFinalLeaderboard(players)
  {
    var es := ToEntries(players);
    var final := BuildFinalLeaderboard(players);
    assert DistinctEntryAddresses(es);
    SortKeepsDistinct(es);
    forall i | 0 <= i < |players| ensures LeaderEntry(players[i].address, players[i].player.streak) in final {
      assert es[i] in multiset(es);
    }
    forall a ensures (exists j :: 0 <= j < |final| && final[j].address == a) <==> Has(players, a) {
      if j :| 0 <= j < |final| && final[j].address == a {
        assert final[j] in multiset(es);
        var i :| 0 <= i < |es| && es[i] == final[j];
        assert players[i].address == a;
      }
      if Has(players, a) {
        var i :| 0 <= i < |players| && players[i].address == a;
        assert es[i] in multiset(final);
        var j :| 0 <= j < |final| && final[j] == es[i];
        assert final[j].address == a;
      }
    }
  }
}
