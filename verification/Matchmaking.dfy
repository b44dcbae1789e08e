/** The ELO matchmaking queue: sort by rating, then group greedily. */
module Matchmaking {
  import opened Collections
  import Decimal

  datatype Player = Player(id: string, rating: real, party: string, region: string)

  datatype Match = Match(id: string, players: seq<Player>)

  /** The queue is keyed by player id. */
  ghost predicate Keyed(queue: map<string, Player>) {
    forall id :: id in queue ==> queue[id].id == id
  }

  function Gap(a: real, b: real): real {
    if a < b then b - a else a - b
  }

  // ---------------------------------------------------------------------
  // What a match is, in terms of the queue alone
  // ---------------------------------------------------------------------

  /** `ids` could be one match: k queued players, every two of them within the tolerance. */
  ghost predicate IsGroup(queue: map<string, Player>, k: int, tolerance: real, ids: set<string>) {
    && ids <= queue.Keys
    && |ids| == k
    && forall a, b :: a in ids && b in ids && a != b ==> Gap(queue[a].rating, queue[b].rating) <= tolerance
  }

  /** `groups` could be the result of one matching round. */
  ghost predicate IsGrouping(queue: map<string, Player>, k: int, tolerance: real, groups: seq<set<string>>) {
    && (forall i :: 0 <= i < |groups| ==> IsGroup(queue, k, tolerance, groups[i]))
    && PairwiseDisjoint(groups)
  }

  function Ids(players: seq<Player>): set<string> {
    if players == [] then {} else Ids(players[..|players| - 1]) + {players[|players| - 1].id}
  }

  lemma {:induction false} IdAt(players: seq<Player>, id: string) returns (x: nat)
    requires id in Ids(players)
    ensures x < |players| && players[x].id == id
  {
    var last := |players| - 1;
    if players[last].id == id {
      x := last;
    } else {
      x := IdAt(players[..last], id);
    }
  }

  function GroupIds(matches: seq<seq<Player>>): (groups: seq<set<string>>)
    ensures |groups| == |matches| && forall m :: 0 <= m < |matches| ==> groups[m] == Ids(matches[m])
  {
    seq(|matches|, m requires 0 <= m < |matches| => Ids(matches[m]))
  }

  // ---------------------------------------------------------------------
  // The greedy rule over a sorted list of ratings
  // ---------------------------------------------------------------------

  ghost predicate Ascending(ratings: seq<real>) {
    forall i, j :: 0 <= i <= j < |ratings| ==> ratings[i] <= ratings[j]
  }

  /** The k players from position i on form a match. */
  predicate Fits(ratings: seq<real>, k: int, tolerance: real, i: nat)
    requires k >= 1
  {
    i + k <= |ratings| && (k == 1 || ratings[i + k - 1] - ratings[i] <= tolerance)
  }

  /** Start positions of the greedy matches from position i on. */
  function Starts(ratings: seq<real>, k: int, tolerance: real, i: nat): seq<nat>
    requires k >= 1
    decreases |ratings| - i
  {
    if i >= |ratings| then []
    else if Fits(ratings, k, tolerance, i) then [i] + Starts(ratings, k, tolerance, i + k)
    else Starts(ratings, k, tolerance, i + 1)
  }

  /** Fitting start positions from i on that leave room for k players each. */
  ghost predicate Spaced(ratings: seq<real>, k: int, tolerance: real, i: nat, starts: seq<nat>)
    requires k >= 1
  {
    && (forall m :: 0 <= m < |starts| ==> i <= starts[m] && Fits(ratings, k, tolerance, starts[m]))
    && (forall m, n :: 0 <= m < n < |starts| ==> starts[m] + k <= starts[n])
  }

  lemma {:induction false} StartsAreSpaced(ratings: seq<real>, k: int, tolerance: real, i: nat)
    requires k >= 1
    ensures Spaced(ratings, k, tolerance, i, Starts(ratings, k, tolerance, i))
    decreases |ratings| - i
  {
    if i < |ratings| {
      StartsAreSpaced(ratings, k, tolerance, if Fits(ratings, k, tolerance, i) then i + k else i + 1);
    }
  }

  // ---------------------------------------------------------------------
  // Families of disjoint groups of positions, and the exchange argument
  // ---------------------------------------------------------------------

  ghost predicate Within(ratings: seq<real>, k: int, tolerance: real, lo: nat, group: set<int>) {
    && (forall x :: x in group ==> lo <= x < |ratings|)
    && |group| == k
    && forall a, b :: a in group && b in group && a < b ==> ratings[b] - ratings[a] <= tolerance
  }

  /** Disjoint groups of k positions, all at or after lo. */
  ghost predicate Family(ratings: seq<real>, k: int, tolerance: real, lo: nat, family: seq<set<int>>) {
    && (forall i :: 0 <= i < |family| ==> Within(ratings, k, tolerance, lo, family[i]))
    && PairwiseDisjoint(family)
  }

  /** k positions from lo on reach at least as far as lo + k - 1. */
  lemma ReachesFar(group: set<int>, k: int, lo: nat) returns (y: int)
    requires |group| == k >= 1
    requires forall x :: x in group ==> lo <= x
    ensures y in group && y >= lo + k - 1
  {
    if forall x :: x in group ==> x < lo + k - 1 {
      SubsetIsSmaller(group, Interval(lo, lo + k - 1));
      assert false;
    }
    y :| y in group && y >= lo + k - 1;
  }

  lemma {:induction false} Highest(group: set<int>) returns (y: int)
    requires group != {}
    ensures y in group && forall x :: x in group ==> x <= y
  {
    var z := Pick(group);
    if group == {z} {
      y := z;
    } else {
      var others := group - {z};
      y := Highest(others);
      assert forall x :: x in group ==> x == z || x in others;
      y := if z > y then z else y;
    }
  }

  /** `low` does not reach further right than `high`. */
  ghost predicate Reaches(high: set<int>, x: int) {
    exists y :: y in high && x <= y
  }

  ghost predicate NoFurther(low: set<int>, high: set<int>) {
    forall x :: x in low ==> Reaches(high, x)
  }

  /** Some group of a family reaches no further right than any other. */
  lemma {:induction false} LowestGroup(family: seq<set<int>>) returns (g: nat)
    requires |family| > 0 && forall i :: 0 <= i < |family| ==> family[i] != {}
    ensures g < |family| && forall i :: 0 <= i < |family| ==> NoFurther(family[g], family[i])
  {
    var last := |family| - 1;
    if last == 0 {
      g := 0;
      assert forall x :: x in family[0] ==> x <= x;
    } else {
      g := LowestGroup(family[..last]);
      assert forall i :: 0 <= i < last ==> family[..last][i] == family[i];
      var top := Highest(family[last]);
      if !NoFurther(family[g], family[last]) {
        var x :| x in family[g] && !Reaches(family[last], x);
        forall i | 0 <= i < |family| ensures NoFurther(family[last], family[i]) {
          forall z | z in family[last] ensures Reaches(family[i], z) {
            if i < last {
              assert NoFurther(family[g], family[i]) && Reaches(family[i], x);
              var y :| y in family[i] && x <= y;
              assert z < x;
            }
          }
        }
        g := last;
      }
    }
  }

  /**
   * One exchange: in a group, a position b inside the greedy block gives way to a position p beyond the
   * block that the group already reaches over.
   */
  lemma Swap(ratings: seq<real>, k: int, tolerance: real, lo: nat, group: set<int>, b: int, p: int)
    requires Ascending(ratings) && Within(ratings, k, tolerance, lo, group)
    requires b in group && p !in group && b < p < |ratings| && Reaches(group, p)
    ensures Within(ratings, k, tolerance, lo, group - {b} + {p})
  {
    var y :| y in group && p <= y;
    var swapped := group - {b} + {p};
    forall a, c | a in swapped && c in swapped && a < c
      ensures ratings[c] - ratings[a] <= tolerance
    {
      if c == p {
        assert a < y && ratings[y] - ratings[a] <= tolerance && ratings[p] <= ratings[y];
      } else if a == p {
        assert b < c && ratings[c] - ratings[b] <= tolerance && ratings[b] <= ratings[p];
      }
    }
  }

  /**
   * All exchanges: positions `rest` of the block [lo, lo + k) that the family may still use are replaced,
   * one by one, by positions of `pool` that lie beyond the block and within every group's reach.
   */
  lemma {:induction false} ClearBlock(ratings: seq<real>, k: int, tolerance: real, lo: nat,
                                      family: seq<set<int>>, rest: set<int>, pool: set<int>)
    returns (cleared: seq<set<int>>)
    requires k >= 1 && Ascending(ratings) && Family(ratings, k, tolerance, lo, family)
    requires forall i, x :: 0 <= i < |family| && x in family[i] ==> x in rest || lo + k <= x
    requires forall x :: x in rest ==> x < lo + k
    requires |rest| <= |pool|
    requires forall p :: p in pool ==> lo + k <= p < |ratings|
    requires forall i :: 0 <= i < |family| ==> family[i] !! pool && NoFurther(pool, family[i])
    ensures |cleared| == |family| && Family(ratings, k, tolerance, lo + k, cleared)
    decreases |rest|
  {
    if rest == {} {
      cleared := family;
      BlockUnused(ratings, k, tolerance, lo, family, rest);
    } else {
      hide Family;
      var b := Pick(rest);
      var p := Pick(pool);
      var next := family;
      if j :| 0 <= j < |family| && b in family[j] {
        assert NoFurther(pool, family[j]);
        next := family[j := family[j] - {b} + {p}];
        SwapKeepsFamily(ratings, k, tolerance, lo, family, j, b, p);
        SwapKeepsReach(family[j], b, p, pool, lo + k);
      }
      forall i | 0 <= i < |next| ensures NoFurther(pool - {p}, next[i]) {
        if next[i] == family[i] {
          assert NoFurther(pool, family[i]);
        }
      }
      cleared := ClearBlock(ratings, k, tolerance, lo, next, rest - {b}, pool - {p});
    }
  }

  /** A family that makes no use of the block is a family beyond it. */
  lemma BlockUnused(ratings: seq<real>, k: int, tolerance: real, lo: nat, family: seq<set<int>>, rest: set<int>)
    requires k >= 1 && Family(ratings, k, tolerance, lo, family) && rest == {}
    requires forall i, x :: 0 <= i < |family| && x in family[i] ==> x in rest || lo + k <= x
    ensures Family(ratings, k, tolerance, lo + k, family)
  {
    forall i | 0 <= i < |family| ensures Within(ratings, k, tolerance, lo + k, family[i]) {
      assert Within(ratings, k, tolerance, lo, family[i]);
      forall x | x in family[i] ensures lo + k <= x {
        assert x in rest || lo + k <= x;
        EmptyHasNothing(rest, x);
      }
    }
  }

  lemma SwapKeepsFamily(ratings: seq<real>, k: int, tolerance: real, lo: nat, family: seq<set<int>>,
                        j: nat, b: int, p: int)
    requires Ascending(ratings) && Family(ratings, k, tolerance, lo, family) && j < |family|
    requires b in family[j] && b < p < |ratings| && Reaches(family[j], p)
    requires forall i :: 0 <= i < |family| ==> p !in family[i]
    ensures Family(ratings, k, tolerance, lo, family[j := family[j] - {b} + {p}])
    ensures forall i :: 0 <= i < |family| && i != j ==> b !in family[i]
  {
    Swap(ratings, k, tolerance, lo, family[j], b, p);
    hide Within;
    hide Ascending;
    hide Reaches;
  }

  lemma SwapKeepsReach(group: set<int>, b: int, p: int, pool: set<int>, edge: int)
    requires NoFurther(pool, group) && b < edge && forall q :: q in pool ==> edge <= q
    ensures NoFurther(pool - {p}, group - {b} + {p})
  {
    forall q | q in pool - {p} ensures Reaches(group - {b} + {p}, q) {
      assert Reaches(group, q);
      var y :| y in group && q <= y;
      assert y in group - {b} + {p};
    }
  }

  lemma WithoutIsFamily(ratings: seq<real>, k: int, tolerance: real, lo: nat, family: seq<set<int>>, g: nat)
    requires g < |family| && Family(ratings, k, tolerance, lo, family)
    ensures Family(ratings, k, tolerance, lo, Without(family, g))
    ensures forall i :: 0 <= i < |family| - 1 ==> Without(family, g)[i] !! family[g]
  {
    forall i | 0 <= i < |family| - 1 ensures Without(family, g)[i] !! family[g] {
      if i < g {
        assert family[i] !! family[g];
      } else {
        assert family[g] !! family[i + 1];
      }
    }
  }

  /** Giving up one group frees the whole block [lo, lo + k) for the greedy match. */
  lemma Exchange(ratings: seq<real>, k: int, tolerance: real, lo: nat, family: seq<set<int>>)
    returns (rest: seq<set<int>>)
    requires k >= 1 && Ascending(ratings) && lo + k <= |ratings|
    requires Family(ratings, k, tolerance, lo, family) && |family| > 0
    ensures |rest| == |family| - 1 && Family(ratings, k, tolerance, lo + k, rest)
  {
    var g := LowestGroup(family);
    var lowest, others, block := family[g], Without(family, g), Interval(lo, lo + k);
    WithoutIsFamily(ratings, k, tolerance, lo, family, g);
    EqualDifferences(block, lowest);
    forall i | 0 <= i < |others| ensures NoFurther(lowest - block, others[i]) {
      assert NoFurther(lowest, others[i]);
    }
    rest := ClearBlock(ratings, k, tolerance, lo, others, block - lowest, lowest - block);
  }

  /** If some group uses position lo, the k positions from lo on are a match too. */
  lemma FirstOfGroupFits(ratings: seq<real>, k: int, tolerance: real, lo: nat, group: set<int>)
    requires k >= 1 && Ascending(ratings) && Within(ratings, k, tolerance, lo, group) && lo in group
    ensures Fits(ratings, k, tolerance, lo)
  {
    var y := ReachesFar(group, k, lo);
    assert ratings[lo + k - 1] <= ratings[y];
    assert y > lo ==> ratings[y] - ratings[lo] <= tolerance;
  }

  /** When the greedy rule skips a position, no group of any family can use it. */
  lemma SkippedIsUseless(ratings: seq<real>, k: int, tolerance: real, lo: nat, family: seq<set<int>>)
    requires k >= 1 && Ascending(ratings) && Family(ratings, k, tolerance, lo, family)
    requires !Fits(ratings, k, tolerance, lo)
    ensures Family(ratings, k, tolerance, lo + 1, family)
  {
    forall i | 0 <= i < |family| ensures Within(ratings, k, tolerance, lo + 1, family[i]) {
      if lo in family[i] {
        FirstOfGroupFits(ratings, k, tolerance, lo, family[i]);
        assert false;
      }
    }
  }

  lemma {:induction false} NoFamilyIsLarger(ratings: seq<real>, k: int, tolerance: real, lo: nat,
                                            family: seq<set<int>>)
    requires k >= 1 && Ascending(ratings) && Family(ratings, k, tolerance, lo, family)
    ensures |family| <= |Starts(ratings, k, tolerance, lo)|
    decreases |ratings| - lo
  {
    if |family| > 0 {
      var y := ReachesFar(family[0], k, lo);
      assert Within(ratings, k, tolerance, lo, family[0]);
      if Fits(ratings, k, tolerance, lo) {
        var rest := Exchange(ratings, k, tolerance, lo, family);
        NoFamilyIsLarger(ratings, k, tolerance, lo + k, rest);
      } else {
        SkippedIsUseless(ratings, k, tolerance, lo, family);
        NoFamilyIsLarger(ratings, k, tolerance, lo + 1, family);
      }
    }
  }

  // ---------------------------------------------------------------------
  // From positions in the sorted list back to queued players
  // ---------------------------------------------------------------------

  /** `sorted` holds every queued player exactly once. */
  ghost predicate Lists(queue: map<string, Player>, sorted: seq<Player>) {
    && (forall i :: 0 <= i < |sorted| ==> sorted[i].id in queue && queue[sorted[i].id] == sorted[i])
    && (forall i, j :: 0 <= i < j < |sorted| ==> sorted[i].id != sorted[j].id)
    && queue.Keys <= Ids(sorted)
  }

  function Ratings(players: seq<Player>): (ratings: seq<real>)
    ensures |ratings| == |players| && forall i :: 0 <= i < |players| ==> ratings[i] == players[i].rating
  {
    seq(|players|, i requires 0 <= i < |players| => players[i].rating)
  }

  function Positions(sorted: seq<Player>, ids: set<string>): set<int> {
    set x | 0 <= x < |sorted| && sorted[x].id in ids
  }

  lemma PositionsSize(queue: map<string, Player>, sorted: seq<Player>, ids: set<string>)
    requires Lists(queue, sorted) && ids <= queue.Keys
    ensures |Positions(sorted, ids)| == |ids|
  {
    var f := map x | x in Positions(sorted, ids) :: sorted[x].id;
    forall id | id in ids ensures id in f.Values {
      var x := IdAt(sorted, id);
      assert x in f && f[x] == id;
    }
    assert f.Keys == Positions(sorted, ids) && f.Values == ids;
    InjectiveSize(f);
  }

  lemma PositionsAreWithin(queue: map<string, Player>, sorted: seq<Player>, k: int, tolerance: real, ids: set<string>)
    requires Lists(queue, sorted) && IsGroup(queue, k, tolerance, ids)
    ensures Within(Ratings(sorted), k, tolerance, 0, Positions(sorted, ids))
  {
    PositionsSize(queue, sorted, ids);
  }

  /**
   * The greedy rule is optimal: no choice of disjoint groups of k compatible players has more groups.
   */
  lemma GreedyIsMaximum(queue: map<string, Player>, sorted: seq<Player>, k: int, tolerance: real,
                        groups: seq<set<string>>)
    requires k >= 1 && Lists(queue, sorted) && Ascending(Ratings(sorted))
    requires IsGrouping(queue, k, tolerance, groups)
    ensures |groups| <= |Starts(Ratings(sorted), k, tolerance, 0)|
  {
    var family := seq(|groups|, i requires 0 <= i < |groups| => Positions(sorted, groups[i]));
    forall i | 0 <= i < |family| ensures Within(Ratings(sorted), k, tolerance, 0, family[i]) {
      PositionsAreWithin(queue, sorted, k, tolerance, groups[i]);
    }
    NoFamilyIsLarger(Ratings(sorted), k, tolerance, 0, family);
  }

  /** The matches the greedy rule makes from position i on; none at all when k <= 0. */
  function GreedyMatches(sorted: seq<Player>, k: int, tolerance: real, i: nat): seq<seq<Player>>
    decreases |sorted| - i
  {
    if k <= 0 || i >= |sorted| then []
    else if Fits(Ratings(sorted), k, tolerance, i) then
      [sorted[i..i + k]] + GreedyMatches(sorted, k, tolerance, i + k)
    else GreedyMatches(sorted, k, tolerance, i + 1)
  }

  /** `matches` are the blocks of k players at the given start positions. */
  ghost predicate Blocks(sorted: seq<Player>, k: int, starts: seq<nat>, matches: seq<seq<Player>>) {
    && |matches| == |starts|
    && forall m :: 0 <= m < |starts| ==>
         0 <= starts[m] + k <= |sorted| && 0 <= k && matches[m] == sorted[starts[m]..starts[m] + k]
  }

  lemma {:induction false} GreedyMatchesAreBlocks(sorted: seq<Player>, k: int, tolerance: real, i: nat)
    requires k >= 1
    ensures Blocks(sorted, k, Starts(Ratings(sorted), k, tolerance, i), GreedyMatches(sorted, k, tolerance, i))
    decreases |sorted| - i
  {
    if i < |sorted| {
      GreedyMatchesAreBlocks(sorted, k, tolerance, if Fits(Ratings(sorted), k, tolerance, i) then i + k else i + 1);
    }
  }

  lemma {:induction false} IdsSize(players: seq<Player>)
    requires forall i, j :: 0 <= i < j < |players| ==> players[i].id != players[j].id
    ensures |Ids(players)| == |players|
  {
    if players != [] {
      var last := |players| - 1;
      IdsSize(players[..last]);
      if players[last].id in Ids(players[..last]) {
        var x := IdAt(players[..last], players[last].id);
        assert false;
      }
    }
  }

  lemma BlockGap(ratings: seq<real>, k: int, tolerance: real, i: nat, x: nat, y: nat)
    requires k >= 1 && Ascending(ratings) && Fits(ratings, k, tolerance, i)
    requires x < k && y < k && x != y
    ensures Gap(ratings[i + x], ratings[i + y]) <= tolerance
  {
    assert ratings[i] <= ratings[i + x] <= ratings[i + k - 1];
    assert ratings[i] <= ratings[i + y] <= ratings[i + k - 1];
  }

  /** One block of k players within the tolerance is a legal group. */
  lemma BlockIsGroup(queue: map<string, Player>, sorted: seq<Player>, k: int, tolerance: real, i: nat)
    requires k >= 1 && Lists(queue, sorted) && Ascending(Ratings(sorted))
    requires Fits(Ratings(sorted), k, tolerance, i)
    ensures IsGroup(queue, k, tolerance, Ids(sorted[i..i + k]))
  {
    var block := sorted[i..i + k];
    IdsSize(block);
    forall id | id in Ids(block) ensures id in queue {
      var x := IdAt(block, id);
      assert block[x] == sorted[i + x];
    }
    forall a, b | a in Ids(block) && b in Ids(block) && a != b
      ensures Gap(queue[a].rating, queue[b].rating) <= tolerance
    {
      var x := IdAt(block, a);
      var y := IdAt(block, b);
      BlockGap(Ratings(sorted), k, tolerance, i, x, y);
      assert block[x] == sorted[i + x] && block[y] == sorted[i + y];
    }
  }

  lemma BlocksAreDisjoint(sorted: seq<Player>, k: nat, i: nat, j: nat)
    requires forall x, y :: 0 <= x < y < |sorted| ==> sorted[x].id != sorted[y].id
    requires i + k <= j && j + k <= |sorted|
    ensures Ids(sorted[i..i + k]) !! Ids(sorted[j..j + k])
  {
    var first, second := sorted[i..i + k], sorted[j..j + k];
    forall id | id in Ids(first) ensures id !in Ids(second) {
      if id in Ids(second) {
        var x := IdAt(first, id);
        var y := IdAt(second, id);
        assert false;
      }
    }
  }

  lemma NthIsGroup(queue: map<string, Player>, sorted: seq<Player>, k: int, tolerance: real,
                   starts: seq<nat>, matches: seq<seq<Player>>, m: nat)
    requires k >= 1 && Lists(queue, sorted) && Ascending(Ratings(sorted))
    requires Spaced(Ratings(sorted), k, tolerance, 0, starts) && Blocks(sorted, k, starts, matches)
    requires m < |matches|
    ensures IsGroup(queue, k, tolerance, Ids(matches[m]))
    ensures |matches[m]| == k && FromQueue(queue, matches[m])
  {
    hide IsGroup;
    hide Ids;
    hide Ascending;
    assert Fits(Ratings(sorted), k, tolerance, starts[m]);
    BlockIsGroup(queue, sorted, k, tolerance, starts[m]);
  }

  lemma NthAndLaterDisjoint(queue: map<string, Player>, sorted: seq<Player>, k: int,
                            starts: seq<nat>, matches: seq<seq<Player>>, m: nat, n: nat)
    requires k >= 1 && Lists(queue, sorted) && Blocks(sorted, k, starts, matches)
    requires m < n < |matches| && starts[m] + k <= starts[n]
    ensures Ids(matches[m]) !! Ids(matches[n])
  {
    BlocksAreDisjoint(sorted, k, starts[m], starts[n]);
  }

  lemma LeftoverExtends(queue: map<string, Player>, k: int, tolerance: real, matches: seq<seq<Player>>,
                        ids: set<string>)
    requires IsGrouping(queue, k, tolerance, GroupIds(matches))
    requires IsGroup(queue - Matched(matches), k, tolerance, ids)
    ensures IsGrouping(queue, k, tolerance, GroupIds(matches) + [ids])
  {
    hide IsGroup;
    hide Ids;
    LeftoverIsGroup(queue, k, tolerance, Matched(matches), ids);
    forall m | 0 <= m < |matches| ensures GroupIds(matches)[m] !! ids {
      MatchedHolds(matches, m);
      assert GroupIds(matches)[m] == Ids(matches[m]);
    }
  }

  lemma LeftoverIsGroup(queue: map<string, Player>, k: int, tolerance: real, gone: set<string>, ids: set<string>)
    requires IsGroup(queue - gone, k, tolerance, ids)
    ensures IsGroup(queue, k, tolerance, ids) && ids !! gone
  {
  }

  /**
   * What a maximum round leaves behind holds no further match: a leftover group would extend the
   * matches already made to a larger grouping.
   */
  lemma NothingLeftToMatch(queue: map<string, Player>, k: int, tolerance: real, matches: seq<seq<Player>>)
    requires IsMaximum(queue, k, tolerance, matches)
    ensures forall ids :: !IsGroup(queue - Matched(matches), k, tolerance, ids)
  {
    var left := queue - Matched(matches);
    forall ids ensures !IsGroup(left, k, tolerance, ids) {
      if IsGroup(left, k, tolerance, ids) {
        LeftoverExtends(queue, k, tolerance, matches, ids);
        assert false;
      }
    }
  }

  /** A second round on what the first one left finds nothing. */
  lemma SecondRoundFindsNothing(queue: map<string, Player>, k: int, tolerance: real, first: seq<seq<Player>>,
                                second: seq<seq<Player>>)
    requires IsMaximum(queue, k, tolerance, first)
    requires IsMaximum(queue - Matched(first), k, tolerance, second)
    ensures second == []
  {
    hide IsMaximum;
    if second != [] {
      var ids := SomeGroup(queue - Matched(first), k, tolerance, second);
      NothingLeftToMatch(queue, k, tolerance, first);
      assert false;
    }
  }

  lemma SomeGroup(queue: map<string, Player>, k: int, tolerance: real, matches: seq<seq<Player>>)
    returns (ids: set<string>)
    requires IsMaximum(queue, k, tolerance, matches) && matches != []
    ensures IsGroup(queue, k, tolerance, ids)
  {
    ids := GroupIds(matches)[0];
  }

  // ---------------------------------------------------------------------
  // The loops of try_match
  // ---------------------------------------------------------------------

  /** Where a player of this rating goes in a list already sorted by rating. */
  method InsertionPoint(sorted: seq<Player>, rating: real) returns (at: nat)
    requires Ascending(Ratings(sorted))
    ensures at <= |sorted|
    ensures forall i :: 0 <= i < at ==> sorted[i].rating <= rating
    ensures forall i :: at <= i < |sorted| ==> rating <= sorted[i].rating
  {
    at := 0;
    while at < |sorted| && sorted[at].rating < rating
      invariant at <= |sorted|
      invariant forall i :: 0 <= i < at ==> sorted[i].rating <= rating
    {
      at := at + 1;
    }
    if at < |sorted| {
      assert forall i :: at <= i < |sorted| ==> Ratings(sorted)[at] <= Ratings(sorted)[i];
    }
  }

  /** The queued players in ascending order of rating; ties and the queue's own order are not fixed. */
  method SortByRating(queue: map<string, Player>) returns (sorted: seq<Player>)
    requires Keyed(queue)
    ensures Lists(queue, sorted) && Ascending(Ratings(sorted))
  {
    hide Lists;
    hide Ascending;
    sorted := [];
    var rest := queue.Keys;
    StartSorting(queue);
    while rest != {}
      invariant rest <= queue.Keys && Lists(queue - rest, sorted) && Ascending(Ratings(sorted))
      decreases rest
    {
      var id :| id in rest;
      var at := InsertionPoint(sorted, queue[id].rating);
      InsertionKeepsOrder(sorted, at, queue[id]);
      InsertionLists(queue, rest, sorted, at, id);
      sorted := sorted[..at] + [queue[id]] + sorted[at..];
      rest := rest - {id};
    }
    assert queue - {} == queue;
  }

  lemma StartSorting(queue: map<string, Player>)
    ensures Lists(queue - queue.Keys, []) && Ascending(Ratings([]))
  {
  }

  /** One more player listed, at any place. */
  lemma InsertionLists(queue: map<string, Player>, rest: set<string>, before: seq<Player>, at: nat, id: string)
    requires Keyed(queue) && id in rest && rest <= queue.Keys && Lists(queue - rest, before) && at <= |before|
    ensures Lists(queue - (rest - {id}), before[..at] + [queue[id]] + before[at..])
  {
    hide Ids;
    InsertionKeepsIds(before, at, queue[id]);
    var after := before[..at] + [queue[id]] + before[at..];
    assert forall i :: 0 <= i < |after| ==>
        after[i] == if i < at then before[i] else if i == at then queue[id] else before[i - 1];
  }

  lemma {:induction false} IdsOfConcat(a: seq<Player>, b: seq<Player>)
    ensures Ids(a + b) == Ids(a) + Ids(b)
  {
    if b == [] {
      assert a + b == a;
    } else {
      assert (a + b)[..|a + b| - 1] == a + b[..|b| - 1];
      IdsOfConcat(a, b[..|b| - 1]);
    }
  }

  lemma InsertionKeepsIds(before: seq<Player>, at: nat, p: Player)
    requires at <= |before|
    ensures Ids(before[..at] + [p] + before[at..]) == Ids(before) + {p.id}
  {
    IdsOfConcat(before[..at] + [p], before[at..]);
    IdsOfConcat(before[..at], [p]);
    IdsOfConcat(before[..at], before[at..]);
    assert before == before[..at] + before[at..];
    assert Ids([p]) == {p.id} by {
      assert [p][..0] == [];
    }
  }

  lemma InsertionKeepsOrder(before: seq<Player>, at: nat, p: Player)
    requires at <= |before| && Ascending(Ratings(before))
    requires forall i :: 0 <= i < at ==> before[i].rating <= p.rating
    requires forall i :: at <= i < |before| ==> p.rating <= before[i].rating
    ensures Ascending(Ratings(before[..at] + [p] + before[at..]))
  {
    var after := before[..at] + [p] + before[at..];
    forall i, j | 0 <= i <= j < |after| ensures Ratings(after)[i] <= Ratings(after)[j] {
      var i', j' := if i < at then i else i - 1, if j < at then j else j - 1;
      if i != at && j != at {
        assert Ratings(before)[i'] <= Ratings(before)[j'];
      }
    }
  }

  /** The nested grouping loops build exactly the greedy matches. */
  method GroupGreedily(sorted: seq<Player>, k: int, tolerance: real) returns (matches: seq<seq<Player>>)
    requires Ascending(Ratings(sorted))
    ensures matches == GreedyMatches(sorted, k, tolerance, 0)
  {
    matches := [];
    var i := 0;
    while i < |sorted|
      invariant 0 <= i
      invariant matches + GreedyMatches(sorted, k, tolerance, i) == GreedyMatches(sorted, k, tolerance, 0)
      decreases |sorted| - i
    {
      var j, group := GroupFrom(sorted, k, tolerance, i);
      if |group| == k {
        matches := matches + [group];
        i := j;
      } else {
        i := i + 1;
      }
    }
  }

  /** The inner loop: collect players from position i while the group is short and the gap allows. */
  method GroupFrom(sorted: seq<Player>, k: int, tolerance: real, i: nat) returns (j: nat, group: seq<Player>)
    requires i < |sorted| && Ascending(Ratings(sorted))
    ensures i < j <= |sorted| && group == sorted[i..j]
    ensures |group| == k <==> k >= 1 && Fits(Ratings(sorted), k, tolerance, i)
  {
    group := [sorted[i]];
    j := i + 1;
    while j < |sorted| && |group| < k && Gap(sorted[j].rating, group[0].rating) <= tolerance
      invariant i < j <= |sorted| && group == sorted[i..j]
      invariant j == i + 1 || (j - i <= k && sorted[j - 1].rating - sorted[i].rating <= tolerance)
    {
      assert Ratings(sorted)[i] <= Ratings(sorted)[j];
      group := group + [sorted[j]];
      j := j + 1;
    }
    assert j < |sorted| ==> Ratings(sorted)[i] <= Ratings(sorted)[j];
    assert j < i + k <= |sorted| ==> Ratings(sorted)[j] <= Ratings(sorted)[i + k - 1];
  }

  // ---------------------------------------------------------------------
  // The instance
  // ---------------------------------------------------------------------

  const UINT64: nat := 0x1_0000_0000_0000_0000

  function MatchId(n: nat): string {
    "match_" + Decimal.Text(n)
  }

  /** The i-th match id an instance hands out: a 64-bit counter that starts at 1. */
  function IssuedId(i: nat): string {
    MatchId((1 + i) % UINT64)
  }

  lemma NextId(n: nat)
    ensures ((1 + n) % UINT64 + 1) % UINT64 == (1 + (n + 1)) % UINT64
  {
  }

  /** The ids handed out so far, and the counter that gives the next one. */
  ghost predicate Numbered(issued: seq<string>, next: nat) {
    next == (1 + |issued|) % UINT64 && forall i :: 0 <= i < |issued| ==> issued[i] == IssuedId(i)
  }

  lemma NumberOneMore(issued: seq<string>, next: nat)
    requires Numbered(issued, next)
    ensures Numbered(issued + [MatchId(next)], (next + 1) % UINT64)
  {
    NextId(|issued|);
  }

  lemma MatchIdInjective(a: nat, b: nat)
    requires MatchId(a) == MatchId(b)
    ensures a == b
  {
    assert MatchId(a)[6..] == Decimal.Text(a) && MatchId(b)[6..] == Decimal.Text(b);
    Decimal.TextInjective(a, b);
  }

  /** Over a whole run, match ids repeat exactly when more than 2^64 have been handed out. */
  lemma IdsDistinctExactly(issued: seq<string>)
    requires forall i :: 0 <= i < |issued| ==> issued[i] == IssuedId(i)
    ensures Distinct(issued) <==> |issued| <= UINT64
  {
    if |issued| > UINT64 {
      assert issued[0] == issued[UINT64];
    } else {
      forall i, j | 0 <= i < j < |issued| ensures issued[i] != issued[j] {
        if issued[i] == issued[j] {
          MatchIdInjective((1 + i) % UINT64, (1 + j) % UINT64);
          assert false;
        }
      }
    }
  }

  class Matchmaker {
    const maxPlayersPerMatch: int
    const ratingTolerance: real
    var queue: map<string, Player>
    var nextMatchId: nat
    ghost var issued: seq<string>

    ghost predicate Valid()
      reads this
    {
      Keyed(queue) && Numbered(issued, nextMatchId)
    }

    constructor (k: int, tolerance: real)
      ensures Valid() && queue == map[] && issued == []
      ensures maxPlayersPerMatch == k && ratingTolerance == tolerance
    {
      maxPlayersPerMatch, ratingTolerance := k, tolerance;
      queue, nextMatchId, issued := map[], 1, [];
    }

    method Enqueue(p: Player)
      requires Valid()
      modifies this`queue
      ensures Valid() && queue == old(queue)[p.id := p]
    {
      queue := queue[p.id := p];
    }

    method Dequeue(id: string) returns (found: bool)
      requires Valid()
      modifies this`queue
      ensures Valid() && found == (id in old(queue)) && queue == old(queue) - {id}
    {
      found := id in queue;
      queue := queue - {id};
    }

    method UpdateRating(id: string, rating: real) returns (found: bool)
      requires Valid()
      modifies this`queue
      ensures Valid() && found == (id in old(queue)) && queue.Keys == old(queue).Keys
      ensures forall other :: other in queue && other != id ==> queue[other] == old(queue)[other]
      ensures found ==> queue[id] == old(queue)[id].(rating := rating)
    {
      found := id in queue;
      if found {
        queue := queue[id := queue[id].(rating := rating)];
      }
    }

    /**
     * One matching round. `memory` tells whether the result array could be allocated; when it could
     * not, nothing changes and nothing is reported.
     */
    method TryMatch(memory: bool) returns (ok: bool, matches: seq<Match>)
      requires Valid()
      modifies this
      ensures Valid()
      ensures !ok ==> !memory && matches == [] && unchanged(this)
      ensures maxPlayersPerMatch <= 0 ==> matches == []
      ensures ok && maxPlayersPerMatch >= 1 ==>
                IsMaximum(old(queue), maxPlayersPerMatch, ratingTolerance, Rosters(matches))
      ensures queue == old(queue) - Matched(Rosters(matches))
      ensures ok && maxPlayersPerMatch >= 1 ==>
                forall ids :: !IsGroup(queue, maxPlayersPerMatch, ratingTolerance, ids)
      ensures issued == old(issued) + MatchIds(matches)
    {
      var sorted := SortByRating(queue);
      var rosters := GroupGreedily(sorted, maxPlayersPerMatch, ratingTolerance);
      if rosters != [] && !memory {
        return false, [];
      }
      if maxPlayersPerMatch >= 1 {
        MatchedWell(queue, sorted, maxPlayersPerMatch, ratingTolerance);
        NothingLeftToMatch(queue, maxPlayersPerMatch, ratingTolerance, rosters);
      }
      ok := true;
      matches := Report(rosters);
    }

    /** The reporting loop: number each match and take its players off the queue. */
    method Report(rosters: seq<seq<Player>>) returns (matches: seq<Match>)
      requires Valid()
      modifies this
      ensures Valid()
      ensures Rosters(matches) == rosters
      ensures queue == old(queue) - Matched(rosters)
      ensures issued == old(issued) + MatchIds(matches)
    {
      hide Numbered;
      hide MatchId;
      hide Ids;
      matches := [];
      for m := 0 to |rosters|
        invariant |matches| == m && Rosters(matches) == rosters[..m]
        invariant Valid() && issued == old(issued) + MatchIds(matches)
        invariant queue == old(queue) - Matched(rosters[..m])
      {
        matches := matches + [Match(MatchId(nextMatchId), rosters[m])];
        NumberOneMore(issued, nextMatchId);
        issued := issued + [MatchId(nextMatchId)];
        nextMatchId := (nextMatchId + 1) % UINT64;
        queue := RemovePlayers(queue, rosters[m]);
        assert rosters[..m + 1][..m] == rosters[..m];
      }
      assert rosters[..|rosters|] == rosters;
    }
  }

  function Rosters(matches: seq<Match>): (r: seq<seq<Player>>)
    ensures |r| == |matches| && forall m :: 0 <= m < |matches| ==> r[m] == matches[m].players
  {
    seq(|matches|, m requires 0 <= m < |matches| => matches[m].players)
  }

  function MatchIds(matches: seq<Match>): (r: seq<string>)
    ensures |r| == |matches| && forall m :: 0 <= m < |matches| ==> r[m] == matches[m].id
  {
    seq(|matches|, m requires 0 <= m < |matches| => matches[m].id)
  }

  /** Every player of every match. */
  function Matched(rosters: seq<seq<Player>>): set<string> {
    if rosters == [] then {} else Matched(rosters[..|rosters| - 1]) + Ids(rosters[|rosters| - 1])
  }

  lemma {:induction false} MatchedHolds(rosters: seq<seq<Player>>, m: nat)
    requires m < |rosters|
    ensures Ids(rosters[m]) <= Matched(rosters)
  {
    if m < |rosters| - 1 {
      MatchedHolds(rosters[..|rosters| - 1], m);
    }
  }

  method RemovePlayers(queue: map<string, Player>, players: seq<Player>) returns (rest: map<string, Player>)
    ensures rest == queue - Ids(players)
  {
    rest := queue;
    for p := 0 to |players|
      invariant rest == queue - Ids(players[..p])
    {
      rest := rest - {players[p].id};
      assert players[..p + 1][..p] == players[..p];
    }
    assert players[..|players|] == players;
  }

  /** The greedy matches are legal, made of queued players, and as many as possible. */
  lemma MatchedWell(queue: map<string, Player>, sorted: seq<Player>, k: int, tolerance: real)
    requires k >= 1 && Lists(queue, sorted) && Ascending(Ratings(sorted))
    ensures IsMaximum(queue, k, tolerance, GreedyMatches(sorted, k, tolerance, 0))
  {
    hide Ids;
    hide IsGroup;
    hide FromQueue;
    hide Lists;
    hide Ascending;
    hide Starts;
    hide GreedyMatches;
    hide Fits;
    var starts, matches := Starts(Ratings(sorted), k, tolerance, 0), GreedyMatches(sorted, k, tolerance, 0);
    StartsAreSpaced(Ratings(sorted), k, tolerance, 0);
    GreedyMatchesAreBlocks(sorted, k, tolerance, 0);
    forall m | 0 <= m < |matches|
      ensures IsGroup(queue, k, tolerance, Ids(matches[m])) && |matches[m]| == k && FromQueue(queue, matches[m])
    {
      NthIsGroup(queue, sorted, k, tolerance, starts, matches, m);
    }
    forall m, n | 0 <= m < n < |matches| ensures Ids(matches[m]) !! Ids(matches[n]) {
      NthAndLaterDisjoint(queue, sorted, k, starts, matches, m, n);
    }
    forall groups | IsGrouping(queue, k, tolerance, groups) ensures |groups| <= |matches| {
      GreedyIsMaximum(queue, sorted, k, tolerance, groups);
    }
  }

  /** `matches` is a legal outcome of a round, and no legal outcome has more matches. */
  ghost predicate IsMaximum(queue: map<string, Player>, k: int, tolerance: real, matches: seq<seq<Player>>) {
    && (forall m :: 0 <= m < |matches| ==> |matches[m]| == k && FromQueue(queue, matches[m]))
    && IsGrouping(queue, k, tolerance, GroupIds(matches))
    && forall groups :: IsGrouping(queue, k, tolerance, groups) ==> |groups| <= |matches|
  }

  ghost predicate FromQueue(queue: map<string, Player>, players: seq<Player>) {
    forall i :: 0 <= i < |players| ==> players[i].id in queue && queue[players[i].id] == players[i]
  }
}
