/** The optimiser's penalty: cross-run history of group visits and of shared pairs, triples
    and quadruples, plus a lightly weighted club-clustering term over the halves and
    quarters of the knockout bracket. */
module Penalty {
  import opened Common
  import opened Bracket
  import opened Combos
  import opened DrawRules

  /** A sorted tuple of player names, kept as its multiset (the same key). */
  type Key = multiset<Name>

  /** The history counters the score reads: `visits[p][g]` is how often player p was in
      group g; `pairs`, `triples`, `quads` count how often a sorted 2-, 3- or 4-tuple of
      players shared a group (missing keys count 0). */
  datatype Counters = Counters(visits: map<Name, seq<nat>>, pairs: map<Key, nat>,
                               triples: map<Key, nat>, quads: map<Key, nat>)

  /** Every placed player has a row of visit counts, one per group. */
  predicate Covers(a: Assignment, visits: map<Name, seq<nat>>)
  {
    forall g, i :: 0 <= g < |a| && 0 <= i < |a[g]| ==> a[g][i] in visits && |visits[a[g][i]]| == NGroups
  }

  /** What `score` needs of its input: at most 11 groups, and every player known to the
      club map and to the visit history. */
  predicate Scorable(a: Assignment, clubs: map<Name, Club>, visits: map<Name, seq<nat>>)
  {
    |a| <= NGroups && Placed(a, clubs) && Covers(a, visits)
  }

  lemma ScorablePrefix(a: Assignment, clubs: map<Name, Club>, visits: map<Name, seq<nat>>, n: nat)
    requires Scorable(a, clubs, visits) && n <= |a|
    ensures Scorable(a[..n], clubs, visits)
  {
    assert forall g :: 0 <= g < n ==> a[..n][g] == a[g];
  }

  // ---------------------------------------------------------------------------
  // A: how often each player has already been in its group

  function GroupVisits(group: seq<Name>, g: nat, visits: map<Name, seq<nat>>): nat
    requires g < NGroups
    requires forall i :: 0 <= i < |group| ==> group[i] in visits && |visits[group[i]]| == NGroups
  {
    if group == [] then 0
    else GroupVisits(group[..|group| - 1], g, visits) + visits[group[|group| - 1]][g]
  }

  function VisitTerm(a: Assignment, visits: map<Name, seq<nat>>): nat
    requires |a| <= NGroups && Covers(a, visits)
  {
    if a == [] then 0
    else
      assert forall g :: 0 <= g < |a| - 1 ==> a[..|a| - 1][g] == a[g];
      VisitTerm(a[..|a| - 1], visits) + GroupVisits(a[|a| - 1], |a| - 1, visits)
  }

  // ---------------------------------------------------------------------------
  // B, C, D: shared pairs (squared), triples, quadruples (halved)

  /** Sum of the squared counts of the keys (missing keys count 0). */
  function SquareSum(ks: seq<Key>, m: map<Key, nat>): nat
  {
    if ks == [] then 0 else SquareSum(ks[..|ks| - 1], m) + Get(m, ks[|ks| - 1]) * Get(m, ks[|ks| - 1])
  }

  /** Sum of the counts of the keys. */
  function KeySum(ks: seq<Key>, m: map<Key, nat>): nat
  {
    if ks == [] then 0 else KeySum(ks[..|ks| - 1], m) + Get(m, ks[|ks| - 1])
  }

  /** Sum of the halved counts of the keys. */
  function HalfSum(ks: seq<Key>, m: map<Key, nat>): real
  {
    if ks == [] then 0.0 else HalfSum(ks[..|ks| - 1], m) + Get(m, ks[|ks| - 1]) as real / 2.0
  }

  /** One group's share of the co-occurrence penalty, in the order `score` adds it. */
  function GroupHistory(group: seq<Name>, c: Counters): real
  {
    (SquareSum(Combinations(group, 2), c.pairs) + KeySum(Combinations(group, 3), c.triples)) as real
    + HalfSum(Combinations(group, 4), c.quads)
  }

  function HistoryTerm(a: Assignment, c: Counters): real
  {
    if a == [] then 0.0 else HistoryTerm(a[..|a| - 1], c) + GroupHistory(a[|a| - 1], c)
  }

  // ---------------------------------------------------------------------------
  // E, F: club clustering in the halves and quarters of the bracket

  /** Pairs every player of `group` with the bracket section `l` of its group. */
  function Tag<L>(group: seq<Name>, clubs: map<Name, Club>, l: L): (r: seq<(Club, L)>)
    requires forall i :: 0 <= i < |group| ==> group[i] in clubs
    ensures |r| == |group| && forall i :: 0 <= i < |r| ==> r[i] == (clubs[group[i]], l)
  {
    if group == [] then [] else [(clubs[group[0]], l)] + Tag(group[1..], clubs, l)
  }

  /** (club, half) of every placed player, group by group. */
  function HalfLabels(a: Assignment, clubs: map<Name, Club>): (r: seq<(Club, Half)>)
    requires |a| <= NGroups && Placed(a, clubs)
  {
    if a == [] then []
    else
      assert forall g :: 0 <= g < |a| - 1 ==> a[..|a| - 1][g] == a[g];
      HalfLabels(a[..|a| - 1], clubs) + Tag(a[|a| - 1], clubs, HalfOfGroup(|a| - 1))
  }

  /** (club, quarter) of every placed player, group by group. */
  function QuarterLabels(a: Assignment, clubs: map<Name, Club>): (r: seq<(Club, Option<Quarter>)>)
    requires |a| <= NGroups && Placed(a, clubs)
  {
    if a == [] then []
    else
      assert forall g :: 0 <= g < |a| - 1 ==> a[..|a| - 1][g] == a[g];
      QuarterLabels(a[..|a| - 1], clubs) + Tag(a[|a| - 1], clubs, QuarterOfGroup(|a| - 1))
  }

  /** The distinct labels in order of first occurrence (the keys of a Counter). */
  function Distinct<T(==)>(s: seq<T>): seq<T>
  {
    if s == [] then []
    else
      var d := Distinct(s[..|s| - 1]);
      if s[|s| - 1] in s[..|s| - 1] then d else d + [s[|s| - 1]]
  }

  /** Sum over the counter's keys of max(0, count - 1). */
  function ExcessOver<T(==)>(keys: seq<T>, s: seq<T>): nat
  {
    if keys == [] then 0
    else ExcessOver(keys[..|keys| - 1], s) + (if Count(s, keys[|keys| - 1]) >= 1 then Count(s, keys[|keys| - 1]) - 1 else 0)
  }

  /** `sum(max(0, c - 1) for c in Counter(labels).values())`. */
  function Excess<T(==)>(s: seq<T>): nat
  {
    ExcessOver(Distinct(s), s)
  }

  const WHalf: real := 0.05
  const WQuarter: real := 0.03

  /** `score(assignment)`: the total penalty of a draw under the counters `c`. */
  function Score(a: Assignment, clubs: map<Name, Club>, c: Counters): (r: real)
    requires Scorable(a, clubs, c.visits)
    ensures r >= 0.0
  {
    HistoryTermNonNegative(a, c);
    VisitTerm(a, c.visits) as real + HistoryTerm(a, c)
    + WHalf * Excess(HalfLabels(a, clubs)) as real + WQuarter * Excess(QuarterLabels(a, clubs)) as real
  }

  lemma {:induction false} HalfSumNonNegative(ks: seq<Key>, m: map<Key, nat>)
    ensures HalfSum(ks, m) >= 0.0
  {
    if ks != [] { HalfSumNonNegative(ks[..|ks| - 1], m); }
  }

  lemma {:induction false} HistoryTermNonNegative(a: Assignment, c: Counters)
    ensures HistoryTerm(a, c) >= 0.0
  {
    if a != [] {
      HistoryTermNonNegative(a[..|a| - 1], c);
      HalfSumNonNegative(Combinations(a[|a| - 1], 4), c.quads);
    }
  }

  // ---------------------------------------------------------------------------
  // The debugging breakdown

  datatype Breakdown = Breakdown(total: real, playerGroup: real, pairSq: real, triple: real,
                                 quad: real, halfClub: real, quarterClub: real)

  function PairTerm(a: Assignment, c: Counters): nat
  {
    if a == [] then 0 else PairTerm(a[..|a| - 1], c) + SquareSum(Combinations(a[|a| - 1], 2), c.pairs)
  }

  function TripleTerm(a: Assignment, c: Counters): nat
  {
    if a == [] then 0 else TripleTerm(a[..|a| - 1], c) + KeySum(Combinations(a[|a| - 1], 3), c.triples)
  }

  function QuadTerm(a: Assignment, c: Counters): real
  {
    if a == [] then 0.0 else QuadTerm(a[..|a| - 1], c) + HalfSum(Combinations(a[|a| - 1], 4), c.quads)
  }

  /** `debug_score_breakdown`: the six parts summed separately (reading the counters with
      `.get(key, 0)`, so without inserting keys). Each part is a non-negative penalty, and
      their total is the optimiser's `score`. */
  function DebugBreakdown(a: Assignment, clubs: map<Name, Club>, c: Counters): (b: Breakdown)
    requires Scorable(a, clubs, c.visits)
    ensures b.total == Score(a, clubs, c)
    ensures b.total == b.playerGroup + b.pairSq + b.triple + b.quad + b.halfClub + b.quarterClub
    ensures b.playerGroup >= 0.0 && b.pairSq >= 0.0 && b.triple >= 0.0 && b.quad >= 0.0
    ensures b.halfClub >= 0.0 && b.quarterClub >= 0.0
  {
    HistorySplits(a, c);
    QuadTermNonNegative(a, c);
    var pg := VisitTerm(a, c.visits) as real;
    var b2 := PairTerm(a, c) as real;
    var c3 := TripleTerm(a, c) as real;
    var d4 := QuadTerm(a, c);
    var e := WHalf * Excess(HalfLabels(a, clubs)) as real;
    var f := WQuarter * Excess(QuarterLabels(a, clubs)) as real;
    Breakdown(pg + b2 + c3 + d4 + e + f, pg, b2, c3, d4, e, f)
  }

  lemma {:induction false} HistorySplits(a: Assignment, c: Counters)
    ensures HistoryTerm(a, c) == PairTerm(a, c) as real + TripleTerm(a, c) as real + QuadTerm(a, c)
  {
    if a != [] { HistorySplits(a[..|a| - 1], c); }
  }

  lemma {:induction false} QuadTermNonNegative(a: Assignment, c: Counters)
    ensures QuadTerm(a, c) >= 0.0
  {
    if a != [] {
      QuadTermNonNegative(a[..|a| - 1], c);
      HalfSumNonNegative(Combinations(a[|a| - 1], 4), c.quads);
    }
  }

  // ---------------------------------------------------------------------------
  // What the club term counts

  lemma {:induction false} DistinctShape<T>(s: seq<T>)
    ensures forall x :: x in Distinct(s) ==> x in s
    ensures forall x :: x in s ==> x in Distinct(s)
    ensures forall i, j :: 0 <= i < j < |Distinct(s)| ==> Distinct(s)[i] != Distinct(s)[j]
    ensures |Distinct(s)| <= |s|
  {
    if s != [] {
      DistinctShape(s[..|s| - 1]);
      assert s == s[..|s| - 1] + [s[|s| - 1]];
    }
  }

  lemma {:induction false} CountInDistinctSeq<T>(d: seq<T>, x: T)
    requires forall i, j :: 0 <= i < j < |d| ==> d[i] != d[j]
    ensures Count(d, x) == if x in d then 1 else 0
  {
    if d != [] {
      var init := d[..|d| - 1];
      CountInDistinctSeq(init, x);
      assert d == init + [d[|d| - 1]];
      if d[|d| - 1] == x {
        assert x !in init by {
          forall i | 0 <= i < |init| ensures init[i] != x { assert init[i] == d[i]; }
        }
      }
    }
  }

  /** Sum over `keys` of the multiplicities in `s`. */
  function CountSum<T(==)>(keys: seq<T>, s: seq<T>): nat
  {
    if keys == [] then 0 else CountSum(keys[..|keys| - 1], s) + Count(s, keys[|keys| - 1])
  }

  lemma {:induction false} CountSumSnoc<T>(keys: seq<T>, s: seq<T>, x: T)
    ensures CountSum(keys, s + [x]) == CountSum(keys, s) + Count(keys, x)
  {
    if keys != [] {
      CountSumSnoc(keys[..|keys| - 1], s, x);
      CountAppend(s, [x], keys[|keys| - 1]);
      assert [x][..0] == [];
    }
  }

  /** Every occurrence is counted under exactly one distinct label. */
  lemma {:induction false} CountSumDistinct<T>(s: seq<T>)
    ensures CountSum(Distinct(s), s) == |s|
  {
    if s != [] {
      var p, x := s[..|s| - 1], s[|s| - 1];
      assert s == p + [x];
      CountSumDistinct(p);
      DistinctShape(p);
      CountSumSnoc(Distinct(p), p, x);
      CountInDistinctSeq(Distinct(p), x);
      if x !in p {
        CountIsMultiplicity(p, x);
        CountAppend(p, [x], x);
        assert [x][..0] == [];
      }
    }
  }

  lemma {:induction false} ExcessOverKeys<T>(keys: seq<T>, s: seq<T>)
    requires forall x :: x in keys ==> x in s
    ensures ExcessOver(keys, s) + |keys| == CountSum(keys, s)
  {
    if keys != [] {
      var k := keys[|keys| - 1];
      assert k in keys;
      ExcessOverKeys(keys[..|keys| - 1], s);
      CountIsMultiplicity(s, k);
    }
  }

  /** The club term counts surplus occurrences: players minus distinct (club, section)
      labels. */
  lemma ExcessIsSurplus<T>(s: seq<T>)
    ensures Excess(s) == |s| - |Distinct(s)|
  {
    DistinctShape(s);
    ExcessOverKeys(Distinct(s), s);
    CountSumDistinct(s);
  }

  lemma {:induction false} DistinctFull<T>(s: seq<T>)
    ensures |Distinct(s)| == |s| <==> forall i, j :: 0 <= i < j < |s| ==> s[i] != s[j]
  {
    if s != [] {
      var p, x := s[..|s| - 1], s[|s| - 1];
      DistinctFull(p);
      DistinctShape(p);
      if |Distinct(s)| == |s| {
        assert x !in p && |Distinct(p)| == |p|;
        forall i, j | 0 <= i < j < |s| ensures s[i] != s[j] {
          assert s[i] == p[i];
          if j < |s| - 1 { assert s[j] == p[j]; }
        }
      }
      if forall i, j :: 0 <= i < j < |s| ==> s[i] != s[j] {
        assert forall i, j :: 0 <= i < j < |p| ==> p[i] != p[j] by {
          forall i, j | 0 <= i < j < |p| ensures p[i] != p[j] { assert p[i] == s[i] && p[j] == s[j]; }
        }
        assert x !in p by {
          forall i | 0 <= i < |p| ensures p[i] != x { assert p[i] == s[i]; }
        }
      }
    }
  }

  /** The club term of a label list vanishes exactly when no label repeats, i.e. when no
      club has two players in one half (or quarter). */
  lemma ExcessZeroIff<T>(s: seq<T>)
    ensures Excess(s) == 0 <==> forall i, j :: 0 <= i < j < |s| ==> s[i] != s[j]
  {
    ExcessIsSurplus(s);
    DistinctShape(s);
    DistinctFull(s);
  }

  // ---------------------------------------------------------------------------
  // The score reads the counters only through `Get`

  /** Two sets of counters that agree on every `Get`. */
  ghost predicate SameCounts(c: Counters, d: Counters)
  {
    && c.visits == d.visits
    && (forall k :: Get(c.pairs, k) == Get(d.pairs, k))
    && (forall k :: Get(c.triples, k) == Get(d.triples, k))
    && (forall k :: Get(c.quads, k) == Get(d.quads, k))
  }

  lemma {:induction false} KeySumsAgree(ks: seq<Key>, m: map<Key, nat>, n: map<Key, nat>)
    requires forall k :: Get(m, k) == Get(n, k)
    ensures SquareSum(ks, m) == SquareSum(ks, n) && KeySum(ks, m) == KeySum(ks, n)
    ensures HalfSum(ks, m) == HalfSum(ks, n)
  {
    if ks != [] { KeySumsAgree(ks[..|ks| - 1], m, n); }
  }

  lemma {:induction false} HistoryTermAgrees(a: Assignment, c: Counters, d: Counters)
    requires SameCounts(c, d)
    ensures HistoryTerm(a, c) == HistoryTerm(a, d)
  {
    if a != [] {
      var g := a[|a| - 1];
      HistoryTermAgrees(a[..|a| - 1], c, d);
      KeySumsAgree(Combinations(g, 2), c.pairs, d.pairs);
      KeySumsAgree(Combinations(g, 3), c.triples, d.triples);
      KeySumsAgree(Combinations(g, 4), c.quads, d.quads);
    }
  }

  /** Inserting zero-valued keys (as `score` does through the defaultdicts) leaves every
      later score unchanged. */
  lemma ScoreAgrees(a: Assignment, clubs: map<Name, Club>, c: Counters, d: Counters)
    requires Scorable(a, clubs, c.visits) && SameCounts(c, d)
    ensures Score(a, clubs, c) == Score(a, clubs, d)
  {
    HistoryTermAgrees(a, c, d);
  }
}
