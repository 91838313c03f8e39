/** The optimiser's cross-run memory: the visit table, the pair/triple/quadruple counters
    and the queue of runs that sets the memory horizon. */
module History {
  import opened Common
  import opened Bracket
  import opened Combos
  import opened DrawRules
  import opened Penalty

  /** Every k-combination key of the groups, group by group (the keys one run adds). */
  function GroupKeys(a: Assignment, k: nat): seq<Key>
  {
    if a == [] then [] else GroupKeys(a[..|a| - 1], k) + Combinations(a[|a| - 1], k)
  }

  /** `counter[key] += 1` on a defaultdict. */
  function Bump(m: map<Key, nat>, key: Key): map<Key, nat>
  {
    m[key := Get(m, key) + 1]
  }

  /** Bumps every key in order. */
  function AddAll(m: map<Key, nat>, ks: seq<Key>): map<Key, nat>
  {
    if ks == [] then m else Bump(AddAll(m, ks[..|ks| - 1]), ks[|ks| - 1])
  }

  /** After bumping a list of keys, each key has gained its number of occurrences. */
  lemma {:induction false} AddAllCounts(m: map<Key, nat>, ks: seq<Key>, k: Key)
    ensures Get(AddAll(m, ks), k) == Get(m, k) + Count(ks, k)
  {
    if ks != [] { AddAllCounts(m, ks[..|ks| - 1], k); }
  }

  /** Reading `counter[key]` on a defaultdict for every key of `ks`: missing keys are
      inserted with 0, present ones keep their count. */
  function WithZeros(m: map<Key, nat>, ks: seq<Key>): (r: map<Key, nat>)
    ensures r.Keys == m.Keys + set i | 0 <= i < |ks| :: ks[i]
    ensures forall k :: Get(r, k) == Get(m, k)
  {
    map k | k in m.Keys + (set i | 0 <= i < |ks| :: ks[i]) :: Get(m, k)
  }

  /** The counters after `score(a)` has read them. */
  function ZeroFill(c: Counters, a: Assignment): Counters
  {
    Counters(c.visits, WithZeros(c.pairs, GroupKeys(a, 2)), WithZeros(c.triples, GroupKeys(a, 3)),
             WithZeros(c.quads, GroupKeys(a, 4)))
  }

  /** `score` changes no count: only keys with count 0 appear, and every existing key keeps
      its value; so every later score is the same as without the reads. */
  lemma ZeroFillKeepsCounts(c: Counters, a: Assignment, b: Assignment, clubs: map<Name, Club>)
    requires Scorable(b, clubs, c.visits)
    ensures SameCounts(ZeroFill(c, a), c)
    ensures Penalty.Score(b, clubs, ZeroFill(c, a)) == Penalty.Score(b, clubs, c)
  {
    assert SameCounts(ZeroFill(c, a), c);
    ScoreAgrees(b, clubs, ZeroFill(c, a), c);
  }

  /** A visit row for each player, all counts zero. */
  function ZeroVisits(players: seq<Name>): (v: map<Name, seq<nat>>)
    ensures v.Keys == set i | 0 <= i < |players| :: players[i]
    ensures forall p :: p in v ==> v[p] == Repeat(0, NGroups)
  {
    map p | p in players :: Repeat(0, NGroups)
  }

  /** Every row of the visit table has one count per group. */
  predicate Rows(v: map<Name, seq<nat>>)
  {
    forall p :: p in v ==> |v[p]| == NGroups
  }

  /** `history[p][g] += 1` for every p in `group`. */
  function AddGroupVisits(v: map<Name, seq<nat>>, group: seq<Name>, g: nat): (r: map<Name, seq<nat>>)
    requires g < NGroups && Rows(v)
    requires forall i :: 0 <= i < |group| ==> group[i] in v
    ensures r.Keys == v.Keys && Rows(r)
  {
    if group == [] then v
    else
      var r := AddGroupVisits(v, group[..|group| - 1], g);
      var p := group[|group| - 1];
      r[p := r[p][g := r[p][g] + 1]]
  }

  /** The visit update of one run, group by group. */
  function AddVisits(v: map<Name, seq<nat>>, a: Assignment): (r: map<Name, seq<nat>>)
    requires |a| <= NGroups && Rows(v) && Covers(a, v)
    ensures r.Keys == v.Keys && Rows(r)
  {
    if a == [] then v
    else
      assert forall g :: 0 <= g < |a| - 1 ==> a[..|a| - 1][g] == a[g];
      AddGroupVisits(AddVisits(v, a[..|a| - 1]), a[|a| - 1], |a| - 1)
  }

  lemma {:induction false} AddGroupVisitsCounts(v: map<Name, seq<nat>>, group: seq<Name>, g: nat, p: Name, h: nat)
    requires g < NGroups && h < NGroups && Rows(v) && p in v
    requires forall i :: 0 <= i < |group| ==> group[i] in v
    ensures AddGroupVisits(v, group, g)[p][h] == v[p][h] + (if h == g then Count(group, p) else 0)
  {
    if group != [] { AddGroupVisitsCounts(v, group[..|group| - 1], g, p, h); }
  }

  /** After a run, `history[p][g]` has grown by the number of times p sits in group g. */
  lemma {:induction false} AddVisitsCounts(v: map<Name, seq<nat>>, a: Assignment, p: Name, h: nat)
    requires |a| <= NGroups && Rows(v) && Covers(a, v) && p in v && h < NGroups
    ensures AddVisits(v, a)[p][h] == v[p][h] + (if h < |a| then Count(a[h], p) else 0)
  {
    if a != [] {
      var init := a[..|a| - 1];
      assert forall g :: 0 <= g < |a| - 1 ==> init[g] == a[g];
      AddVisitsCounts(v, init, p, h);
      AddGroupVisitsCounts(AddVisits(v, init), a[|a| - 1], |a| - 1, p, h);
    }
  }

  /** Queue length after one more run with horizon `h > 0`: a run that makes the queue
      longer than `h` empties it. */
  function NextQueueLength(len: nat, h: nat): nat
  {
    if len + 1 > h then 0 else len + 1
  }

  /** Queue length after `k` runs starting from an empty queue. */
  function QueueLengthAfter(h: nat, k: nat): nat
  {
    if k == 0 then 0 else NextQueueLength(QueueLengthAfter(h, k - 1), h)
  }

  /** With horizon h > 0, the queue holds k mod (h + 1) runs after k runs, and run k wipes
      the history exactly when k is a multiple of h + 1 (the same runs at which the
      debugging breakdown is printed). */
  lemma {:induction false} ResetCycle(h: nat, k: nat)
    requires h > 0
    ensures QueueLengthAfter(h, k) == k % (h + 1)
    ensures k > 0 ==> (QueueLengthAfter(h, k - 1) + 1 > h <==> k % (h + 1) == 0)
  {
    if k > 0 {
      ResetCycle(h, k - 1);
      NextMod(k, h + 1);
    }
  }

  /** Counting up by one steps the remainder up by one, wrapping to 0 at d. */
  lemma NextMod(k: nat, d: nat)
    requires k > 0 && d > 0
    ensures k % d == if (k - 1) % d + 1 == d then 0 else (k - 1) % d + 1
  {
    var q, r := (k - 1) / d, (k - 1) % d;
    assert k - 1 == q * d + r;
    if r + 1 == d {
      assert k == (q + 1) * d + 0;
      ModUnique(k, d, q + 1, 0);
    } else {
      ModUnique(k, d, q, r + 1);
    }
  }

  lemma ModUnique(k: int, d: int, q: int, s: int)
    requires d > 0 && 0 <= s < d && k == q * d + s
    ensures k % d == s
  {
    var q', s' := k / d, k % d;
    assert k == q' * d + s';
    assert q * d - q' * d == s' - s;
    MulDistance(q, q', d);
  }

  /** Two multiples of d that differ by less than d are equal. */
  lemma MulDistance(q: int, q': int, d: int)
    requires d > 0 && -d < q * d - q' * d < d
    ensures q == q'
  {
    if q > q' {
      assert q * d - q' * d == (q - q') * d;
      MulMonotone(q - q', d);
    } else if q < q' {
      assert q' * d - q * d == (q' - q) * d;
      MulMonotone(q' - q, d);
    }
  }

  lemma MulMonotone(a: int, d: int)
    requires a >= 1 && d > 0
    ensures a * d >= d
  {
    assert a * d == d + (a - 1) * d;
  }

  class Store {
    /** The roster's names, in order; every visit row belongs to one of them. */
    const players: seq<Name>
    var visits: map<Name, seq<nat>>
    var pairs: map<Key, nat>
    var triples: map<Key, nat>
    var quads: map<Key, nat>
    var queue: seq<Assignment>

    ghost predicate Valid()
      reads this
    {
      visits.Keys == (set i | 0 <= i < |players| :: players[i]) && Rows(visits)
    }

    function Counts(): Counters
      reads this
    {
      Counters(visits, pairs, triples, quads)
    }

    /** Fresh history: all visit counts zero, no pair/triple/quadruple keys, empty queue. */
    constructor (players: seq<Name>)
      ensures Valid() && this.players == players
      ensures visits == ZeroVisits(players) && pairs == map[] && triples == map[] && quads == map[]
      ensures queue == []
    {
      this.players := players;
      visits := ZeroVisits(players);
      pairs, triples, quads := map[], map[], map[];
      queue := [];
    }

    /** The complete restart: visit counts back to zero and the three counters cleared. */
    method Reset()
      modifies this
      ensures Valid()
      ensures visits == ZeroVisits(players) && pairs == map[] && triples == map[] && quads == map[]
      ensures queue == old(queue)
    {
      visits := ZeroVisits(players);
      pairs, triples, quads := map[], map[], map[];
    }

    /** `score(assignment)` against the stored history. Reading the defaultdicts inserts
        the run's missing pair, triple and quadruple keys with count 0 (see `ZeroFill`). */
    method Score(a: Assignment, clubs: map<Name, Club>) returns (r: real)
      requires Valid() && Scorable(a, clubs, visits)
      modifies this
      ensures Valid() && queue == old(queue)
      ensures r == Penalty.Score(a, clubs, old(Counts()))
      ensures Counts() == ZeroFill(old(Counts()), a)
    {
      var c := Counts();
      r := Penalty.Score(a, clubs, c);
      var z := ZeroFill(c, a);
      pairs, triples, quads := z.pairs, z.triples, z.quads;
    }

    /** The fold-in of one run: every player/group entry and every sorted pair, triple and
        quadruple key of the run gains 1 per occurrence. */
    method FoldIn(a: Assignment)
      requires Valid() && |a| <= NGroups && Covers(a, visits)
      modifies this
      ensures Valid() && queue == old(queue)
      ensures visits == AddVisits(old(visits), a)
      ensures pairs == AddAll(old(pairs), GroupKeys(a, 2))
      ensures triples == AddAll(old(triples), GroupKeys(a, 3))
      ensures quads == AddAll(old(quads), GroupKeys(a, 4))
    {
      var c := FoldRun(Counts(), a);
      visits, pairs, triples, quads := c.visits, c.pairs, c.triples, c.quads;
    }

    /** The horizon bookkeeping after a finished run. Horizon 0 keeps nothing. Otherwise
        the run joins the queue; if the queue is now longer than the horizon, the whole
        history and the queue are wiped and this run is not folded in; else it is folded in. */
    method Record(a: Assignment, maxHist: nat)
      requires Valid() && |a| <= NGroups && Covers(a, visits)
      modifies this
      ensures Valid()
      ensures maxHist == 0 ==>
        visits == old(visits) && pairs == old(pairs) && triples == old(triples)
        && quads == old(quads) && queue == old(queue)
      ensures maxHist > 0 && |old(queue)| + 1 > maxHist ==>
        visits == ZeroVisits(players) && pairs == map[] && triples == map[] && quads == map[]
        && queue == []
      ensures maxHist > 0 && |old(queue)| + 1 <= maxHist ==>
        visits == AddVisits(old(visits), a)
        && pairs == AddAll(old(pairs), GroupKeys(a, 2))
        && triples == AddAll(old(triples), GroupKeys(a, 3))
        && quads == AddAll(old(quads), GroupKeys(a, 4))
        && queue == old(queue) + [a]
      ensures |queue| == if maxHist == 0 then |old(queue)| else NextQueueLength(|old(queue)|, maxHist)
    {
      if maxHist > 0 {
        queue := queue + [a];
        if |queue| > maxHist {
          Reset();
          queue := [];
        } else {
          FoldIn(a);
        }
      }
    }
  }

  /** One more group of the run: its visits and keys follow those of the groups before. */
  lemma FoldStep(v: map<Name, seq<nat>>, a: Assignment, gi: nat)
    requires |a| <= NGroups && Rows(v) && Covers(a, v) && gi < |a|
    ensures Covers(a[..gi], v) && Covers(a[..gi + 1], v)
    ensures forall i :: 0 <= i < |a[gi]| ==> a[gi][i] in AddVisits(v, a[..gi])
    ensures AddVisits(v, a[..gi + 1]) == AddGroupVisits(AddVisits(v, a[..gi]), a[gi], gi)
    ensures forall k :: GroupKeys(a[..gi + 1], k) == GroupKeys(a[..gi], k) + Combinations(a[gi], k)
  {
    assert a[..gi + 1][..gi] == a[..gi];
    assert forall g :: 0 <= g <= gi ==> a[..gi + 1][g] == a[g];
  }

  /** Folds the run into the counters group by group. */
  method FoldRun(c0: Counters, a: Assignment) returns (c: Counters)
    requires |a| <= NGroups && Rows(c0.visits) && Covers(a, c0.visits)
    ensures c.visits == AddVisits(c0.visits, a)
    ensures c.pairs == AddAll(c0.pairs, GroupKeys(a, 2))
    ensures c.triples == AddAll(c0.triples, GroupKeys(a, 3))
    ensures c.quads == AddAll(c0.quads, GroupKeys(a, 4))
  {
    c := c0;
    var gi := 0;
    assert a[..0] == [];
    while gi < |a|
      invariant Folded(c0, a, gi, c)
    {
      c := FoldGroup(c0, a, gi, c);
      gi := gi + 1;
    }
    assert a[..gi] == a;
  }

  /** The counters after folding in the first `gi` groups of the run into `c0`. */
  ghost predicate Folded(c0: Counters, a: Assignment, gi: nat, c: Counters)
  {
    && gi <= |a| <= NGroups && Rows(c0.visits) && Covers(a, c0.visits)
    && c.visits.Keys == c0.visits.Keys && Rows(c.visits)
    && c.visits == AddVisits(c0.visits, a[..gi])
    && c.pairs == AddAll(c0.pairs, GroupKeys(a[..gi], 2))
    && c.triples == AddAll(c0.triples, GroupKeys(a[..gi], 3))
    && c.quads == AddAll(c0.quads, GroupKeys(a[..gi], 4))
  }

  /** Folds in group `gi`. */
  method FoldGroup(ghost c0: Counters, a: Assignment, gi: nat, c: Counters) returns (c': Counters)
    requires Folded(c0, a, gi, c) && gi < |a|
    ensures Folded(c0, a, gi + 1, c')
  {
    var group := a[gi];
    FoldStep(c0.visits, a, gi);
    var v := VisitGroup(c.visits, group, gi);
    var p := AddKeys(c.pairs, Combinations(group, 2));
    var t := AddKeys(c.triples, Combinations(group, 3));
    var q := AddKeys(c.quads, Combinations(group, 4));
    AddAllAppend(c0.pairs, GroupKeys(a[..gi], 2), Combinations(group, 2));
    AddAllAppend(c0.triples, GroupKeys(a[..gi], 3), Combinations(group, 3));
    AddAllAppend(c0.quads, GroupKeys(a[..gi], 4), Combinations(group, 4));
    c' := Counters(v, p, t, q);
  }

  /** `history[p][gi] += 1` for each player p of `group`. */
  method VisitGroup(v: map<Name, seq<nat>>, group: seq<Name>, gi: nat) returns (r: map<Name, seq<nat>>)
    requires Rows(v) && gi < NGroups && forall i :: 0 <= i < |group| ==> group[i] in v
    ensures r == AddGroupVisits(v, group, gi)
  {
    r := v;
    var j := 0;
    while j < |group|
      invariant 0 <= j <= |group| && r == AddGroupVisits(v, group[..j], gi)
    {
      assert group[..j + 1][..j] == group[..j];
      var p := group[j];
      r := r[p := r[p][gi := r[p][gi] + 1]];
      j := j + 1;
    }
    assert group[..j] == group;
  }

  /** Bumps each key of a list, one at a time. */
  method AddKeys(m: map<Key, nat>, ks: seq<Key>) returns (r: map<Key, nat>)
    ensures r == AddAll(m, ks)
  {
    r := m;
    var i := 0;
    while i < |ks|
      invariant 0 <= i <= |ks| && r == AddAll(m, ks[..i])
    {
      AddAllSnoc(m, ks, i);
      r := Bump(r, ks[i]);
      i := i + 1;
    }
    assert ks[..i] == ks;
  }

  lemma AddAllSnoc(m: map<Key, nat>, ks: seq<Key>, i: nat)
    requires i < |ks|
    ensures AddAll(m, ks[..i + 1]) == Bump(AddAll(m, ks[..i]), ks[i])
  {
    assert ks[..i + 1][..i] == ks[..i];
  }

  lemma {:induction false} AddAllAppend(m: map<Key, nat>, ks: seq<Key>, ls: seq<Key>)
    ensures AddAll(AddAll(m, ks), ls) == AddAll(m, ks + ls)
    decreases |ls|
  {
    if ls == [] {
      assert ks + ls == ks;
    } else {
      assert (ks + ls)[..|ks + ls| - 1] == ks + ls[..|ls| - 1];
      AddAllAppend(m, ks, ls[..|ls| - 1]);
    }
  }
}
