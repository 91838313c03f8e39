/** `random_assignment`: copy the seeded groups, deal the shuffled unseeded players into
    the free places group by group, and retry until the draw is valid. */
module StartDraw {
  import opened Common
  import opened Bracket
  import opened DrawRules
  import Moves

  function Min(a: nat, b: nat): nat
  {
    if a <= b then a else b
  }

  /** Python's `s[from:from + n]` for non-negative bounds: clamped to the list. */
  function Slice(s: seq<Name>, from: nat, n: nat): (r: seq<Name>)
    ensures |r| <= n
    ensures from + n <= |s| ==> r == s[from..from + n]
  {
    s[Min(from, |s|)..Min(from + n, |s|)]
  }

  /** Places left in group i: its size minus the seeded players already in it. */
  predicate FitsSizes(groups: Assignment, sizes: seq<nat>)
  {
    |groups| == |sizes| && forall i :: 0 <= i < |groups| ==> |groups[i]| <= sizes[i]
  }

  /** The dealing position before group i: the free places of groups 0..i-1. */
  function FreeBefore(groups: Assignment, sizes: seq<nat>, i: nat): nat
    requires FitsSizes(groups, sizes) && i <= |groups|
  {
    if i == 0 then 0 else FreeBefore(groups, sizes, i - 1) + (sizes[i - 1] - |groups[i - 1]|)
  }

  /** The draw after dealing `shuffled` (the specification of `FillGroups`). */
  function Filled(groups: Assignment, sizes: seq<nat>, shuffled: seq<Name>): (a: Assignment)
    requires FitsSizes(groups, sizes)
    ensures |a| == |groups|
  {
    seq(|groups|, i requires 0 <= i < |groups| =>
      groups[i] + Slice(shuffled, FreeBefore(groups, sizes, i), sizes[i] - |groups[i]|))
  }

  /** The dealing loop of `random_assignment`. */
  method FillGroups(groups: Assignment, sizes: seq<nat>, shuffled: seq<Name>) returns (a: Assignment)
    requires FitsSizes(groups, sizes)
    ensures a == Filled(groups, sizes, shuffled)
  {
    a := groups;
    var index := 0;
    var i := 0;
    while i < |sizes|
      invariant 0 <= i <= |sizes| && |a| == |groups|
      invariant index == FreeBefore(groups, sizes, i)
      invariant forall k :: 0 <= k < i ==> a[k] == Filled(groups, sizes, shuffled)[k]
      invariant forall k :: i <= k < |a| ==> a[k] == groups[k]
    {
      var free := sizes[i] - |a[i]|;
      a := a[i := a[i] + Slice(shuffled, index, free)];
      index := index + free;
      i := i + 1;
    }
  }

  lemma {:induction false} FreeBeforeGrows(groups: Assignment, sizes: seq<nat>, i: nat, j: nat)
    requires FitsSizes(groups, sizes) && i <= j <= |groups|
    ensures FreeBefore(groups, sizes, i) <= FreeBefore(groups, sizes, j)
    decreases j
  {
    if i < j { FreeBeforeGrows(groups, sizes, i, j - 1); }
  }

  /** When the free places add up to the number of dealt players, every group is filled
      to its size. */
  lemma FilledSizes(groups: Assignment, sizes: seq<nat>, shuffled: seq<Name>)
    requires FitsSizes(groups, sizes) && FreeBefore(groups, sizes, |groups|) == |shuffled|
    ensures forall i :: 0 <= i < |groups| ==> |Filled(groups, sizes, shuffled)[i]| == sizes[i]
  {
    forall i | 0 <= i < |groups| ensures |Filled(groups, sizes, shuffled)[i]| == sizes[i] {
      FreeBeforeGrows(groups, sizes, i + 1, |groups|);
    }
  }

  /** Group i of the dealt draw: its seeded players and then its share of the deal. */
  lemma FilledGroup(groups: Assignment, sizes: seq<nat>, shuffled: seq<Name>, i: nat)
    requires FitsSizes(groups, sizes) && i < |groups| && FreeBefore(groups, sizes, i + 1) <= |shuffled|
    ensures Filled(groups, sizes, shuffled)[i]
      == groups[i] + shuffled[FreeBefore(groups, sizes, i)..FreeBefore(groups, sizes, i + 1)]
  {
  }

  lemma FlattenSnoc<T>(ss: seq<seq<T>>, n: nat)
    requires 0 < n <= |ss|
    ensures multiset(Flatten(ss[..n])) == multiset(Flatten(ss[..n - 1])) + multiset(ss[n - 1])
  {
    assert ss[..n][..n - 1] == ss[..n - 1];
  }

  /** The dealt draw holds the seeded groups' players plus the first players of the deal,
      group by group. */
  lemma {:induction false} FilledPrefixPlayers(groups: Assignment, sizes: seq<nat>, shuffled: seq<Name>, n: nat)
    requires FitsSizes(groups, sizes) && n <= |groups| && FreeBefore(groups, sizes, n) <= |shuffled|
    ensures multiset(Flatten(Filled(groups, sizes, shuffled)[..n]))
      == multiset(Flatten(groups[..n])) + multiset(shuffled[..FreeBefore(groups, sizes, n)])
  {
    var a := Filled(groups, sizes, shuffled);
    if n == 0 {
      assert a[..0] == [] && groups[..0] == [] && shuffled[..0] == [];
    } else {
      FilledPrefixPlayers(groups, sizes, shuffled, n - 1);
      var lo, hi := FreeBefore(groups, sizes, n - 1), FreeBefore(groups, sizes, n);
      FilledSnoc(groups, sizes, shuffled, n);
      FlattenSnoc(groups, n);
      SliceSplit(shuffled, lo, hi);
      Combine(multiset(Flatten(a[..n])), multiset(Flatten(a[..n - 1])),
              multiset(Flatten(groups[..n])), multiset(Flatten(groups[..n - 1])), multiset(groups[n - 1]),
              multiset(shuffled[..lo]), multiset(shuffled[..hi]), multiset(shuffled[lo..hi]));
    }
  }

  lemma SliceSplit(s: seq<Name>, lo: nat, hi: nat)
    requires lo <= hi <= |s|
    ensures multiset(s[..hi]) == multiset(s[..lo]) + multiset(s[lo..hi])
  {
    assert s[..hi] == s[..lo] + s[lo..hi];
  }

  /** The dealt draw's first n groups hold its first n - 1 groups plus group n - 1's
      seeded players and share of the deal. */
  lemma FilledSnoc(groups: Assignment, sizes: seq<nat>, shuffled: seq<Name>, n: nat)
    requires FitsSizes(groups, sizes) && 0 < n <= |groups| && FreeBefore(groups, sizes, n) <= |shuffled|
    ensures var a := Filled(groups, sizes, shuffled);
      multiset(Flatten(a[..n])) == multiset(Flatten(a[..n - 1]))
        + (multiset(groups[n - 1]) + multiset(shuffled[FreeBefore(groups, sizes, n - 1)..FreeBefore(groups, sizes, n)]))
  {
    var a := Filled(groups, sizes, shuffled);
    var last := groups[n - 1] + shuffled[FreeBefore(groups, sizes, n - 1)..FreeBefore(groups, sizes, n)];
    FilledGroup(groups, sizes, shuffled, n - 1);
    assert a[n - 1] == last;
    FlattenSnoc(a, n);
  }

  /** The multiset bookkeeping of one more dealt group. */
  lemma Combine(fa: multiset<Name>, fa1: multiset<Name>, fg: multiset<Name>,
                fg1: multiset<Name>, g: multiset<Name>, s1: multiset<Name>, s2: multiset<Name>, d: multiset<Name>)
    requires fa == fa1 + (g + d) && fg == fg1 + g && fa1 == fg1 + s1 && s2 == s1 + d
    ensures fa == fg + s2
  {
  }

  /** Every group gets exactly its size, and every seeded and every dealt player appears
      exactly as often as before. */
  lemma FilledExact(groups: Assignment, sizes: seq<nat>, shuffled: seq<Name>)
    requires FitsSizes(groups, sizes) && FreeBefore(groups, sizes, |groups|) == |shuffled|
    ensures forall i :: 0 <= i < |groups| ==> |Filled(groups, sizes, shuffled)[i]| == sizes[i]
    ensures multiset(Flatten(Filled(groups, sizes, shuffled)))
      == multiset(Flatten(groups)) + multiset(shuffled)
  {
    FilledSizes(groups, sizes, shuffled);
    FilledPrefixPlayers(groups, sizes, shuffled, |groups|);
    var a := Filled(groups, sizes, shuffled);
    assert a[..|groups|] == a && groups[..|groups|] == groups && shuffled[..|shuffled|] == shuffled;
  }

  /** Every player of a dealt draw comes from the seeded groups or the deal. */
  lemma FilledPlaced(groups: Assignment, sizes: seq<nat>, shuffled: seq<Name>, clubs: map<Name, Club>)
    requires FitsSizes(groups, sizes) && Placed(groups, clubs)
    requires forall k :: 0 <= k < |shuffled| ==> shuffled[k] in clubs
    ensures Placed(Filled(groups, sizes, shuffled), clubs)
  {
    var a := Filled(groups, sizes, shuffled);
    forall g, i | 0 <= g < |a| && 0 <= i < |a[g]| ensures a[g][i] in clubs {
      var lo := Min(FreeBefore(groups, sizes, g), |shuffled|);
      if i >= |groups[g]| {
        assert a[g][i] == shuffled[lo + (i - |groups[g]|)];
      }
    }
  }

  /** What every try needs: the seeded groups fit, and every player has a club. */
  predicate Dealable(groups: Assignment, sizes: seq<nat>, clubs: map<Name, Club>, shuffles: seq<seq<Name>>)
  {
    && FitsSizes(groups, sizes) && Placed(groups, clubs)
    && forall t, k :: 0 <= t < |shuffles| && 0 <= k < |shuffles[t]| ==> shuffles[t][k] in clubs
  }

  /** The first dealt draw that passes `valid_assignment`, trying the shuffles in order;
      None when none does. */
  function FirstValid(groups: Assignment, sizes: seq<nat>, clubs: map<Name, Club>, fixed: set<Name>,
                      shuffles: seq<seq<Name>>): (r: Option<Assignment>)
    requires Dealable(groups, sizes, clubs, shuffles)
    ensures r.Some? ==> Placed(r.value, clubs) && ValidAssignment(r.value, clubs, fixed)
  {
    if shuffles == [] then None
    else
      FilledPlaced(groups, sizes, shuffles[0], clubs);
      var a := Filled(groups, sizes, shuffles[0]);
      if ValidAssignment(a, clubs, fixed) then Some(a)
      else FirstValid(groups, sizes, clubs, fixed, shuffles[1..])
  }

  /** `random_assignment(max_tries)`: `shuffles` holds the outcome of `random.shuffle` on
      each of the `max_tries` tries; None is the RuntimeError. */
  method RandomAssignment(groups: Assignment, sizes: seq<nat>, clubs: map<Name, Club>, fixed: set<Name>,
                          shuffles: seq<seq<Name>>) returns (res: Option<Assignment>)
    requires Dealable(groups, sizes, clubs, shuffles)
    ensures res == FirstValid(groups, sizes, clubs, fixed, shuffles)
  {
    var t := 0;
    while t < |shuffles|
      invariant 0 <= t <= |shuffles|
      invariant FirstValid(groups, sizes, clubs, fixed, shuffles) == FirstValid(groups, sizes, clubs, fixed, shuffles[t..])
    {
      assert shuffles[t..][1..] == shuffles[t + 1..];
      var a := FillGroups(groups, sizes, shuffles[t]);
      FilledPlaced(groups, sizes, shuffles[t], clubs);
      if ValidAssignment(a, clubs, fixed) {
        return Some(a);
      }
      t := t + 1;
    }
    return None;
  }

  /** A found start is a valid draw, dealt from one of the shuffles with no valid draw
      before it; none is found exactly when every try is invalid. */
  lemma {:induction false} FirstValidMeaning(groups: Assignment, sizes: seq<nat>, clubs: map<Name, Club>,
                                             fixed: set<Name>, shuffles: seq<seq<Name>>)
    requires Dealable(groups, sizes, clubs, shuffles)
    ensures FirstValid(groups, sizes, clubs, fixed, shuffles).Some? ==>
      var a := FirstValid(groups, sizes, clubs, fixed, shuffles).value;
      Placed(a, clubs) && ValidAssignment(a, clubs, fixed)
      && exists t :: 0 <= t < |shuffles| && FirstValidAt(groups, sizes, clubs, fixed, shuffles, t, a)
    ensures FirstValid(groups, sizes, clubs, fixed, shuffles).None? <==>
      forall t :: 0 <= t < |shuffles| ==>
        Placed(Filled(groups, sizes, shuffles[t]), clubs)
        && !ValidAssignment(Filled(groups, sizes, shuffles[t]), clubs, fixed)
  {
    FirstValidFound(groups, sizes, clubs, fixed, shuffles);
    FirstValidNone(groups, sizes, clubs, fixed, shuffles);
    forall t | 0 <= t < |shuffles| ensures Placed(Filled(groups, sizes, shuffles[t]), clubs) {
      FilledPlaced(groups, sizes, shuffles[t], clubs);
    }
  }

  /** `a` is the draw dealt from try `t`, and every earlier try dealt an invalid draw. */
  ghost predicate FirstValidAt(groups: Assignment, sizes: seq<nat>, clubs: map<Name, Club>, fixed: set<Name>,
                               shuffles: seq<seq<Name>>, t: nat, a: Assignment)
    requires FitsSizes(groups, sizes) && t < |shuffles|
  {
    && a == Filled(groups, sizes, shuffles[t])
    && forall u :: 0 <= u < t ==>
         Placed(Filled(groups, sizes, shuffles[u]), clubs)
         && !ValidAssignment(Filled(groups, sizes, shuffles[u]), clubs, fixed)
  }

  lemma {:induction false} FirstValidFound(groups: Assignment, sizes: seq<nat>, clubs: map<Name, Club>,
                                           fixed: set<Name>, shuffles: seq<seq<Name>>)
    requires Dealable(groups, sizes, clubs, shuffles)
    ensures FirstValid(groups, sizes, clubs, fixed, shuffles).Some? ==>
      var a := FirstValid(groups, sizes, clubs, fixed, shuffles).value;
      Placed(a, clubs) && ValidAssignment(a, clubs, fixed)
      && exists t :: 0 <= t < |shuffles| && FirstValidAt(groups, sizes, clubs, fixed, shuffles, t, a)
  {
    if shuffles != [] {
      var rest := shuffles[1..];
      assert Dealable(groups, sizes, clubs, rest);
      FirstValidFound(groups, sizes, clubs, fixed, rest);
      FilledPlaced(groups, sizes, shuffles[0], clubs);
      if FirstValid(groups, sizes, clubs, fixed, shuffles).Some? {
        var a := FirstValid(groups, sizes, clubs, fixed, shuffles).value;
        if a == Filled(groups, sizes, shuffles[0]) && ValidAssignment(a, clubs, fixed) {
          assert FirstValidAt(groups, sizes, clubs, fixed, shuffles, 0, a);
        } else {
          var t :| 0 <= t < |rest| && FirstValidAt(groups, sizes, clubs, fixed, rest, t, a);
          forall u | 0 <= u < t + 1
            ensures Placed(Filled(groups, sizes, shuffles[u]), clubs)
              && !ValidAssignment(Filled(groups, sizes, shuffles[u]), clubs, fixed)
          {
            if u > 0 { assert shuffles[u] == rest[u - 1]; }
          }
          assert FirstValidAt(groups, sizes, clubs, fixed, shuffles, t + 1, a);
        }
      }
    }
  }

  lemma {:induction false} FirstValidNone(groups: Assignment, sizes: seq<nat>, clubs: map<Name, Club>,
                                          fixed: set<Name>, shuffles: seq<seq<Name>>)
    requires Dealable(groups, sizes, clubs, shuffles)
    ensures FirstValid(groups, sizes, clubs, fixed, shuffles).None? <==>
      forall t :: 0 <= t < |shuffles| ==> !ValidAssignment(Filled(groups, sizes, shuffles[t]), clubs, fixed)
  {
    if shuffles != [] {
      var rest := shuffles[1..];
      assert Dealable(groups, sizes, clubs, rest);
      FirstValidNone(groups, sizes, clubs, fixed, rest);
      FirstValidHead(groups, sizes, clubs, fixed, shuffles);
      assert forall t :: 0 <= t < |rest| ==> rest[t] == shuffles[t + 1];
    }
  }

  /** The first try decides, or the search goes on with the remaining tries. */
  lemma FirstValidHead(groups: Assignment, sizes: seq<nat>, clubs: map<Name, Club>,
                       fixed: set<Name>, shuffles: seq<seq<Name>>)
    requires Dealable(groups, sizes, clubs, shuffles) && shuffles != []
    ensures Dealable(groups, sizes, clubs, shuffles[1..])
    ensures FirstValid(groups, sizes, clubs, fixed, shuffles).None? <==>
      !ValidAssignment(Filled(groups, sizes, shuffles[0]), clubs, fixed)
      && FirstValid(groups, sizes, clubs, fixed, shuffles[1..]).None?
  {
    FilledPlaced(groups, sizes, shuffles[0], clubs);
  }

  // ---------------------------------------------------------------------------
  // The start drawn for the roster

  /** Every seed text on the roster is one of "1", "2", "3/4" and "5/8". */
  predicate RankedSeeds(roster: seq<PlayerRecord>)
  {
    forall i :: 0 <= i < |roster| && roster[i].seed.Some? ==> !roster[i].seed.value.OtherSeed?
  }

  /** What the set-up hands to `random_assignment`: the configuration passed with the group
      sizes `GroupSizes`, `groups` is the seeded start built from the seeded rows, and every
      try shuffles the unseeded names. */
  ghost predicate RosterStart(roster: seq<PlayerRecord>, order34: seq<nat>, order58: seq<nat>,
                              groups: Assignment, shuffles: seq<seq<Name>>)
  {
    && ShuffledPools(order34, order58)
    && CheckConfig(roster, GroupSizes) == None
    && |SeedNames(SeededRows(roster), Rank34)| <= 2 && |SeedNames(SeededRows(roster), Rank58)| <= 4
    && groups == SeedGroups(SeededRows(roster), order34, order58)
    && forall t :: 0 <= t < |shuffles| ==> multiset(shuffles[t]) == multiset(UnseededNames(roster))
  }

  /** The seeded start holds the rows of seed 1, 2, 3/4 and 5/8, each once, and no one else. */
  lemma {:induction false} SeedGroupsPlayers(rows: seq<PlayerRecord>, order34: seq<nat>, order58: seq<nat>)
    requires ShuffledPools(order34, order58)
    requires |SeedNames(rows, Rank34)| <= 2 && |SeedNames(rows, Rank58)| <= 4
    ensures multiset(Flatten(SeedGroups(rows, order34, order58))) == SeedMultiset(rows)
    decreases |rows|
  {
    if rows == [] {
      FlattenEmpty(NGroups);
    } else {
      var init, r := rows[..|rows| - 1], rows[|rows| - 1];
      assert rows == init + [r];
      SeedMultisetSnoc(init, r);
      SeedGroupsSnoc(init, r, order34, order58);
      SeedGroupsPlayers(init, order34, order58);
      var prev := SeedGroups(init, order34, order58);
      if r.seed.Some? && !r.seed.value.OtherSeed? {
        var g :| 0 <= g < NGroups && SeedGroups(init + [r], order34, order58) == prev[g := prev[g] + [r.name]];
        AppendPlayer(prev, g, r.name);
      }
    }
  }

  /** Placing one more seeded row appends its name to one group, or changes nothing when
      its seed text is not one of the four. */
  lemma SeedGroupsSnoc(init: seq<PlayerRecord>, r: PlayerRecord, order34: seq<nat>, order58: seq<nat>)
    requires ShuffledPools(order34, order58)
    requires |SeedNames(init + [r], Rank34)| <= 2 && |SeedNames(init + [r], Rank58)| <= 4
    ensures |SeedNames(init, Rank34)| <= 2 && |SeedNames(init, Rank58)| <= 4
    ensures r.seed.Some? && !r.seed.value.OtherSeed? ==>
      exists g :: 0 <= g < NGroups && SeedGroups(init + [r], order34, order58)
        == SeedGroups(init, order34, order58)[g := SeedGroups(init, order34, order58)[g] + [r.name]]
    ensures !(r.seed.Some? && !r.seed.value.OtherSeed?) ==>
      SeedGroups(init + [r], order34, order58) == SeedGroups(init, order34, order58)
  {
    var rows := init + [r];
    assert rows[..|rows| - 1] == init;
    SeedNamesSnoc(init, r, Rank34);
    SeedNamesSnoc(init, r, Rank58);
    var prev := SeedGroups(init, order34, order58);
    if r.seed == Some(Rank1) {
      assert SeedGroups(rows, order34, order58) == prev[0 := prev[0] + [r.name]];
    } else if r.seed == Some(Rank2) {
      assert SeedGroups(rows, order34, order58) == prev[1 := prev[1] + [r.name]];
    } else if r.seed == Some(Rank34) {
      var g := order34[1 - |SeedNames(init, Rank34)|];
      assert SeedGroups(rows, order34, order58) == prev[g := prev[g] + [r.name]];
    } else if r.seed == Some(Rank58) {
      var g := order58[3 - |SeedNames(init, Rank58)|];
      assert SeedGroups(rows, order34, order58) == prev[g := prev[g] + [r.name]];
    }
  }

  /** Adding a player to one group adds it to the draw. */
  lemma AppendPlayer(a: Assignment, g: nat, x: Name)
    requires g < |a|
    ensures multiset(Flatten(a[g := a[g] + [x]])) == multiset(Flatten(a)) + multiset{x}
  {
    Moves.FlattenUpdate(a, g, a[g] + [x]);
    assert multiset(a[g] + [x]) == multiset(a[g]) + multiset{x};
    Moves.Cancel(multiset(Flatten(a[g := a[g] + [x]])), multiset(Flatten(a)) + multiset{x}, multiset(a[g]));
  }

  /** The names listed under seed 1, 2, 3/4 and 5/8, together. */
  ghost function SeedMultiset(rows: seq<PlayerRecord>): multiset<Name>
  {
    multiset(SeedNames(rows, Rank1)) + multiset(SeedNames(rows, Rank2))
      + multiset(SeedNames(rows, Rank34)) + multiset(SeedNames(rows, Rank58))
  }

  lemma SeedMultisetSnoc(rows: seq<PlayerRecord>, r: PlayerRecord)
    ensures SeedMultiset(rows + [r])
      == SeedMultiset(rows) + if r.seed.Some? && !r.seed.value.OtherSeed? then multiset{r.name} else multiset{}
  {
    SeedNamesSnoc(rows, r, Rank1);
    SeedNamesSnoc(rows, r, Rank2);
    SeedNamesSnoc(rows, r, Rank34);
    SeedNamesSnoc(rows, r, Rank58);
    var m1, m2 := multiset(SeedNames(rows, Rank1)), multiset(SeedNames(rows, Rank2));
    var m34, m58 := multiset(SeedNames(rows, Rank34)), multiset(SeedNames(rows, Rank58));
    var x := multiset{r.name};
    if r.seed == Some(Rank1) {
      assert SeedMultiset(rows + [r]) == (m1 + x) + m2 + m34 + m58;
    } else if r.seed == Some(Rank2) {
      assert SeedMultiset(rows + [r]) == m1 + (m2 + x) + m34 + m58;
    } else if r.seed == Some(Rank34) {
      assert SeedMultiset(rows + [r]) == m1 + m2 + (m34 + x) + m58;
    } else if r.seed == Some(Rank58) {
      assert SeedMultiset(rows + [r]) == m1 + m2 + m34 + (m58 + x);
    }
  }

  lemma {:induction false} FlattenEmpty(n: nat)
    ensures Flatten(Repeat<seq<Name>>([], n)) == []
  {
    if n > 0 {
      assert Repeat<seq<Name>>([], n)[..n - 1] == Repeat<seq<Name>>([], n - 1);
      FlattenEmpty(n - 1);
    }
  }

  /** Rows that all carry seed 1, 2, 3/4 or 5/8 are counted once each by the four lists of
      names; a row with another seed text is counted by none of them. */
  lemma {:induction false} RankedRowsNames(rows: seq<PlayerRecord>)
    ensures (forall i :: 0 <= i < |rows| ==> rows[i].seed.Some? && !rows[i].seed.value.OtherSeed?) ==>
      multiset(Names(rows)) == SeedMultiset(rows)
    ensures (exists i :: 0 <= i < |rows| && rows[i].seed.Some? && rows[i].seed.value.OtherSeed?) ==>
      |SeedMultiset(rows)| < |rows|
    ensures |SeedMultiset(rows)| <= |rows|
  {
    if rows != [] {
      var init, r := rows[..|rows| - 1], rows[|rows| - 1];
      assert rows == init + [r];
      RankedRowsNames(init);
      SeedMultisetSnoc(init, r);
      RankedRowsStep(init, r);
    }
  }

  lemma RankedRowsStep(init: seq<PlayerRecord>, r: PlayerRecord)
    requires (forall i :: 0 <= i < |init| ==> init[i].seed.Some? && !init[i].seed.value.OtherSeed?) ==>
      multiset(Names(init)) == SeedMultiset(init)
    requires (exists i :: 0 <= i < |init| && init[i].seed.Some? && init[i].seed.value.OtherSeed?) ==>
      |SeedMultiset(init)| < |init|
    requires |SeedMultiset(init)| <= |init|
    requires SeedMultiset(init + [r])
      == SeedMultiset(init) + if r.seed.Some? && !r.seed.value.OtherSeed? then multiset{r.name} else multiset{}
    ensures (forall i :: 0 <= i < |init + [r]| ==> (init + [r])[i].seed.Some? && !(init + [r])[i].seed.value.OtherSeed?) ==>
      multiset(Names(init + [r])) == SeedMultiset(init + [r])
    ensures (exists i :: 0 <= i < |init + [r]| && (init + [r])[i].seed.Some? && (init + [r])[i].seed.value.OtherSeed?) ==>
      |SeedMultiset(init + [r])| < |init + [r]|
    ensures |SeedMultiset(init + [r])| <= |init + [r]|
  {
    var rows := init + [r];
    if forall i :: 0 <= i < |rows| ==> rows[i].seed.Some? && !rows[i].seed.value.OtherSeed? {
      assert forall i :: 0 <= i < |init| ==> init[i] == rows[i];
      assert rows[|init|] == r;
      assert Names(rows) == Names(init) + [r.name];
    }
    if exists i :: 0 <= i < |rows| && rows[i].seed.Some? && rows[i].seed.value.OtherSeed? {
      var i :| 0 <= i < |rows| && rows[i].seed.Some? && rows[i].seed.value.OtherSeed?;
      if i < |init| { assert init[i] == rows[i]; }
    }
  }

  /** The dealing position before group n plus the players already in groups 0..n-1 is the
      number of places of those groups. */
  lemma {:induction false} FreeBeforeCount(groups: Assignment, sizes: seq<nat>, n: nat)
    requires FitsSizes(groups, sizes) && n <= |groups|
    ensures FreeBefore(groups, sizes, n) + |Flatten(groups[..n])| == SumNat(sizes[..n])
  {
    if n > 0 {
      FreeBeforeCount(groups, sizes, n - 1);
      assert groups[..n][..n - 1] == groups[..n - 1];
      assert sizes[..n][..n - 1] == sizes[..n - 1];
    }
  }

  /** The dealt draw holds the seeded players and as many dealt players as the free places
      before group n ask for, or the whole deal when it is shorter. */
  lemma {:induction false} FilledCount(groups: Assignment, sizes: seq<nat>, shuffled: seq<Name>, n: nat)
    requires FitsSizes(groups, sizes) && n <= |groups|
    ensures |Flatten(Filled(groups, sizes, shuffled)[..n])|
      == |Flatten(groups[..n])| + Min(FreeBefore(groups, sizes, n), |shuffled|)
  {
    var a := Filled(groups, sizes, shuffled);
    var dealt := seq(|groups| + 1, i requires 0 <= i <= |groups| => Min(FreeBefore(groups, sizes, i), |shuffled|));
    forall i | 0 <= i < |groups| ensures |a[i]| == |groups[i]| + dealt[i + 1] - dealt[i] {
      GroupCount(groups, sizes, shuffled, i);
    }
    PrefixCount(a, groups, dealt, n);
  }

  /** Groups that each hold their seeded players plus `dealt[i + 1] - dealt[i]` more hold,
      up to group n, the seeded players plus `dealt[n] - dealt[0]` more. */
  lemma {:induction false} PrefixCount(a: Assignment, groups: Assignment, dealt: seq<int>, n: nat)
    requires |a| == |groups| && |dealt| == |groups| + 1 && n <= |groups|
    requires forall i :: 0 <= i < |groups| ==> |a[i]| == |groups[i]| + dealt[i + 1] - dealt[i]
    ensures |Flatten(a[..n])| == |Flatten(groups[..n])| + dealt[n] - dealt[0]
  {
    if n > 0 {
      PrefixCount(a, groups, dealt, n - 1);
      FlattenSnocLength(a, n);
      FlattenSnocLength(groups, n);
    }
  }

  /** Group i gets its seeded players and the part of the deal between the dealing index
      before it and the one after it, cut off at the end of the list. */
  lemma GroupCount(groups: Assignment, sizes: seq<nat>, shuffled: seq<Name>, i: nat)
    requires FitsSizes(groups, sizes) && i < |groups|
    ensures |Filled(groups, sizes, shuffled)[i]| == |groups[i]|
      + Min(FreeBefore(groups, sizes, i + 1), |shuffled|) - Min(FreeBefore(groups, sizes, i), |shuffled|)
  {
    FilledEntry(groups, sizes, shuffled, i);
    SliceLength(shuffled, FreeBefore(groups, sizes, i), sizes[i] - |groups[i]|);
  }

  lemma FilledEntry(groups: Assignment, sizes: seq<nat>, shuffled: seq<Name>, i: nat)
    requires FitsSizes(groups, sizes) && i < |groups|
    ensures Filled(groups, sizes, shuffled)[i]
      == groups[i] + Slice(shuffled, FreeBefore(groups, sizes, i), sizes[i] - |groups[i]|)
  {
  }

  lemma SliceLength(s: seq<Name>, from: nat, n: nat)
    ensures |Slice(s, from, n)| == Min(from + n, |s|) - Min(from, |s|)
  {
  }

  lemma FlattenSnocLength(ss: seq<seq<Name>>, n: nat)
    requires 0 < n <= |ss|
    ensures |Flatten(ss[..n])| == |Flatten(ss[..n - 1])| + |ss[n - 1]|
  {
    assert ss[..n][..n - 1] == ss[..n - 1];
  }

  /** The seeded start of the set-up fits `GroupSizes`: at most one seeded player per group. */
  lemma RosterStartFits(roster: seq<PlayerRecord>, order34: seq<nat>, order58: seq<nat>,
                        groups: Assignment, shuffles: seq<seq<Name>>)
    requires RosterStart(roster, order34, order58, groups, shuffles)
    ensures FitsSizes(groups, GroupSizes)
  {
    var seeded := SeededRows(roster);
    SeedNamesOfSeeded(roster, Rank1);
    SeedNamesOfSeeded(roster, Rank2);
    SeedGroupsLayout(seeded, order34, order58);
    SeedStartFixed(roster, seeded, groups, order34, order58);
  }

  /** The free places of the set-up's start plus its seeded players are the roster's length. */
  lemma RosterStartFree(roster: seq<PlayerRecord>, order34: seq<nat>, order58: seq<nat>,
                        groups: Assignment, shuffles: seq<seq<Name>>)
    requires RosterStart(roster, order34, order58, groups, shuffles)
    ensures FitsSizes(groups, GroupSizes)
    ensures FreeBefore(groups, GroupSizes, NGroups) + |SeedMultiset(SeededRows(roster))| == |roster|
    ensures multiset(Flatten(groups)) == SeedMultiset(SeededRows(roster))
  {
    RosterStartFits(roster, order34, order58, groups, shuffles);
    SeedGroupsPlayers(SeededRows(roster), order34, order58);
    FreeBeforeCount(groups, GroupSizes, NGroups);
    assert groups[..NGroups] == groups && GroupSizes[..NGroups] == GroupSizes;
    assert |Flatten(groups)| == |multiset(Flatten(groups))|;
  }

  /** The count facts of the set-up: the seeded start fits `GroupSizes`. With only ranked
      seeds, the free places are exactly the unseeded players and the start plus them is the
      roster; with another seed text there are more free places than unseeded players. */
  lemma RosterStartCounts(roster: seq<PlayerRecord>, order34: seq<nat>, order58: seq<nat>,
                          groups: Assignment, shuffles: seq<seq<Name>>)
    requires RosterStart(roster, order34, order58, groups, shuffles)
    ensures FitsSizes(groups, GroupSizes)
    ensures RankedSeeds(roster) ==>
      && FreeBefore(groups, GroupSizes, NGroups) == |UnseededNames(roster)|
      && multiset(Flatten(groups)) + multiset(UnseededNames(roster)) == multiset(Names(roster))
    ensures !RankedSeeds(roster) ==> FreeBefore(groups, GroupSizes, NGroups) > |UnseededNames(roster)|
  {
    var seeded := SeededRows(roster);
    RosterStartFree(roster, order34, order58, groups, shuffles);
    RosterSplit(roster);
    RankedRowsNames(seeded);
    if RankedSeeds(roster) {
      forall i | 0 <= i < |seeded| ensures seeded[i].seed.Some? && !seeded[i].seed.value.OtherSeed? {
        assert seeded[i] in seeded;
      }
      assert |Names(seeded)| == |multiset(Names(seeded))|;
    } else {
      var i :| 0 <= i < |roster| && roster[i].seed.Some? && roster[i].seed.value.OtherSeed?;
      assert roster[i] in seeded;
      var j :| 0 <= j < |seeded| && seeded[j] == roster[i];
    }
  }

  /** `random_assignment` on the set-up's outputs, with only ranked seeds: every try can be
      dealt, and a start it finds puts exactly `group_sizes[i]` players into group i and
      every roster player into the draw as often as on the roster. */
  lemma FirstValidFromRoster(roster: seq<PlayerRecord>, order34: seq<nat>, order58: seq<nat>,
                             groups: Assignment, fixed: set<Name>, shuffles: seq<seq<Name>>)
    requires RosterStart(roster, order34, order58, groups, shuffles) && RankedSeeds(roster)
    ensures Dealable(groups, GroupSizes, ClubMap(roster), shuffles)
    ensures FirstValid(groups, GroupSizes, ClubMap(roster), fixed, shuffles).Some? ==>
      var a := FirstValid(groups, GroupSizes, ClubMap(roster), fixed, shuffles).value;
      && |a| == NGroups && (forall i :: 0 <= i < NGroups ==> |a[i]| == GroupSizes[i])
      && multiset(Flatten(a)) == multiset(Names(roster))
      && Placed(a, ClubMap(roster)) && ValidAssignment(a, ClubMap(roster), fixed)
  {
    var clubs := ClubMap(roster);
    RosterStartCounts(roster, order34, order58, groups, shuffles);
    forall x | x in multiset(Names(roster)) ensures x in clubs {
      var i :| 0 <= i < |roster| && Names(roster)[i] == x;
    }
    forall g, i | 0 <= g < |groups| && 0 <= i < |groups[g]| ensures groups[g][i] in clubs {
      Moves.FlattenUpdate(groups, g, groups[g]);
      MemberOfFlatten(groups, g, i);
    }
    forall t, k | 0 <= t < |shuffles| && 0 <= k < |shuffles[t]| ensures shuffles[t][k] in clubs {
      assert shuffles[t][k] in multiset(shuffles[t]);
    }
    assert Dealable(groups, GroupSizes, clubs, shuffles);
    FirstValidFound(groups, GroupSizes, clubs, fixed, shuffles);
    if FirstValid(groups, GroupSizes, clubs, fixed, shuffles).Some? {
      var a := FirstValid(groups, GroupSizes, clubs, fixed, shuffles).value;
      var t :| 0 <= t < |shuffles| && FirstValidAt(groups, GroupSizes, clubs, fixed, shuffles, t, a);
      assert |shuffles[t]| == |multiset(shuffles[t])|;
      FilledExact(groups, GroupSizes, shuffles[t]);
    }
  }

  /** A player of one group is a player of the draw. */
  lemma MemberOfFlatten(a: Assignment, g: nat, i: nat)
    requires g < |a| && i < |a[g]|
    ensures a[g][i] in multiset(Flatten(a))
  {
    Moves.FlattenUpdate(a, g, []);
    assert a[g][i] in multiset(a[g]);
  }

  /** As the source is written, a seeded row with another seed text (say "9/16") passes the
      configuration asserts, counts as fixed, and is placed nowhere; the deal then runs out
      before the last group is full, and the start has fewer players than the roster. */
  lemma OtherSeedLeavesGap(roster: seq<PlayerRecord>, order34: seq<nat>, order58: seq<nat>,
                           groups: Assignment, shuffles: seq<seq<Name>>, t: nat)
    requires RosterStart(roster, order34, order58, groups, shuffles) && !RankedSeeds(roster)
    requires t < |shuffles|
    ensures FitsSizes(groups, GroupSizes)
    ensures |Filled(groups, GroupSizes, shuffles[t])[NGroups - 1]| < GroupSizes[NGroups - 1]
    ensures |Flatten(Filled(groups, GroupSizes, shuffles[t]))| < |roster|
  {
    var shuffled := shuffles[t];
    RosterStartCounts(roster, order34, order58, groups, shuffles);
    RosterStartFree(roster, order34, order58, groups, shuffles);
    assert |shuffled| == |multiset(shuffled)|;
    assert |Flatten(groups)| == |multiset(Flatten(groups))|;
    FilledCount(groups, GroupSizes, shuffled, NGroups);
    var a := Filled(groups, GroupSizes, shuffled);
    assert a[..NGroups] == a && groups[..NGroups] == groups;
    SeedGroupsLayout(SeededRows(roster), order34, order58);
    LastGroupShort(groups, shuffled);
  }

  /** A last group that starts empty is dealt in full only when the deal reaches as far as
      the free places of all groups. */
  lemma LastGroupShort(groups: Assignment, shuffled: seq<Name>)
    requires FitsSizes(groups, GroupSizes) && groups[NGroups - 1] == []
    requires FreeBefore(groups, GroupSizes, NGroups) > |shuffled|
    ensures |Filled(groups, GroupSizes, shuffled)[NGroups - 1]| < GroupSizes[NGroups - 1]
  {
  }
}
