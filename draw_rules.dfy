/** The optimiser's constraint model: the roster, configuration checks, placement of the
    seeded players and the validity test for an assignment of players to groups A..K. */
module DrawRules {
  import opened Common
  import opened Bracket

  type Name = string
  type Club = string

  /** Group index (0 = A, ..., 10 = K) to list of player names. */
  type Assignment = seq<seq<Name>>

  /** A non-empty Seed cell, by its text `str(Seed)`: "1", "2", "3/4", "5/8", or any other
      text (which marks the player as fixed but places it nowhere). */
  datatype Seed = Rank1 | Rank2 | Rank34 | Rank58 | OtherSeed(text: string)

  /** Classifies the text of a Seed cell. */
  function SeedOf(text: string): (s: Seed)
    ensures s == Rank1 <==> text == "1"
    ensures s == Rank2 <==> text == "2"
    ensures s == Rank34 <==> text == "3/4"
    ensures s == Rank58 <==> text == "5/8"
    ensures s.OtherSeed? ==> s.text == text
  {
    if text == "1" then Rank1
    else if text == "2" then Rank2
    else if text == "3/4" then Rank34
    else if text == "5/8" then Rank58
    else OtherSeed(text)
  }

  /** One spreadsheet row of the roster. `club` is None for an empty cell; `seed` is None
      for an empty cell and otherwise the classified text of the cell. */
  datatype PlayerRecord = PlayerRecord(name: Name, club: Option<string>, seed: Option<Seed>)

  /** Capacities of groups A..K: three places each, four in G. */
  const GroupSizes: seq<nat> := [3, 3, 3, 3, 3, 3, 4, 3, 3, 3, 3]


  /** Club of a roster row: an empty cell becomes "UNKNOWN", text is stripped. */
  function ClubOf(r: PlayerRecord): Club
  {
    if r.club.None? then "UNKNOWN" else Strip(r.club.value)
  }

  /** `dict(zip(Name, Club))`: a later row with the same name overrides an earlier one. */
  function ClubMap(roster: seq<PlayerRecord>): (m: map<Name, Club>)
    ensures m.Keys == set i | 0 <= i < |roster| :: roster[i].name
  {
    if roster == [] then map[]
    else
      var last := roster[|roster| - 1];
      var m := ClubMap(roster[..|roster| - 1]);
      assert forall i :: 0 <= i < |roster| - 1 ==> roster[..|roster| - 1][i] == roster[i];
      m[last.name := ClubOf(last)]
  }

  /** `df["Name"].tolist()`. */
  function Names(roster: seq<PlayerRecord>): (s: seq<Name>)
    ensures |s| == |roster| && forall i :: 0 <= i < |roster| ==> s[i] == roster[i].name
  {
    seq(|roster|, i requires 0 <= i < |roster| => roster[i].name)
  }

  /** Names of the seeded (non-empty seed cell) players: they never move. */
  function FixedPlayers(roster: seq<PlayerRecord>): (f: set<Name>)
    ensures forall x :: x in f <==> exists i :: 0 <= i < |roster| && roster[i].seed.Some? && roster[i].name == x
  {
    set i | 0 <= i < |roster| && roster[i].seed.Some? :: roster[i].name
  }

  /** `df[df["Seed"].notna()]`: the rows with a seed, in roster order. */
  function SeededRows(roster: seq<PlayerRecord>): (s: seq<PlayerRecord>)
    ensures forall r :: r in s <==> r in roster && r.seed.Some?
    ensures |s| <= |roster|
  {
    if roster == [] then []
    else
      var rest := SeededRows(roster[..|roster| - 1]);
      var last := roster[|roster| - 1];
      assert roster == roster[..|roster| - 1] + [last];
      if last.seed.Some? then rest + [last] else rest
  }

  /** `df[df["Seed"].isna()]["Name"]`: the names of the rows without a seed, in roster order. */
  function UnseededNames(roster: seq<PlayerRecord>): (s: seq<Name>)
    ensures forall x :: x in s <==> exists i :: 0 <= i < |roster| && roster[i].seed.None? && roster[i].name == x
    ensures |s| <= |roster|
  {
    if roster == [] then []
    else
      var init := roster[..|roster| - 1];
      var rest := UnseededNames(init);
      var last := roster[|roster| - 1];
      assert forall i :: 0 <= i < |init| ==> init[i] == roster[i];
      if last.seed.None? then rest + [last.name] else rest
  }

  /** `s` holds, in roster order, the rows at the increasing indices `idx`, and `idx` holds
      exactly the indices of the rows with a seed. */
  ghost predicate PicksSeeded(roster: seq<PlayerRecord>, s: seq<PlayerRecord>, idx: seq<nat>)
  {
    && |idx| == |s|
    && (forall k :: 0 <= k < |idx| ==> idx[k] < |roster| && s[k] == roster[idx[k]])
    && (forall k, l :: 0 <= k < l < |idx| ==> idx[k] < idx[l])
    && (forall i :: 0 <= i < |roster| ==> (roster[i].seed.Some? <==> i in idx))
  }

  /** `s` holds, in roster order, the names of the rows at the increasing indices `idx`,
      and `idx` holds exactly the indices of the rows without a seed. */
  ghost predicate PicksUnseeded(roster: seq<PlayerRecord>, s: seq<Name>, idx: seq<nat>)
  {
    && |idx| == |s|
    && (forall k :: 0 <= k < |idx| ==> idx[k] < |roster| && s[k] == roster[idx[k]].name)
    && (forall k, l :: 0 <= k < l < |idx| ==> idx[k] < idx[l])
    && (forall i :: 0 <= i < |roster| ==> (roster[i].seed.None? <==> i in idx))
  }

  /** The seeded rows are the roster filtered on a non-empty seed: every seeded row, once,
      in roster order, and nothing else. */
  lemma {:induction false} SeededRowsFilter(roster: seq<PlayerRecord>)
    ensures exists idx :: PicksSeeded(roster, SeededRows(roster), idx)
  {
    if roster == [] {
      assert SeededRows(roster) == [];
      assert PicksSeeded(roster, [], []);
    } else {
      var n := |roster| - 1;
      var init, last := roster[..n], roster[n];
      SeededRowsFilter(init);
      var idx :| PicksSeeded(init, SeededRows(init), idx);
      assert roster == init + [last];
      PicksSeededSnoc(init, last, SeededRows(init), idx);
      if last.seed.Some? {
        assert SeededRows(roster) == SeededRows(init) + [last];
        assert PicksSeeded(roster, SeededRows(roster), idx + [n]);
      } else {
        assert SeededRows(roster) == SeededRows(init);
        assert PicksSeeded(roster, SeededRows(roster), idx);
      }
    }
  }

  lemma PicksSeededSnoc(init: seq<PlayerRecord>, last: PlayerRecord, s: seq<PlayerRecord>, idx: seq<nat>)
    requires PicksSeeded(init, s, idx)
    ensures last.seed.Some? ==> PicksSeeded(init + [last], s + [last], idx + [|init|])
    ensures last.seed.None? ==> PicksSeeded(init + [last], s, idx)
  {
    var roster, n := init + [last], |init|;
    var s', idx' := if last.seed.Some? then s + [last] else s, if last.seed.Some? then idx + [n] else idx;
    forall k | 0 <= k < |idx'| ensures idx'[k] < |roster| && s'[k] == roster[idx'[k]] {
      if k < |idx| { assert idx'[k] == idx[k] && s'[k] == s[k] && init[idx[k]] == roster[idx[k]]; }
    }
    forall i | 0 <= i < |roster| ensures (roster[i].seed.Some? <==> i in idx') {
      if i < n { assert init[i] == roster[i]; } else { assert n !in idx; }
    }
    assert PicksSeeded(roster, s', idx');
  }

  /** The unseeded names are the roster's names filtered on an empty seed: every unseeded
      row's name, once per row, in roster order, and nothing else. */
  lemma {:induction false} UnseededNamesFilter(roster: seq<PlayerRecord>)
    ensures exists idx :: PicksUnseeded(roster, UnseededNames(roster), idx)
  {
    if roster == [] {
      assert UnseededNames(roster) == [];
      assert PicksUnseeded(roster, [], []);
    } else {
      var n := |roster| - 1;
      var init, last := roster[..n], roster[n];
      UnseededNamesFilter(init);
      var idx :| PicksUnseeded(init, UnseededNames(init), idx);
      assert roster == init + [last];
      PicksUnseededSnoc(init, last, UnseededNames(init), idx);
      if last.seed.None? {
        assert UnseededNames(roster) == UnseededNames(init) + [last.name];
        assert PicksUnseeded(roster, UnseededNames(roster), idx + [n]);
      } else {
        assert UnseededNames(roster) == UnseededNames(init);
        assert PicksUnseeded(roster, UnseededNames(roster), idx);
      }
    }
  }

  lemma PicksUnseededSnoc(init: seq<PlayerRecord>, last: PlayerRecord, s: seq<Name>, idx: seq<nat>)
    requires PicksUnseeded(init, s, idx)
    ensures last.seed.None? ==> PicksUnseeded(init + [last], s + [last.name], idx + [|init|])
    ensures last.seed.Some? ==> PicksUnseeded(init + [last], s, idx)
  {
    var roster, n := init + [last], |init|;
    var s', idx' := if last.seed.None? then s + [last.name] else s, if last.seed.None? then idx + [n] else idx;
    forall k | 0 <= k < |idx'| ensures idx'[k] < |roster| && s'[k] == roster[idx'[k]].name {
      if k < |idx| { assert idx'[k] == idx[k] && s'[k] == s[k] && init[idx[k]] == roster[idx[k]]; }
    }
    forall i | 0 <= i < |roster| ensures (roster[i].seed.None? <==> i in idx') {
      if i < n { assert init[i] == roster[i]; } else { assert n !in idx; }
    }
    assert PicksUnseeded(roster, s', idx');
  }

  /** Every row is seeded or not: the names of the seeded rows and the unseeded names are,
      together, the roster's names, each as often as in the roster. */
  lemma {:induction false} RosterSplit(roster: seq<PlayerRecord>)
    ensures multiset(Names(SeededRows(roster))) + multiset(UnseededNames(roster)) == multiset(Names(roster))
    ensures |SeededRows(roster)| + |UnseededNames(roster)| == |roster|
  {
    if roster != [] {
      var n := |roster| - 1;
      var init, last := roster[..n], roster[n];
      RosterSplit(init);
      assert Names(roster) == Names(init) + [last.name];
      if last.seed.Some? {
        assert Names(SeededRows(roster)) == Names(SeededRows(init)) + [last.name];
      }
    }
  }

  /** `fixed_players` is built from the seeded rows: exactly their names. */
  lemma FixedAreSeededNames(roster: seq<PlayerRecord>)
    ensures FixedPlayers(roster) == set r | r in SeededRows(roster) :: r.name
  {
    forall x | x in FixedPlayers(roster) ensures x in set r | r in SeededRows(roster) :: r.name {
      var i :| 0 <= i < |roster| && roster[i].seed.Some? && roster[i].name == x;
      assert roster[i] in SeededRows(roster);
    }
    forall x | x in set r | r in SeededRows(roster) :: r.name ensures x in FixedPlayers(roster) {
      var r :| r in SeededRows(roster) && r.name == x;
      var i :| 0 <= i < |roster| && roster[i] == r;
    }
  }

  /** Names of the rows whose seed text is `tag`, in order. */
  function SeedNames(rows: seq<PlayerRecord>, tag: Seed): (s: seq<Name>)
    ensures |s| <= |rows|
  {
    if rows == [] then []
    else
      var rest := SeedNames(rows[..|rows| - 1], tag);
      var last := rows[|rows| - 1];
      if last.seed == Some(tag) then rest + [last.name] else rest
  }

  // ---------------------------------------------------------------------------
  // Configuration check (the assertions run before any draw)

  datatype ConfigError =
    | SizeSumMismatch     // sum of group sizes differs from the player count
    | SeedOneCount        // not exactly one seed 1
    | SeedTwoCount        // not exactly one seed 2
    | SeedThreeFourCount  // not exactly two seeds 3/4
    | SeedFiveEightCount  // not exactly four seeds 5/8

  /** The first configuration assertion that fails, if any. */
  function CheckConfig(roster: seq<PlayerRecord>, sizes: seq<nat>): (e: Option<ConfigError>)
    ensures e == None <==>
      && SumNat(sizes) == |roster|
      && |SeedNames(roster, Rank1)| == 1 && |SeedNames(roster, Rank2)| == 1
      && |SeedNames(roster, Rank34)| == 2 && |SeedNames(roster, Rank58)| == 4
    ensures e == Some(SizeSumMismatch) <==> SumNat(sizes) != |roster|
  {
    if SumNat(sizes) != |roster| then Some(SizeSumMismatch)
    else if |SeedNames(roster, Rank1)| != 1 then Some(SeedOneCount)
    else if |SeedNames(roster, Rank2)| != 1 then Some(SeedTwoCount)
    else if |SeedNames(roster, Rank34)| != 2 then Some(SeedThreeFourCount)
    else if |SeedNames(roster, Rank58)| != 4 then Some(SeedFiveEightCount)
    else None
  }

  // ---------------------------------------------------------------------------
  // Seed placement

  /** `p` is an ordering of the group indices lo, ..., lo + n - 1 (what `random.shuffle`
      may produce from that list). */
  predicate IsShuffleOf(p: seq<nat>, lo: nat, n: nat)
  {
    && |p| == n
    && (forall i :: 0 <= i < n ==> lo <= p[i] < lo + n)
    && (forall i, j :: 0 <= i < j < n ==> p[i] != p[j])
  }

  /** The two shuffled pools: groups C, D (indices 2, 3) for the 3/4 seeds and groups
      E, F, G, H (indices 4..7) for the 5/8 seeds. */
  predicate ShuffledPools(order34: seq<nat>, order58: seq<nat>)
  {
    IsShuffleOf(order34, 2, 2) && IsShuffleOf(order58, 4, 4)
  }

  /** The k-th name of `s` as a one-element group, or an empty group if there is none. */
  function Slot(s: seq<Name>, k: nat): (g: seq<Name>)
    ensures k < |s| ==> g == [s[k]]
    ensures k >= |s| ==> g == []
  {
    if k < |s| then [s[k]] else []
  }

  /** The groups after the seeded rows `rows` have been placed: seed 1 rows in A, seed 2
      rows in B; the lists of pool groups are popped from the end, so the first 3/4 row sits
      alone in `order34[1]`, the second in `order34[0]`, the k-th 5/8 row alone in
      `order58[3 - k]`; pool groups not yet drawn and groups I, J, K are empty. */
  ghost predicate SeedLayout(groups: Assignment, rows: seq<PlayerRecord>, order34: seq<nat>, order58: seq<nat>)
    requires ShuffledPools(order34, order58)
  {
    var s34, s58 := SeedNames(rows, Rank34), SeedNames(rows, Rank58);
    && |groups| == NGroups
    && groups[0] == SeedNames(rows, Rank1) && groups[1] == SeedNames(rows, Rank2)
    && groups[order34[1]] == Slot(s34, 0) && groups[order34[0]] == Slot(s34, 1)
    && groups[order58[3]] == Slot(s58, 0) && groups[order58[2]] == Slot(s58, 1)
    && groups[order58[1]] == Slot(s58, 2) && groups[order58[0]] == Slot(s58, 3)
    && groups[8] == [] && groups[9] == [] && groups[10] == []
  }

  /** The pool lists still to be popped after `rows`: each placed 3/4 row has taken one
      group from the end of `order34`, each 5/8 row one from the end of `order58`. */
  ghost predicate PoolsLeft(pool34: seq<nat>, pool58: seq<nat>, rows: seq<PlayerRecord>,
                            order34: seq<nat>, order58: seq<nat>)
    requires ShuffledPools(order34, order58)
  {
    var c34, c58 := |SeedNames(rows, Rank34)|, |SeedNames(rows, Rank58)|;
    c34 <= 2 && pool34 == order34[..2 - c34] && c58 <= 4 && pool58 == order58[..4 - c58]
  }

  /** The groups after the seeded rows `rows` have been placed one by one (the
      specification of `PlaceSeeds`). */
  ghost function SeedGroups(rows: seq<PlayerRecord>, order34: seq<nat>, order58: seq<nat>): (groups: Assignment)
    requires ShuffledPools(order34, order58)
    requires |SeedNames(rows, Rank34)| <= 2 && |SeedNames(rows, Rank58)| <= 4
    ensures |groups| == NGroups
  {
    if rows == [] then Repeat([], NGroups)
    else
      var init, r := rows[..|rows| - 1], rows[|rows| - 1];
      var prev := SeedGroups(init, order34, order58);
      var c34, c58 := |SeedNames(init, Rank34)|, |SeedNames(init, Rank58)|;
      if r.seed == Some(Rank1) then prev[0 := prev[0] + [r.name]]
      else if r.seed == Some(Rank2) then prev[1 := prev[1] + [r.name]]
      else if r.seed == Some(Rank34) then
        var g := order34[1 - c34]; prev[g := prev[g] + [r.name]]
      else if r.seed == Some(Rank58) then
        var g := order58[3 - c58]; prev[g := prev[g] + [r.name]]
      else prev
  }

  /** Puts the seeded players into their groups: seed 1 into A, seed 2 into B, each 3/4
      seed into the group popped from the end of the shuffled list [C, D], each 5/8 seed
      into the group popped from the shuffled [E, F, G, H]. Rows with another seed text are
      not placed. */
  method PlaceSeeds(seeded: seq<PlayerRecord>, order34: seq<nat>, order58: seq<nat>)
    returns (groups: Assignment)
    requires ShuffledPools(order34, order58)
    requires |SeedNames(seeded, Rank34)| <= 2 && |SeedNames(seeded, Rank58)| <= 4
    ensures groups == SeedGroups(seeded, order34, order58)
    ensures SeedLayout(groups, seeded, order34, order58)
  {
    groups := Repeat([], NGroups);
    var pool34, pool58 := order34, order58;
    var i := 0;
    assert seeded[..0] == [];
    while i < |seeded|
      invariant 0 <= i <= |seeded|
      invariant Placing(seeded, i, groups, pool34, pool58, order34, order58)
    {
      groups, pool34, pool58 := PlaceRow(seeded, i, groups, pool34, pool58, order34, order58);
      i := i + 1;
    }
    assert seeded[..i] == seeded;
    SeedGroupsLayout(seeded, order34, order58);
  }

  /** The state of the placement loop after the first `i` seeded rows. */
  ghost predicate Placing(seeded: seq<PlayerRecord>, i: nat, groups: Assignment, pool34: seq<nat>, pool58: seq<nat>,
                          order34: seq<nat>, order58: seq<nat>)
  {
    && ShuffledPools(order34, order58) && i <= |seeded|
    && |SeedNames(seeded, Rank34)| <= 2 && |SeedNames(seeded, Rank58)| <= 4
    && |SeedNames(seeded[..i], Rank34)| <= 2 && |SeedNames(seeded[..i], Rank58)| <= 4
    && PoolsLeft(pool34, pool58, seeded[..i], order34, order58)
    && groups == SeedGroups(seeded[..i], order34, order58)
  }

  /** Places row `i`: seed 1 at the end of A, seed 2 at the end of B, a 3/4 or 5/8 seed
      into the group popped from the end of its pool; any other row is skipped. */
  method PlaceRow(seeded: seq<PlayerRecord>, i: nat, groups: Assignment, pool34: seq<nat>, pool58: seq<nat>,
                  order34: seq<nat>, order58: seq<nat>)
    returns (groups': Assignment, pool34': seq<nat>, pool58': seq<nat>)
    requires i < |seeded| && Placing(seeded, i, groups, pool34, pool58, order34, order58)
    ensures Placing(seeded, i + 1, groups', pool34', pool58', order34, order58)
  {
    var r := seeded[i];
    SeedNamesBound(seeded, i + 1, Rank34);
    SeedNamesBound(seeded, i + 1, Rank58);
    SeedNamesPrefix(seeded, i, Rank34);
    SeedNamesPrefix(seeded, i, Rank58);
    assert seeded[..i + 1][..i] == seeded[..i];
    ghost var c34, c58 := |SeedNames(seeded[..i], Rank34)|, |SeedNames(seeded[..i], Rank58)|;
    groups', pool34', pool58' := groups, pool34, pool58;
    if r.seed == Some(Rank1) {
      groups' := groups[0 := groups[0] + [r.name]];
    } else if r.seed == Some(Rank2) {
      groups' := groups[1 := groups[1] + [r.name]];
    } else if r.seed == Some(Rank34) {
      var g := pool34[|pool34| - 1];
      assert g == order34[1 - c34];
      pool34' := pool34[..|pool34| - 1];
      assert pool34' == order34[..2 - (c34 + 1)];
      groups' := groups[g := groups[g] + [r.name]];
    } else if r.seed == Some(Rank58) {
      var g := pool58[|pool58| - 1];
      assert g == order58[3 - c58];
      pool58' := pool58[..|pool58| - 1];
      assert pool58' == order58[..4 - (c58 + 1)];
      groups' := groups[g := groups[g] + [r.name]];
    }
  }

  /** The placement puts each seeded row where the layout says. */
  lemma {:induction false} SeedGroupsLayout(rows: seq<PlayerRecord>, order34: seq<nat>, order58: seq<nat>)
    requires ShuffledPools(order34, order58)
    requires |SeedNames(rows, Rank34)| <= 2 && |SeedNames(rows, Rank58)| <= 4
    ensures SeedLayout(SeedGroups(rows, order34, order58), rows, order34, order58)
    decreases |rows|
  {
    if rows == [] {
    } else {
      var init, r := rows[..|rows| - 1], rows[|rows| - 1];
      assert rows == init + [r];
      SeedNamesSnoc(init, r, Rank34);
      SeedNamesSnoc(init, r, Rank58);
      SeedGroupsLayout(init, order34, order58);
      var prev := SeedGroups(init, order34, order58);
      if r.seed == Some(Rank1) {
        PlaceRank(prev, init, r, order34, order58, 0);
      } else if r.seed == Some(Rank2) {
        PlaceRank(prev, init, r, order34, order58, 1);
      } else if r.seed == Some(Rank34) {
        PlaceThreeFour(prev, init, r, order34, order58);
      } else if r.seed == Some(Rank58) {
        PlaceFiveEight(prev, init, r, order34, order58);
      } else {
        PlaceOther(prev, init, r, order34, order58);
      }
    }
  }

  lemma SeedNamesSnoc(rows: seq<PlayerRecord>, r: PlayerRecord, tag: Seed)
    ensures SeedNames(rows + [r], tag) == SeedNames(rows, tag) + (if r.seed == Some(tag) then [r.name] else [])
  {
    assert (rows + [r])[..|rows + [r]| - 1] == rows;
  }

  /** A seed 1 or seed 2 row goes to the end of group A or B. */
  lemma PlaceRank(groups: Assignment, rows: seq<PlayerRecord>, r: PlayerRecord, order34: seq<nat>, order58: seq<nat>, g: nat)
    requires ShuffledPools(order34, order58)
    requires SeedLayout(groups, rows, order34, order58)
    requires (g == 0 && r.seed == Some(Rank1)) || (g == 1 && r.seed == Some(Rank2))
    ensures SeedLayout(groups[g := groups[g] + [r.name]], rows + [r], order34, order58)
  {
    SeedNamesSnoc(rows, r, Rank1);
    SeedNamesSnoc(rows, r, Rank2);
    SeedNamesSnoc(rows, r, Rank34);
    SeedNamesSnoc(rows, r, Rank58);
  }

  /** A 3/4 row goes alone into the next group of the shuffled [C, D]. */
  lemma PlaceThreeFour(groups: Assignment, rows: seq<PlayerRecord>, r: PlayerRecord, order34: seq<nat>, order58: seq<nat>)
    requires ShuffledPools(order34, order58)
    requires SeedLayout(groups, rows, order34, order58)
    requires r.seed == Some(Rank34) && |SeedNames(rows, Rank34)| < 2
    ensures var g := order34[1 - |SeedNames(rows, Rank34)|];
      SeedLayout(groups[g := groups[g] + [r.name]], rows + [r], order34, order58)
  {
    SeedNamesSnoc(rows, r, Rank1);
    SeedNamesSnoc(rows, r, Rank2);
    SeedNamesSnoc(rows, r, Rank34);
    SeedNamesSnoc(rows, r, Rank58);
    assert order34[0] != order34[1];
  }

  /** A 5/8 row goes alone into the next group of the shuffled [E, F, G, H]. */
  lemma PlaceFiveEight(groups: Assignment, rows: seq<PlayerRecord>, r: PlayerRecord, order34: seq<nat>, order58: seq<nat>)
    requires ShuffledPools(order34, order58)
    requires SeedLayout(groups, rows, order34, order58)
    requires r.seed == Some(Rank58) && |SeedNames(rows, Rank58)| < 4
    ensures var g := order58[3 - |SeedNames(rows, Rank58)|];
      SeedLayout(groups[g := groups[g] + [r.name]], rows + [r], order34, order58)
  {
    SeedNamesSnoc(rows, r, Rank1);
    SeedNamesSnoc(rows, r, Rank2);
    SeedNamesSnoc(rows, r, Rank34);
    SeedNamesSnoc(rows, r, Rank58);
    assert order58[0] != order58[1] && order58[0] != order58[2] && order58[0] != order58[3];
    assert order58[1] != order58[2] && order58[1] != order58[3] && order58[2] != order58[3];
  }

  /** A row with any other seed text is skipped. */
  lemma PlaceOther(groups: Assignment, rows: seq<PlayerRecord>, r: PlayerRecord, order34: seq<nat>, order58: seq<nat>)
    requires ShuffledPools(order34, order58)
    requires SeedLayout(groups, rows, order34, order58)
    requires r.seed != Some(Rank1) && r.seed != Some(Rank2) && r.seed != Some(Rank34) && r.seed != Some(Rank58)
    ensures SeedLayout(groups, rows + [r], order34, order58)
  {
    SeedNamesSnoc(rows, r, Rank1);
    SeedNamesSnoc(rows, r, Rank2);
    SeedNamesSnoc(rows, r, Rank34);
    SeedNamesSnoc(rows, r, Rank58);
  }

  lemma SeedNamesPrefix(rows: seq<PlayerRecord>, i: nat, tag: Seed)
    requires i < |rows|
    ensures SeedNames(rows[..i + 1], tag)
      == SeedNames(rows[..i], tag) + (if rows[i].seed == Some(tag) then [rows[i].name] else [])
  {
    assert rows[..i + 1][..i] == rows[..i];
  }

  /** A prefix never holds more rows with a given seed text than the whole list. */
  lemma {:induction false} SeedNamesBound(rows: seq<PlayerRecord>, i: nat, tag: Seed)
    requires i <= |rows|
    ensures |SeedNames(rows[..i], tag)| <= |SeedNames(rows, tag)|
    decreases |rows| - i
  {
    if i < |rows| {
      SeedNamesPrefix(rows, i, tag);
      SeedNamesBound(rows, i + 1, tag);
    } else {
      assert rows[..i] == rows;
    }
  }

  /** Only the seeded rows carry a seed text, so counting a seed text over the seeded rows
      is counting it over the roster. */
  lemma {:induction false} SeedNamesOfSeeded(roster: seq<PlayerRecord>, tag: Seed)
    ensures SeedNames(SeededRows(roster), tag) == SeedNames(roster, tag)
  {
    if roster != [] {
      var init, last := roster[..|roster| - 1], roster[|roster| - 1];
      SeedNamesOfSeeded(init, tag);
      if last.seed.Some? {
        SeedNamesSnoc(SeededRows(init), last, tag);
      }
    }
  }

  /** A name listed for a seed text is the name of a row with that seed. */
  lemma {:induction false} SeedNamesFrom(rows: seq<PlayerRecord>, tag: Seed, x: Name)
    requires x in SeedNames(rows, tag)
    ensures exists i :: 0 <= i < |rows| && rows[i].seed == Some(tag) && rows[i].name == x
  {
    var init, last := rows[..|rows| - 1], rows[|rows| - 1];
    if x in SeedNames(init, tag) {
      SeedNamesFrom(init, tag, x);
      var i :| 0 <= i < |init| && init[i].seed == Some(tag) && init[i].name == x;
      assert rows[i] == init[i];
    }
  }

  /** The outcome of the set-up before the first draw: an assertion that fails, or the
      roster's names, its seeded rows, its unseeded names, the groups with the seeds
      placed, and the fixed players. */
  datatype Setup =
    | Rejected(error: ConfigError)
    | Prepared(players: seq<Name>, seeded: seq<PlayerRecord>, unseeded: seq<Name>,
               groups: Assignment, fixed: set<Name>)

  /** The set-up of the optimiser: split the roster into seeded rows and unseeded names,
      check the configuration, place the seeds into the shuffled pools, and remember the
      seeded players as fixed. Once the check passes, every group of the seeded start holds
      at most one player, and only a fixed one. */
  method Prepare(roster: seq<PlayerRecord>, sizes: seq<nat>, order34: seq<nat>, order58: seq<nat>)
    returns (r: Setup)
    requires ShuffledPools(order34, order58)
    ensures r.Rejected? <==> CheckConfig(roster, sizes).Some?
    ensures r.Rejected? ==> r.error == CheckConfig(roster, sizes).value
    ensures r.Prepared? ==>
      && r.players == Names(roster) && r.seeded == SeededRows(roster)
      && r.unseeded == UnseededNames(roster) && r.fixed == FixedPlayers(roster)
      && SeedLayout(r.groups, r.seeded, order34, order58)
    ensures r.Prepared? ==>
      && |SeedNames(r.seeded, Rank34)| <= 2 && |SeedNames(r.seeded, Rank58)| <= 4
      && r.groups == SeedGroups(r.seeded, order34, order58)
    ensures r.Prepared? ==> forall g :: 0 <= g < NGroups ==>
      |r.groups[g]| <= 1 && forall k :: 0 <= k < |r.groups[g]| ==> r.groups[g][k] in r.fixed
  {
    var players := Names(roster);
    var seeded := SeededRows(roster);
    var unseeded := UnseededNames(roster);
    var failed := CheckConfig(roster, sizes);
    if failed.Some? {
      return Rejected(failed.value);
    }
    SeedNamesOfSeeded(roster, Rank1);
    SeedNamesOfSeeded(roster, Rank2);
    SeedNamesOfSeeded(roster, Rank34);
    SeedNamesOfSeeded(roster, Rank58);
    var groups := PlaceSeeds(seeded, order34, order58);
    var fixed := FixedPlayers(roster);
    SeedStartFixed(roster, seeded, groups, order34, order58);
    r := Prepared(players, seeded, unseeded, groups, fixed);
  }

  /** The seeded start when the seed counts are right: one player at most per group, each
      of them fixed. */
  lemma SeedStartFixed(roster: seq<PlayerRecord>, seeded: seq<PlayerRecord>, groups: Assignment,
                       order34: seq<nat>, order58: seq<nat>)
    requires ShuffledPools(order34, order58) && seeded == SeededRows(roster)
    requires |SeedNames(seeded, Rank1)| == 1 && |SeedNames(seeded, Rank2)| == 1
    requires SeedLayout(groups, seeded, order34, order58)
    ensures forall g :: 0 <= g < NGroups ==>
      |groups[g]| <= 1 && forall k :: 0 <= k < |groups[g]| ==> groups[g][k] in FixedPlayers(roster)
  {
    forall g | 0 <= g < NGroups
      ensures |groups[g]| <= 1 && forall k :: 0 <= k < |groups[g]| ==> groups[g][k] in FixedPlayers(roster)
    {
      var tag: Seed;
      if g == 0 { tag := Rank1; }
      else if g == 1 { tag := Rank2; }
      else if 2 <= g < 4 { tag := Rank34; PoolCovers34(order34, g); }
      else if 4 <= g < 8 { tag := Rank58; PoolCovers58(order58, g); }
      else { tag := Rank1; }
      forall k | 0 <= k < |groups[g]| ensures groups[g][k] in FixedPlayers(roster) {
        var x := groups[g][k];
        assert x in SeedNames(seeded, tag);
        SeedNamesFrom(seeded, tag, x);
        var i :| 0 <= i < |seeded| && seeded[i].seed == Some(tag) && seeded[i].name == x;
        assert seeded[i] in roster;
        var j :| 0 <= j < |roster| && roster[j] == seeded[i];
      }
    }
  }

  /** The shuffled [C, D] names both groups. */
  lemma PoolCovers34(order34: seq<nat>, g: nat)
    requires IsShuffleOf(order34, 2, 2) && 2 <= g < 4
    ensures g == order34[0] || g == order34[1]
  {
  }

  /** The shuffled [E, F, G, H] names all four groups. */
  lemma PoolCovers58(order58: seq<nat>, g: nat)
    requires IsShuffleOf(order58, 4, 4) && 4 <= g < 8
    ensures g == order58[0] || g == order58[1] || g == order58[2] || g == order58[3]
  {
    assert order58[0] != order58[1] && order58[0] != order58[2] && order58[0] != order58[3];
    assert order58[1] != order58[2] && order58[1] != order58[3] && order58[2] != order58[3];
  }

  // ---------------------------------------------------------------------------
  // Validity

  /** Every player placed in `a` has a club. */
  predicate Placed(a: Assignment, clubs: map<Name, Club>)
  {
    forall g, i :: 0 <= g < |a| && 0 <= i < |a[g]| ==> a[g][i] in clubs
  }

  /** The loop over one group: reject a club already seen in the group, count the fixed
      players, and reject more than one fixed player at the end. */
  function GroupScan(group: seq<Name>, clubs: map<Name, Club>, fixed: set<Name>,
                     seen: set<Club>, seeds: nat): bool
    requires forall i :: 0 <= i < |group| ==> group[i] in clubs
    decreases |group|
  {
    if group == [] then seeds <= 1
    else if clubs[group[0]] in seen then false
    else GroupScan(group[1..], clubs, fixed, seen + {clubs[group[0]]},
                   seeds + (if group[0] in fixed then 1 else 0))
  }

  /** Every group passes its scan, each on its own. */
  predicate EveryGroupScans(a: Assignment, clubs: map<Name, Club>, fixed: set<Name>)
    requires Placed(a, clubs)
  {
    forall g :: 0 <= g < |a| ==> GroupScan(a[g], clubs, fixed, {}, 0)
  }

  /** `valid_assignment`: every group passes its scan. */
  function ValidAssignment(a: Assignment, clubs: map<Name, Club>, fixed: set<Name>): (v: bool)
    requires Placed(a, clubs)
    ensures v <==> EveryGroupScans(a, clubs, fixed)
  {
    if a == [] then true
    else
      assert forall g :: 0 < g < |a| ==> a[1..][g - 1] == a[g];
      GroupScan(a[0], clubs, fixed, {}, 0) && ValidAssignment(a[1..], clubs, fixed)
  }

  /** Number of fixed players in a group (counting repeated entries). */
  function FixedCount(group: seq<Name>, fixed: set<Name>): nat
  {
    if group == [] then 0 else (if group[0] in fixed then 1 else 0) + FixedCount(group[1..], fixed)
  }

  predicate ClubsDistinct(group: seq<Name>, clubs: map<Name, Club>)
    requires forall i :: 0 <= i < |group| ==> group[i] in clubs
  {
    forall i, j :: 0 <= i < j < |group| ==> clubs[group[i]] != clubs[group[j]]
  }

  /** The two hard rules for one group. Group sizes and seed placement are not part of it. */
  predicate GroupOk(group: seq<Name>, clubs: map<Name, Club>, fixed: set<Name>)
    requires forall i :: 0 <= i < |group| ==> group[i] in clubs
  {
    ClubsDistinct(group, clubs) && FixedCount(group, fixed) <= 1
  }

  lemma {:induction false} GroupScanMeaning(group: seq<Name>, clubs: map<Name, Club>,
                                            fixed: set<Name>, seen: set<Club>, seeds: nat)
    requires forall i :: 0 <= i < |group| ==> group[i] in clubs
    ensures GroupScan(group, clubs, fixed, seen, seeds) <==>
      && (forall i :: 0 <= i < |group| ==> clubs[group[i]] !in seen)
      && ClubsDistinct(group, clubs)
      && seeds + FixedCount(group, fixed) <= 1
    decreases |group|
  {
    if group != [] {
      var c := clubs[group[0]];
      var rest := group[1..];
      GroupScanMeaning(rest, clubs, fixed, seen + {c}, seeds + (if group[0] in fixed then 1 else 0));
      assert forall i :: 0 <= i < |rest| ==> rest[i] == group[i + 1];
      if ClubsDistinct(group, clubs) {
        assert ClubsDistinct(rest, clubs) by {
          forall i, j | 0 <= i < j < |rest| ensures clubs[rest[i]] != clubs[rest[j]] {
            assert clubs[group[i + 1]] != clubs[group[j + 1]];
          }
        }
        assert forall i :: 0 <= i < |rest| ==> clubs[rest[i]] != c by {
          forall i | 0 <= i < |rest| ensures clubs[rest[i]] != c {
            assert clubs[group[0]] != clubs[group[i + 1]];
          }
        }
      }
      if && (forall i :: 0 <= i < |rest| ==> clubs[rest[i]] !in seen + {c})
         && ClubsDistinct(rest, clubs)
      {
        forall i, j | 0 <= i < j < |group| ensures clubs[group[i]] != clubs[group[j]] {
          assert group[j] == rest[j - 1];
          if i > 0 { assert group[i] == rest[i - 1]; }
        }
      }
    }
  }

  /** `valid_assignment` holds exactly when no group has two players of one club and no
      group has more than one fixed player. */
  lemma {:induction false} ValidAssignmentMeaning(a: Assignment, clubs: map<Name, Club>, fixed: set<Name>)
    requires Placed(a, clubs)
    ensures ValidAssignment(a, clubs, fixed) <==>
      forall g :: 0 <= g < |a| ==> GroupOk(a[g], clubs, fixed)
    decreases |a|
  {
    if a != [] {
      assert Placed(a[1..], clubs) by {
        forall g, i | 0 <= g < |a[1..]| && 0 <= i < |a[1..][g]| ensures a[1..][g][i] in clubs {
          assert a[1..][g] == a[g + 1];
        }
      }
      ValidAssignmentMeaning(a[1..], clubs, fixed);
      assert forall g :: 0 <= g < |a| - 1 ==> a[1..][g] == a[g + 1];
      assert forall i :: 0 <= i < |a[0]| ==> a[0][i] in clubs;
      GroupScanMeaning(a[0], clubs, fixed, {}, 0);
      if forall g :: 0 <= g < |a| ==> GroupOk(a[g], clubs, fixed) {
        assert forall g :: 0 <= g < |a| - 1 ==> GroupOk(a[1..][g], clubs, fixed) by {
          forall g | 0 <= g < |a| - 1 ensures GroupOk(a[1..][g], clubs, fixed) {
            assert GroupOk(a[g + 1], clubs, fixed);
          }
        }
      }
      if ValidAssignment(a, clubs, fixed) {
        forall g | 0 <= g < |a| ensures GroupOk(a[g], clubs, fixed) {
          if g > 0 { assert a[g] == a[1..][g - 1]; }
        }
      }
    }
  }
}
