/** The rejection-sampling baseline: every player takes a uniformly shuffled slot, and a
    draw is kept only if it passes the baseline's own validity check. */
module Baseline {
  import opened Common
  import opened DrawRules
  import Penalty

  /** A group letter as the baseline keys it ("A", ..., "K"). */
  type Group = string

  /** An insertion-ordered dictionary of group capacities: `order` is the key order. */
  datatype Slots = Slots(order: seq<Group>, size: map<Group, nat>)

  /** The key order lists each key once and only keys of the dictionary. */
  predicate WellOrdered(s: Slots)
  {
    && (forall i, j :: 0 <= i < j < |s.order| ==> s.order[i] != s.order[j])
    && (forall i :: 0 <= i < |s.order| ==> s.order[i] in s.size)
  }

  /** `get_full_slots`: three places for every listed group, then G set to four (G is
      appended at the end if it was not listed). */
  function FullSlots(free: seq<Group>): (r: Slots)
    ensures WellOrdered(r)
    ensures forall g :: g in r.size <==> g in free || g == "G"
    ensures forall g :: g in r.size ==> r.size[g] == if g == "G" then 4 else 3
  {
    var order := SlotOrder(free);
    SlotOrderShape(free);
    Slots(order, map g | g in order :: if g == "G" then 4 else 3)
  }

  /** The key order of `get_full_slots`: the listed groups by first occurrence, then G
      if it was not among them. */
  function SlotOrder(free: seq<Group>): seq<Group>
  {
    var keys := Penalty.Distinct(free);
    if "G" in keys then keys else keys + ["G"]
  }

  lemma SlotOrderShape(free: seq<Group>)
    ensures forall i, j :: 0 <= i < j < |SlotOrder(free)| ==> SlotOrder(free)[i] != SlotOrder(free)[j]
    ensures forall g :: g in SlotOrder(free) <==> g in free || g == "G"
  {
    Penalty.DistinctShape(free);
  }

  /** Sum of the capacities, in key order. */
  function TotalOver(order: seq<Group>, size: map<Group, nat>): nat
    requires forall i :: 0 <= i < |order| ==> order[i] in size
  {
    if order == [] then 0 else TotalOver(order[..|order| - 1], size) + size[order[|order| - 1]]
  }

  function Total(s: Slots): nat
    requires WellOrdered(s)
  {
    TotalOver(s.order, s.size)
  }

  /** Every group counts three and G one more, so the total is three per group plus one. */
  lemma FullSlotsTotal(free: seq<Group>)
    ensures Total(FullSlots(free)) == 3 * |FullSlots(free).order| + 1
  {
    var s := FullSlots(free);
    assert "G" in s.size;
    var k :| 0 <= k < |s.order| && s.order[k] == "G";
    TotalOneG(s.order, s.size, k);
  }

  lemma {:induction false} TotalOneG(order: seq<Group>, size: map<Group, nat>, k: nat)
    requires forall i :: 0 <= i < |order| ==> order[i] in size
    requires forall i :: 0 <= i < |order| ==> size[order[i]] == if order[i] == "G" then 4 else 3
    requires forall i, j :: 0 <= i < j < |order| ==> order[i] != order[j]
    requires k < |order| && order[k] == "G"
    ensures TotalOver(order, size) == 3 * |order| + 1
  {
    var n := |order| - 1;
    var init := order[..n];
    if k == n {
      TotalNoG(init, size);
    } else {
      assert init[k] == "G";
      TotalOneG(init, size, k);
    }
  }

  lemma {:induction false} TotalNoG(order: seq<Group>, size: map<Group, nat>)
    requires forall i :: 0 <= i < |order| ==> order[i] in size && order[i] != "G" && size[order[i]] == 3
    ensures TotalOver(order, size) == 3 * |order|
  {
    if order != [] {
      TotalNoG(order[..|order| - 1], size);
    }
  }

  /** `slots.extend([g] * k)` for every (g, k) in key order. */
  function SlotListOver(order: seq<Group>, size: map<Group, nat>): seq<Group>
    requires forall i :: 0 <= i < |order| ==> order[i] in size
  {
    if order == [] then []
    else SlotListOver(order[..|order| - 1], size) + Repeat(order[|order| - 1], size[order[|order| - 1]])
  }

  /** The slot list of one attempt, built group by group. */
  method SlotList(s: Slots) returns (slots: seq<Group>)
    requires WellOrdered(s)
    ensures slots == SlotListOver(s.order, s.size)
  {
    slots := [];
    var i := 0;
    while i < |s.order|
      invariant 0 <= i <= |s.order| && slots == SlotListOver(s.order[..i], s.size)
    {
      assert s.order[..i + 1][..i] == s.order[..i];
      var g := s.order[i];
      slots := slots + Repeat(g, s.size[g]);
      i := i + 1;
    }
    assert s.order[..i] == s.order;
  }

  /** The slot list holds exactly `size[g]` copies of each listed group g and nothing else. */
  lemma {:induction false} SlotListCounts(order: seq<Group>, size: map<Group, nat>, g: Group)
    requires forall i :: 0 <= i < |order| ==> order[i] in size
    requires forall i, j :: 0 <= i < j < |order| ==> order[i] != order[j]
    ensures Count(SlotListOver(order, size), g) == if g in order then size[g] else 0
  {
    if order != [] {
      var init, last := order[..|order| - 1], order[|order| - 1];
      var head, tail := SlotListOver(init, size), Repeat(last, size[last]);
      SlotListCounts(init, size, g);
      CountAppend(head, tail, g);
      CountRepeat(last, size[last], g);
      assert order == init + [last];
      if g == last {
        forall i | 0 <= i < |init| ensures init[i] != g { assert init[i] == order[i]; }
      }
    }
  }

  /** The slot list has as many entries as the total capacity. */
  lemma {:induction false} SlotListLength(order: seq<Group>, size: map<Group, nat>)
    requires forall i :: 0 <= i < |order| ==> order[i] in size
    ensures |SlotListOver(order, size)| == TotalOver(order, size)
  {
    if order != [] {
      SlotListLength(order[..|order| - 1], size);
    }
  }

  // ---------------------------------------------------------------------------
  // The validity check

  /** A draw in dictionary order: (player, group) entries. */
  type Draw = seq<(Name, Group)>

  /** Every looked-up key is present: each player has a seed entry and a club, and each
      group a capacity. */
  predicate Known(d: Draw, seeds: map<Name, Option<Seed>>, clubs: map<Name, Club>, full: map<Group, nat>)
  {
    forall i :: 0 <= i < |d| ==> d[i].0 in seeds && d[i].0 in clubs && d[i].1 in full
  }

  /** The seed rule: 1 in A, 2 in B, 3/4 in C or D, 5/8 in E, F, G or H; anything else free. */
  predicate SeedOk(seed: Option<Seed>, g: Group)
  {
    match seed
    case None => true
    case Some(Rank1) => g == "A"
    case Some(Rank2) => g == "B"
    case Some(Rank34) => g == "C" || g == "D"
    case Some(Rank58) => g == "E" || g == "F" || g == "G" || g == "H"
    case Some(OtherSeed(_)) => true
  }

  /** Number of entries of the draw in group g. */
  function GroupCount(d: Draw, g: Group): nat
  {
    if d == [] then 0 else GroupCount(d[..|d| - 1], g) + (if d[|d| - 1].1 == g then 1 else 0)
  }

  /** Clubs of the entries of the draw in group g. */
  function ClubSet(d: Draw, g: Group, clubs: map<Name, Club>): set<Club>
    requires forall i :: 0 <= i < |d| ==> d[i].0 in clubs
  {
    set k | 0 <= k < |d| && d[k].1 == g :: clubs[d[k].0]
  }

  /** What `check_valid` accepts: every seed in its allowed groups, no group over its
      capacity, and no two players of one club in one group. Two 3/4 (or 5/8) seeds in
      the same allowed group are not rejected. */
  predicate Admissible(d: Draw, seeds: map<Name, Option<Seed>>, clubs: map<Name, Club>, full: map<Group, nat>)
    requires Known(d, seeds, clubs, full)
  {
    && (forall i :: 0 <= i < |d| ==> SeedOk(seeds[d[i].0], d[i].1))
    && (forall g :: g in full ==> GroupCount(d, g) <= full[g])
    && (forall i, j :: 0 <= i < j < |d| && d[i].1 == d[j].1 ==> clubs[d[i].0] != clubs[d[j].0])
  }

  /** `check_valid`: the seed pass, then the counting pass with its early returns. */
  method CheckValid(d: Draw, seeds: map<Name, Option<Seed>>, clubs: map<Name, Club>, full: map<Group, nat>)
    returns (ok: bool)
    requires Known(d, seeds, clubs, full)
    ensures ok == Admissible(d, seeds, clubs, full)
  {
    ok := SeedPass(d, seeds, clubs, full);
    if ok {
      ok := CountPass(d, seeds, clubs, full);
    }
  }

  method SeedPass(d: Draw, seeds: map<Name, Option<Seed>>, clubs: map<Name, Club>, full: map<Group, nat>)
    returns (ok: bool)
    requires Known(d, seeds, clubs, full)
    ensures ok == forall i :: 0 <= i < |d| ==> SeedOk(seeds[d[i].0], d[i].1)
  {
    var i := 0;
    while i < |d|
      invariant 0 <= i <= |d|
      invariant forall k :: 0 <= k < i ==> SeedOk(seeds[d[k].0], d[k].1)
    {
      var (player, group) := d[i];
      var seed := seeds[player];
      if seed.Some? {
        if seed.value == Rank1 && group != "A" { return false; }
        if seed.value == Rank2 && group != "B" { return false; }
        if seed.value == Rank34 && group != "C" && group != "D" { return false; }
        if seed.value == Rank58 && group != "E" && group != "F" && group != "G" && group != "H" {
          return false;
        }
      }
      i := i + 1;
    }
    return true;
  }

  /** The state of the counting pass after the first `i` entries. */
  ghost predicate Counting(d: Draw, clubs: map<Name, Club>, full: map<Group, nat>, i: nat,
                           counts: map<Group, nat>, groupClubs: map<Group, set<Club>>)
    requires forall k :: 0 <= k < |d| ==> d[k].0 in clubs && d[k].1 in full
  {
    && i <= |d|
    && counts.Keys == full.Keys
    && (forall g :: g in counts ==> counts[g] == GroupCount(d[..i], g) <= full[g])
    && (forall g :: g in groupClubs ==> groupClubs[g] == ClubSet(d[..i], g, clubs))
    && (forall g :: g !in groupClubs ==> ClubSet(d[..i], g, clubs) == {})
    && (forall a, b :: 0 <= a < b < i && d[a].1 == d[b].1 ==> clubs[d[a].0] != clubs[d[b].0])
  }

  method CountPass(d: Draw, seeds: map<Name, Option<Seed>>, clubs: map<Name, Club>, full: map<Group, nat>)
    returns (ok: bool)
    requires Known(d, seeds, clubs, full)
    requires forall i :: 0 <= i < |d| ==> SeedOk(seeds[d[i].0], d[i].1)
    ensures ok == Admissible(d, seeds, clubs, full)
  {
    var counts: map<Group, nat> := map g | g in full :: 0;
    var groupClubs: map<Group, set<Club>> := map[];
    var i := 0;
    while i < |d|
      invariant Counting(d, clubs, full, i, counts, groupClubs)
    {
      var stop;
      stop, counts, groupClubs := CountEntry(d, seeds, clubs, full, i, counts, groupClubs);
      if stop {
        return false;
      }
      i := i + 1;
    }
    assert d[..i] == d;
    return true;
  }

  /** One entry of the counting pass: `stop` is an early `return False`. */
  method CountEntry(d: Draw, seeds: map<Name, Option<Seed>>, clubs: map<Name, Club>, full: map<Group, nat>,
                    i: nat, counts: map<Group, nat>, groupClubs: map<Group, set<Club>>)
    returns (stop: bool, counts': map<Group, nat>, groupClubs': map<Group, set<Club>>)
    requires Known(d, seeds, clubs, full)
    requires Counting(d, clubs, full, i, counts, groupClubs) && i < |d|
    ensures stop ==> !Admissible(d, seeds, clubs, full)
    ensures !stop ==> Counting(d, clubs, full, i + 1, counts', groupClubs')
  {
    var (player, group) := d[i];
    var n := counts[group] + 1;
    if n > full[group] {
      GroupCountSnoc(d, i);
      GroupCountPrefix(d, i + 1, group);
      return true, counts, groupClubs;
    }
    var c := clubs[player];
    var seen := if group in groupClubs then groupClubs[group] else {};
    if c in seen {
      ClubSeen(d, clubs, full, i, counts, groupClubs);
      return true, counts, groupClubs;
    }
    counts', groupClubs' := counts[group := n], groupClubs[group := seen + {c}];
    CountingStep(d, clubs, full, i, counts, groupClubs);
    stop := false;
  }

  /** A club already in the entry's group makes the draw inadmissible. */
  lemma ClubSeen(d: Draw, clubs: map<Name, Club>, full: map<Group, nat>, i: nat,
                 counts: map<Group, nat>, groupClubs: map<Group, set<Club>>)
    requires forall k :: 0 <= k < |d| ==> d[k].0 in clubs && d[k].1 in full
    requires Counting(d, clubs, full, i, counts, groupClubs) && i < |d|
    requires d[i].1 in groupClubs && clubs[d[i].0] in groupClubs[d[i].1]
    ensures exists k :: 0 <= k < i && d[k].1 == d[i].1 && clubs[d[k].0] == clubs[d[i].0]
  {
    var k :| 0 <= k < i && d[..i][k].1 == d[i].1 && clubs[d[..i][k].0] == clubs[d[i].0];
    assert d[..i][k] == d[k];
  }

  /** Counting the entry and adding its club keeps the counting state. */
  lemma CountingStep(d: Draw, clubs: map<Name, Club>, full: map<Group, nat>, i: nat,
                     counts: map<Group, nat>, groupClubs: map<Group, set<Club>>)
    requires forall k :: 0 <= k < |d| ==> d[k].0 in clubs && d[k].1 in full
    requires Counting(d, clubs, full, i, counts, groupClubs) && i < |d|
    requires counts[d[i].1] + 1 <= full[d[i].1]
    requires d[i].1 !in groupClubs || clubs[d[i].0] !in groupClubs[d[i].1]
    ensures var g, c := d[i].1, clubs[d[i].0];
      var seen := if g in groupClubs then groupClubs[g] else {};
      Counting(d, clubs, full, i + 1, counts[g := counts[g] + 1], groupClubs[g := seen + {c}])
  {
    GroupCountSnoc(d, i);
    ClubSetSnoc(d, i, clubs);
    var g, c := d[i].1, clubs[d[i].0];
    forall a | 0 <= a < i && d[a].1 == g ensures clubs[d[a].0] != c {
      assert d[..i][a] == d[a];
    }
  }

  lemma GroupCountSnoc(d: Draw, i: nat)
    requires i < |d|
    ensures forall g :: GroupCount(d[..i + 1], g) == GroupCount(d[..i], g) + (if d[i].1 == g then 1 else 0)
  {
    assert d[..i + 1][..i] == d[..i];
  }

  lemma ClubSetSnoc(d: Draw, i: nat, clubs: map<Name, Club>)
    requires i < |d| && forall k :: 0 <= k < |d| ==> d[k].0 in clubs
    ensures forall g :: (ClubSet(d[..i + 1], g, clubs)
      == ClubSet(d[..i], g, clubs) + (if d[i].1 == g then {clubs[d[i].0]} else {}))
  {
    forall g ensures ClubSet(d[..i + 1], g, clubs)
      == ClubSet(d[..i], g, clubs) + (if d[i].1 == g then {clubs[d[i].0]} else {})
    {
      var s, t := ClubSet(d[..i + 1], g, clubs), ClubSet(d[..i], g, clubs);
      forall c | c in s ensures c in t + (if d[i].1 == g then {clubs[d[i].0]} else {}) {
        var k :| 0 <= k < i + 1 && d[..i + 1][k].1 == g && clubs[d[..i + 1][k].0] == c;
        if k < i { assert d[..i][k] == d[k]; }
      }
      forall c | c in t ensures c in s {
        var k :| 0 <= k < i && d[..i][k].1 == g && clubs[d[..i][k].0] == c;
        assert d[..i + 1][k] == d[k];
      }
      if d[i].1 == g {
        assert d[..i + 1][i] == d[i];
      }
    }
  }

  /** Counts only grow along the draw. */
  lemma {:induction false} GroupCountPrefix(d: Draw, n: nat, g: Group)
    requires n <= |d|
    ensures GroupCount(d[..n], g) <= GroupCount(d, g)
    decreases |d|
  {
    if n < |d| {
      var init := d[..|d| - 1];
      assert init[..n] == d[..n];
      GroupCountPrefix(init, n, g);
    } else {
      assert d[..n] == d;
    }
  }

  // ---------------------------------------------------------------------------
  // The sampling loop

  /** One output row of an accepted draw. */
  datatype Row = Row(player: Name, group: Group, simulation: nat)

  /** The shuffles of one attempt: `players` is the player list after
      `random.shuffle(players)` (in place, so it is the order the next attempt shuffles),
      and `slots` the fresh slot list after `random.shuffle(slots)`. */
  datatype Trial = Trial(players: seq<Name>, slots: seq<Group>)

  /** What `random.shuffle` may produce: a reordering of the player list and of the slot
      list, each element kept as often as it occurs. */
  predicate TrialFits(t: Trial, order: seq<Name>, slots: seq<Group>)
  {
    && |t.players| == |order| && multiset(t.players) == multiset(order)
    && |t.slots| == |slots| && multiset(t.slots) == multiset(slots)
  }

  predicate TrialsFit(trials: seq<Trial>, order: seq<Name>, slots: seq<Group>)
  {
    forall k :: 0 <= k < |trials| ==> TrialFits(trials[k], order, slots)
  }

  /** The players of a draw, in its order. */
  function Players(d: Draw): (r: seq<Name>)
    ensures |r| == |d| && forall i :: 0 <= i < |d| ==> r[i] == d[i].0
  {
    seq(|d|, i requires 0 <= i < |d| => d[i].0)
  }

  /** `{p: slots[i] for i, p in enumerate(players)}`. */
  function Deal(order: seq<Name>, slots: seq<Group>): (d: Draw)
    requires |order| <= |slots|
    ensures |d| == |order| && forall i :: 0 <= i < |d| ==> d[i] == (order[i], slots[i])
  {
    seq(|order|, i requires 0 <= i < |order| => (order[i], slots[i]))
  }

  /** Every player has a seed entry and a club. */
  predicate Roster(names: seq<Name>, seeds: map<Name, Option<Seed>>, clubs: map<Name, Club>)
  {
    forall i :: 0 <= i < |names| ==> names[i] in seeds && names[i] in clubs
  }

  /** A reordering of a roster is a roster. */
  lemma RosterReordered(names: seq<Name>, reordered: seq<Name>, seeds: map<Name, Option<Seed>>,
                        clubs: map<Name, Club>)
    requires multiset(reordered) == multiset(names)
    ensures Roster(names, seeds, clubs) ==> Roster(reordered, seeds, clubs)
  {
    if Roster(names, seeds, clubs) {
      forall i | 0 <= i < |reordered| ensures reordered[i] in seeds && reordered[i] in clubs {
        assert reordered[i] in multiset(names);
        var j :| 0 <= j < |names| && names[j] == reordered[i];
      }
    }
  }

  /** The slot list of `get_full_slots(free)`, with as many entries as places. */
  function FullList(free: seq<Group>): (r: seq<Group>)
    ensures |r| == Total(FullSlots(free))
    ensures forall k :: 0 <= k < |r| ==> r[k] in FullSlots(free).size
  {
    var full := FullSlots(free);
    SlotListLength(full.order, full.size);
    forall k | 0 <= k < |SlotListOver(full.order, full.size)|
      ensures SlotListOver(full.order, full.size)[k] in full.size
    {
      SlotListMember(full.order, full.size, k);
    }
    SlotListOver(full.order, full.size)
  }

  lemma {:induction false} SlotListMember(order: seq<Group>, size: map<Group, nat>, k: nat)
    requires forall i :: 0 <= i < |order| ==> order[i] in size
    requires k < |SlotListOver(order, size)|
    ensures SlotListOver(order, size)[k] in size
  {
    var init, last := order[..|order| - 1], order[|order| - 1];
    var head := SlotListOver(init, size);
    if k >= |head| {
      assert SlotListOver(order, size)[k] == Repeat(last, size[last])[k - |head|];
    } else {
      SlotListMember(init, size, k);
    }
  }

  /** The loop state that outlives an attempt: the current player order and the accepted draws. */
  datatype Sampler = Sampler(order: seq<Name>, draws: seq<Draw>)

  /** The draw of one attempt: each player of the shuffled list is dealt the slot at its
      index in the shuffled slot list. Every player of the list appears once per
      occurrence, and every slot dealt is one of the list's. */
  function DrawOf(order: seq<Name>, t: Trial, slots: seq<Group>): (d: Draw)
    requires TrialFits(t, order, slots) && |order| <= |slots|
    ensures |d| == |order| && multiset(Players(d)) == multiset(order)
    ensures forall i :: 0 <= i < |d| ==> d[i].0 == t.players[i] && d[i].1 == t.slots[i] && d[i].1 in slots
  {
    var d := Deal(t.players, t.slots);
    assert Players(d) == t.players;
    assert forall i :: 0 <= i < |d| ==> d[i].1 in multiset(slots) by {
      forall i | 0 <= i < |d| ensures d[i].1 in multiset(slots) { assert t.slots[i] in multiset(t.slots); }
    }
    d
  }

  /** What the loop keeps: a draw whose every key is known and that `check_valid` accepts. */
  predicate Accepted(d: Draw, seeds: map<Name, Option<Seed>>, clubs: map<Name, Club>, full: map<Group, nat>)
  {
    Known(d, seeds, clubs, full) && Admissible(d, seeds, clubs, full)
  }

  /** One attempt: shuffle, deal, keep the draw if it is accepted. */
  function AttemptDraw(st: Sampler, t: Trial, slots: seq<Group>, seeds: map<Name, Option<Seed>>,
                       clubs: map<Name, Club>, full: map<Group, nat>): (r: Sampler)
    requires TrialFits(t, st.order, slots) && |st.order| <= |slots|
    ensures multiset(r.order) == multiset(st.order) && |r.order| == |st.order|
    ensures |st.draws| <= |r.draws| <= |st.draws| + 1
    ensures Roster(st.order, seeds, clubs) ==> Roster(r.order, seeds, clubs)
  {
    var d := DrawOf(st.order, t, slots);
    RosterReordered(st.order, t.players, seeds, clubs);
    if Accepted(d, seeds, clubs, full) then Sampler(t.players, st.draws + [d]) else Sampler(t.players, st.draws)
  }

  /** The state after the given attempts, one after the other. */
  function Sampled(st: Sampler, trials: seq<Trial>, slots: seq<Group>, seeds: map<Name, Option<Seed>>,
                   clubs: map<Name, Club>, full: map<Group, nat>): (r: Sampler)
    requires TrialsFit(trials, st.order, slots) && |st.order| <= |slots|
    ensures multiset(r.order) == multiset(st.order) && |r.order| == |st.order|
    ensures Roster(st.order, seeds, clubs) ==> Roster(r.order, seeds, clubs)
    ensures |st.draws| <= |r.draws| <= |st.draws| + |trials|
  {
    if trials == [] then st
    else
      var init := trials[..|trials| - 1];
      assert TrialsFit(init, st.order, slots);
      AttemptDraw(Sampled(st, init, slots, seeds, clubs, full), trials[|trials| - 1], slots, seeds, clubs, full)
  }

  /** The state after the first `k` attempts. */
  function After(st: Sampler, trials: seq<Trial>, k: nat, slots: seq<Group>, seeds: map<Name, Option<Seed>>,
                 clubs: map<Name, Club>, full: map<Group, nat>): (r: Sampler)
    requires TrialsFit(trials, st.order, slots) && |st.order| <= |slots| && k <= |trials|
    ensures multiset(r.order) == multiset(st.order) && |r.order| == |st.order|
    ensures k == 0 ==> r == st
  {
    assert TrialsFit(trials[..k], st.order, slots);
    assert k == 0 ==> trials[..k] == [];
    Sampled(st, trials[..k], slots, seeds, clubs, full)
  }

  /** One more attempt extends the fold by one step. */
  lemma AfterStep(st: Sampler, trials: seq<Trial>, k: nat, slots: seq<Group>, seeds: map<Name, Option<Seed>>,
                  clubs: map<Name, Club>, full: map<Group, nat>)
    requires TrialsFit(trials, st.order, slots) && |st.order| <= |slots| && k < |trials|
    ensures After(st, trials, k + 1, slots, seeds, clubs, full)
      == AttemptDraw(After(st, trials, k, slots, seeds, clubs, full), trials[k], slots, seeds, clubs, full)
    ensures var n := |After(st, trials, k, slots, seeds, clubs, full).draws|;
      n <= |After(st, trials, k + 1, slots, seeds, clubs, full).draws| <= n + 1
  {
    assert trials[..k + 1][..k] == trials[..k];
  }

  /** The rows of one accepted draw, all numbered `sim`. */
  function NumberedRows(d: Draw, sim: nat): (r: seq<Row>)
    ensures |r| == |d| && forall i :: 0 <= i < |d| ==> r[i] == Row(d[i].0, d[i].1, sim)
  {
    seq(|d|, i requires 0 <= i < |d| => Row(d[i].0, d[i].1, sim))
  }

  /** The rows of the accepted draws, draw k numbered k. */
  function RowsOf(draws: seq<Draw>): seq<Row>
  {
    if draws == [] then [] else RowsOf(draws[..|draws| - 1]) + NumberedRows(draws[|draws| - 1], |draws| - 1)
  }

  /** Rows carry simulation numbers 0, 1, ... in order: each is below the number of
      accepted draws, and they never decrease along the list. */
  lemma {:induction false} RowsOfNumbered(draws: seq<Draw>)
    ensures forall i :: 0 <= i < |RowsOf(draws)| ==> RowsOf(draws)[i].simulation < |draws|
    ensures forall i, j :: 0 <= i <= j < |RowsOf(draws)| ==> RowsOf(draws)[i].simulation <= RowsOf(draws)[j].simulation
  {
    if draws != [] {
      RowsOfNumbered(draws[..|draws| - 1]);
    }
  }

  /** How the sampling loop from `st` stops: it made `k` attempts, the last one (if any)
      started with fewer than `nSim` accepted draws, and it stopped because `nSim` was
      reached or the attempts ran out; `valid` draws had been accepted by then. */
  ghost predicate Stopped(st: Sampler, trials: seq<Trial>, nSim: nat, slots: seq<Group>,
                          seeds: map<Name, Option<Seed>>, clubs: map<Name, Club>, full: map<Group, nat>,
                          k: nat, valid: nat)
  {
    && TrialsFit(trials, st.order, slots) && |st.order| <= |slots| && k <= |trials|
    && (k == 0 || |After(st, trials, k - 1, slots, seeds, clubs, full).draws| < nSim)
    && (valid >= nSim || k == |trials|)
    && valid == |After(st, trials, k, slots, seeds, clubs, full).draws|
  }

  /** The result of the sampling loop: it stopped as above, and `rows` are the rows of
      the draws accepted by then. */
  ghost predicate Finishes(st: Sampler, trials: seq<Trial>, nSim: nat, slots: seq<Group>,
                           seeds: map<Name, Option<Seed>>, clubs: map<Name, Club>, full: map<Group, nat>,
                           k: nat, rows: seq<Row>, valid: nat)
  {
    && Stopped(st, trials, nSim, slots, seeds, clubs, full, k, valid)
    && rows == RowsOf(After(st, trials, k, slots, seeds, clubs, full).draws)
  }

  datatype Outcome =
    | TooFewSlots(slots: nat, players: nat)
    | Finished(rows: seq<Row>, validDraws: nat, attempts: nat)

  /** `monte_carlo_random` without the progress file: `trials` holds the shuffles of the
      attempts, in order; the loop runs until `nSim` draws are accepted or the attempts
      supplied run out. Too few places in total is the ValueError. */
  method MonteCarloRandom(players: seq<Name>, seeds: map<Name, Option<Seed>>, clubs: map<Name, Club>,
                          free: seq<Group>, nSim: nat, trials: seq<Trial>) returns (out: Outcome)
    requires Roster(players, seeds, clubs)
    requires TrialsFit(trials, players, FullList(free))
    ensures out.TooFewSlots? <==> Total(FullSlots(free)) < |players|
    ensures out.TooFewSlots? ==> out.slots == Total(FullSlots(free)) && out.players == |players|
    ensures out.Finished? ==> out.validDraws <= nSim && (out.attempts < |trials| ==> out.validDraws == nSim)
    ensures out.Finished? ==> Finishes(Sampler(players, []), trials, nSim, FullList(free), seeds, clubs,
                                       FullSlots(free).size, out.attempts, out.rows, out.validDraws)
  {
    var full := FullSlots(free);
    var slots := SlotList(full);
    ghost var list := FullList(free);
    assert slots == list;
    if |slots| < |players| {
      return TooFewSlots(|slots|, |players|);
    }
    var rows, valid, attempts := SampleLoop(players, seeds, clubs, full.size, nSim, trials, slots);
    return Finished(rows, valid, attempts);
  }

  /** The `while valid_draws < n_sim` loop, from the initial player order. */
  method SampleLoop(players: seq<Name>, seeds: map<Name, Option<Seed>>, clubs: map<Name, Club>,
                    full: map<Group, nat>, nSim: nat, trials: seq<Trial>, slots: seq<Group>)
    returns (rows: seq<Row>, valid: nat, attempts: nat)
    requires Roster(players, seeds, clubs) && |players| <= |slots|
    requires forall k :: 0 <= k < |slots| ==> slots[k] in full
    requires TrialsFit(trials, players, slots)
    ensures Finishes(Sampler(players, []), trials, nSim, slots, seeds, clubs, full, attempts, rows, valid)
    ensures valid <= nSim && (attempts < |trials| ==> valid == nSim)
  {
    ghost var st := Sampler(players, []);
    var order: seq<Name> := players;
    rows, valid, attempts := [], 0, 0;
    while valid < nSim && attempts < |trials|
      invariant Drawing(st, trials, nSim, attempts, order, rows, valid, slots, seeds, clubs, full)
      invariant valid <= nSim
      decreases |trials| - attempts
    {
      order, rows, valid := Attempt(st, trials, nSim, attempts, order, rows, valid, slots, seeds, clubs, full);
      attempts := attempts + 1;
    }
    DrawingFinishes(st, trials, nSim, attempts, order, rows, valid, slots, seeds, clubs, full);
  }

  /** The loop state at the exit is the result the loop promises. */
  lemma {:induction false} DrawingFinishes(st: Sampler, trials: seq<Trial>, nSim: nat, made: nat, order: seq<Name>,
                        rows: seq<Row>, valid: nat, slots: seq<Group>, seeds: map<Name, Option<Seed>>,
                        clubs: map<Name, Club>, full: map<Group, nat>)
    requires Drawing(st, trials, nSim, made, order, rows, valid, slots, seeds, clubs, full)
    requires !(valid < nSim && made < |trials|)
    ensures Finishes(st, trials, nSim, slots, seeds, clubs, full, made, rows, valid)
  {
  }

  /** The loop state after `made` attempts. */
  ghost predicate Drawing(st: Sampler, trials: seq<Trial>, nSim: nat, made: nat, order: seq<Name>,
                          rows: seq<Row>, valid: nat, slots: seq<Group>, seeds: map<Name, Option<Seed>>,
                          clubs: map<Name, Club>, full: map<Group, nat>)
  {
    && TrialsFit(trials, st.order, slots) && |st.order| <= |slots| && made <= |trials|
    && Roster(st.order, seeds, clubs) && st.draws == []
    && (forall k :: 0 <= k < |slots| ==> slots[k] in full)
    && (made == 0 || |After(st, trials, made - 1, slots, seeds, clubs, full).draws| < nSim)
    && order == After(st, trials, made, slots, seeds, clubs, full).order
    && valid == |After(st, trials, made, slots, seeds, clubs, full).draws|
    && rows == RowsOf(After(st, trials, made, slots, seeds, clubs, full).draws)
  }

  /** One attempt of the loop body. */
  method Attempt(ghost st: Sampler, trials: seq<Trial>, ghost nSim: nat, made: nat, order: seq<Name>,
                 rows: seq<Row>, valid: nat, slots: seq<Group>, seeds: map<Name, Option<Seed>>,
                 clubs: map<Name, Club>, full: map<Group, nat>)
    returns (order': seq<Name>, rows': seq<Row>, valid': nat)
    requires Drawing(st, trials, nSim, made, order, rows, valid, slots, seeds, clubs, full)
    requires valid < nSim && made < |trials|
    ensures Drawing(st, trials, nSim, made + 1, order', rows', valid', slots, seeds, clubs, full)
    ensures valid' <= valid + 1
  {
    var t := trials[made];
    AttemptAfter(st, trials, made, slots, seeds, clubs, full);
    order' := t.players;
    var d := Deal(order', t.slots);
    var ok := CheckValid(d, seeds, clubs, full);
    if ok {
      rows' := rows + NumberedRows(d, valid);
      valid' := valid + 1;
    } else {
      rows', valid' := rows, valid;
    }
    DrawingNext(st, trials, nSim, made, order, rows, valid, slots, seeds, clubs, full, order', rows', valid');
  }

  /** `Drawing` moves on by one attempt once the new values are the fold's next state. */
  lemma DrawingNext(st: Sampler, trials: seq<Trial>, nSim: nat, made: nat, order: seq<Name>,
                    rows: seq<Row>, valid: nat, slots: seq<Group>, seeds: map<Name, Option<Seed>>,
                    clubs: map<Name, Club>, full: map<Group, nat>,
                    order': seq<Name>, rows': seq<Row>, valid': nat)
    requires Drawing(st, trials, nSim, made, order, rows, valid, slots, seeds, clubs, full)
    requires valid < nSim && made < |trials|
    requires order' == After(st, trials, made + 1, slots, seeds, clubs, full).order
    requires valid' == |After(st, trials, made + 1, slots, seeds, clubs, full).draws|
    requires rows' == RowsOf(After(st, trials, made + 1, slots, seeds, clubs, full).draws)
    ensures Drawing(st, trials, nSim, made + 1, order', rows', valid', slots, seeds, clubs, full)
  {
    assert made + 1 - 1 == made;
  }

  /** The fold's state after one more attempt: the shuffled players become the order, and
      the dealt draw, whose keys are all known, is kept exactly when it is admissible. */
  lemma AttemptAfter(st: Sampler, trials: seq<Trial>, made: nat, slots: seq<Group>,
                     seeds: map<Name, Option<Seed>>, clubs: map<Name, Club>, full: map<Group, nat>)
    requires TrialsFit(trials, st.order, slots) && |st.order| <= |slots| && made < |trials|
    requires Roster(st.order, seeds, clubs) && forall k :: 0 <= k < |slots| ==> slots[k] in full
    ensures var t := trials[made];
      && |t.players| <= |t.slots|
      && Known(Deal(t.players, t.slots), seeds, clubs, full)
      && After(st, trials, made + 1, slots, seeds, clubs, full).order == t.players
      && After(st, trials, made + 1, slots, seeds, clubs, full).draws
         == After(st, trials, made, slots, seeds, clubs, full).draws
            + (if Admissible(Deal(t.players, t.slots), seeds, clubs, full) then [Deal(t.players, t.slots)] else [])
    ensures var t := trials[made]; var d := Deal(t.players, t.slots);
      var before := After(st, trials, made, slots, seeds, clubs, full).draws;
      var after := After(st, trials, made + 1, slots, seeds, clubs, full).draws;
      && |after| == |before| + (if Admissible(d, seeds, clubs, full) then 1 else 0)
      && RowsOf(after) == RowsOf(before) + (if Admissible(d, seeds, clubs, full) then NumberedRows(d, |before|) else [])
  {
    var t := trials[made];
    var before := After(st, trials, made, slots, seeds, clubs, full);
    AfterStep(st, trials, made, slots, seeds, clubs, full);
    assert TrialFits(t, before.order, slots) && Roster(before.order, seeds, clubs) by {
      assert TrialFits(t, st.order, slots);
      RosterReordered(st.order, before.order, seeds, clubs);
    }
    var d := Deal(t.players, t.slots);
    assert d == DrawOf(before.order, t, slots);
    KnownDraw(before.order, t, slots, seeds, clubs, full);
    var after := After(st, trials, made + 1, slots, seeds, clubs, full).draws;
    if Admissible(d, seeds, clubs, full) {
      assert after[..|after| - 1] == before.draws;
    }
  }

  /** A dealt draw looks up only known keys. */
  lemma KnownDraw(order: seq<Name>, t: Trial, slots: seq<Group>, seeds: map<Name, Option<Seed>>,
                  clubs: map<Name, Club>, full: map<Group, nat>)
    requires TrialFits(t, order, slots) && |order| <= |slots| && Roster(order, seeds, clubs)
    requires forall k :: 0 <= k < |slots| ==> slots[k] in full
    ensures Known(DrawOf(order, t, slots), seeds, clubs, full)
  {
    var d := DrawOf(order, t, slots);
    RosterReordered(order, t.players, seeds, clubs);
    forall i | 0 <= i < |d| ensures d[i].1 in full {
      var k :| 0 <= k < |slots| && slots[k] == d[i].1;
    }
  }

  /** Each draw has every player of `players` once per occurrence and no one else, knows
      every key and passes the check. */
  predicate AllAccepted(draws: seq<Draw>, players: multiset<Name>, seeds: map<Name, Option<Seed>>,
                        clubs: map<Name, Club>, full: map<Group, nat>)
  {
    forall k :: 0 <= k < |draws| ==> multiset(Players(draws[k])) == players && Accepted(draws[k], seeds, clubs, full)
  }

  /** Every kept draw is a dictionary with one entry per player of the roster (each once,
      as `seed_map`'s keys are distinct), knows every key, and passes the check. */
  lemma {:induction false} SampledDrawsAccepted(st: Sampler, trials: seq<Trial>, slots: seq<Group>,
                                                seeds: map<Name, Option<Seed>>, clubs: map<Name, Club>,
                                                full: map<Group, nat>)
    requires TrialsFit(trials, st.order, slots) && |st.order| <= |slots|
    requires AllAccepted(st.draws, multiset(st.order), seeds, clubs, full)
    ensures AllAccepted(Sampled(st, trials, slots, seeds, clubs, full).draws, multiset(st.order), seeds, clubs, full)
  {
    if trials != [] {
      var init := trials[..|trials| - 1];
      assert TrialsFit(init, st.order, slots);
      SampledDrawsAccepted(st, init, slots, seeds, clubs, full);
      var mid := Sampled(st, init, slots, seeds, clubs, full);
      var t := trials[|trials| - 1];
      assert TrialFits(t, mid.order, slots);
      var d := DrawOf(mid.order, t, slots);
      if Accepted(d, seeds, clubs, full) {
        assert Sampled(st, trials, slots, seeds, clubs, full).draws == mid.draws + [d];
        AllAcceptedSnoc(mid.draws, d, multiset(st.order), seeds, clubs, full);
      } else {
        assert Sampled(st, trials, slots, seeds, clubs, full).draws == mid.draws;
      }
    }
  }

  lemma AllAcceptedSnoc(draws: seq<Draw>, d: Draw, players: multiset<Name>, seeds: map<Name, Option<Seed>>,
                        clubs: map<Name, Club>, full: map<Group, nat>)
    requires AllAccepted(draws, players, seeds, clubs, full)
    requires multiset(Players(d)) == players && Accepted(d, seeds, clubs, full)
    ensures AllAccepted(draws + [d], players, seeds, clubs, full)
  {
    forall k | 0 <= k < |draws| + 1
      ensures multiset(Players((draws + [d])[k])) == players && Accepted((draws + [d])[k], seeds, clubs, full)
    {
      if k < |draws| { assert (draws + [d])[k] == draws[k]; }
    }
  }
}
