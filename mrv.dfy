/** The constraint sampler of the statistical analysis (`monte_carlo_mrv`): every
    simulation fills the groups player by player, always taking a player with the fewest
    legal groups left ("minimum remaining values"), restarts on a dead end and, after the
    last restart, falls back to a draw without the club rule. */
module Mrv {
  import opened Common
  import opened SeedAnalysis
  import DrawRules
  import Baseline

  type Name = DrawRules.Name
  type Club = DrawRules.Club

  /** The players (`seed_map`'s keys, in order) with their parsed seeds and clubs. */
  datatype Entrants = Entrants(players: seq<Name>, seedOf: map<Name, Option<ParsedSeed>>,
                               clubOf: map<Name, Club>)

  /** The groups (`free_slots`'s keys, in order) with their free places. */
  datatype Table = Table(groups: seq<Group>, free: map<Group, nat>)

  /** The groups a ranked seed may take. */
  const RankedGroups: seq<Group> := ["A", "B", "C", "D", "E", "F", "G", "H"]

  predicate UniqueNames(s: seq<Name>)
  {
    forall i, j :: 0 <= i < j < |s| ==> s[i] != s[j]
  }

  /** Every player has a seed entry and a club; the groups are the keys of `free`, listed
      once each, and include every group a ranked seed may take. */
  ghost predicate Wf(e: Entrants, t: Table)
  {
    && UniqueNames(e.players)
    && (forall p :: p in e.players ==> p in e.seedOf && p in e.clubOf)
    && Distinct(t.groups)
    && (forall g :: g in t.free <==> g in t.groups)
    && (forall g :: g in RankedGroups ==> g in t.groups)
  }

  lemma AllowedInGroups(t: Table, seed: Option<ParsedSeed>)
    requires forall g :: g in RankedGroups ==> g in t.groups
    ensures forall g :: g in SeedAllowedGroups(seed, t.groups) ==> g in t.groups
  {
  }

  // ---------------------------------------------------------------------------
  // The board of one restart

  /** `slots`, `seeds` and `gclubs`: free places left for unseeded players, places left
      for a seeded player (one per group) and the clubs already in each group. */
  datatype Board = Board(slots: map<Group, int>, seeds: map<Group, int>, clubs: map<Group, set<Club>>)

  predicate Keyed(b: Board, t: Table)
  {
    b.slots.Keys == t.free.Keys && b.seeds.Keys == t.free.Keys && b.clubs.Keys == t.free.Keys
  }

  /** `free_slots.copy()`, one seed place per group and no clubs. */
  function Start(t: Table): (b: Board)
    ensures Keyed(b, t)
    ensures forall g :: g in t.free ==> b.slots[g] == t.free[g] && b.seeds[g] == 1 && b.clubs[g] == {}
  {
    Board(map g | g in t.free :: t.free[g] as int, map g | g in t.free :: 1, map g | g in t.free :: {})
  }

  predicate Known(e: Entrants, p: Name)
  {
    p in e.seedOf && p in e.clubOf
  }

  /** A seeded player needs `seeds[g] > 0`, anyone else `slots[g] > 0`. */
  predicate Room(e: Entrants, b: Board, p: Name, g: Group)
    requires Known(e, p) && g in b.slots && g in b.seeds
  {
    if e.seedOf[p].Some? then b.seeds[g] > 0 else b.slots[g] > 0
  }

  /** Room for the player, and no player of the same club in the group yet. */
  predicate Open(e: Entrants, b: Board, p: Name, g: Group)
    requires Known(e, p) && g in b.slots && g in b.seeds && g in b.clubs
  {
    Room(e, b, p, g) && e.clubOf[p] !in b.clubs[g]
  }

  /** The groups of `base`, in order, that are open to `p`. */
  function OpenIn(e: Entrants, b: Board, p: Name, base: seq<Group>): seq<Group>
    requires Known(e, p)
    requires forall g :: g in base ==> g in b.slots && g in b.seeds && g in b.clubs
  {
    if base == [] then []
    else
      var init, g := base[..|base| - 1], base[|base| - 1];
      OpenIn(e, b, p, init) + (if Open(e, b, p, g) then [g] else [])
  }

  lemma {:induction false} OpenInMembers(e: Entrants, b: Board, p: Name, base: seq<Group>)
    requires Known(e, p)
    requires forall g :: g in base ==> g in b.slots && g in b.seeds && g in b.clubs
    ensures forall g :: g in OpenIn(e, b, p, base) <==> g in base && Open(e, b, p, g)
  {
    if base != [] {
      OpenInMembers(e, b, p, base[..|base| - 1]);
      assert base == base[..|base| - 1] + [base[|base| - 1]];
    }
  }

  /** `cur_dom` / `allowed`: the groups the player's seed allows that are open to them. */
  function Domain(e: Entrants, t: Table, b: Board, p: Name): seq<Group>
    requires Wf(e, t) && Keyed(b, t) && Known(e, p)
  {
    AllowedInGroups(t, e.seedOf[p]);
    OpenIn(e, b, p, SeedAllowedGroups(e.seedOf[p], t.groups))
  }

  /** The domain holds exactly the allowed groups open to the player. */
  lemma DomainMembers(e: Entrants, t: Table, b: Board, p: Name)
    requires Wf(e, t) && Keyed(b, t) && Known(e, p)
    ensures forall g :: g in Domain(e, t, b, p) <==> g in SeedAllowedGroups(e.seedOf[p], t.groups) && Open(e, b, p, g)
    ensures forall g :: g in Domain(e, t, b, p) ==> g in t.free
  {
    AllowedInGroups(t, e.seedOf[p]);
    OpenInMembers(e, b, p, SeedAllowedGroups(e.seedOf[p], t.groups));
  }

  /** The fallback's `allowed`: the groups the seed allows with room, ignoring clubs. */
  function RoomIn(e: Entrants, b: Board, p: Name, base: seq<Group>): seq<Group>
    requires Known(e, p)
    requires forall g :: g in base ==> g in b.slots && g in b.seeds
  {
    if base == [] then []
    else
      var init, g := base[..|base| - 1], base[|base| - 1];
      RoomIn(e, b, p, init) + (if Room(e, b, p, g) then [g] else [])
  }

  lemma {:induction false} RoomInMembers(e: Entrants, b: Board, p: Name, base: seq<Group>)
    requires Known(e, p)
    requires forall g :: g in base ==> g in b.slots && g in b.seeds
    ensures forall g :: g in RoomIn(e, b, p, base) <==> g in base && Room(e, b, p, g)
  {
    if base != [] {
      RoomInMembers(e, b, p, base[..|base| - 1]);
      assert base == base[..|base| - 1] + [base[|base| - 1]];
    }
  }

  function SoftDomain(e: Entrants, t: Table, b: Board, p: Name): seq<Group>
    requires Wf(e, t) && Keyed(b, t) && Known(e, p)
  {
    AllowedInGroups(t, e.seedOf[p]);
    RoomIn(e, b, p, SeedAllowedGroups(e.seedOf[p], t.groups))
  }

  /** The fallback's domain holds exactly the allowed groups with room for the player. */
  lemma SoftDomainMembers(e: Entrants, t: Table, b: Board, p: Name)
    requires Wf(e, t) && Keyed(b, t) && Known(e, p)
    ensures forall g :: g in SoftDomain(e, t, b, p) <==> g in SeedAllowedGroups(e.seedOf[p], t.groups) && Room(e, b, p, g)
    ensures forall g :: g in SoftDomain(e, t, b, p) ==> g in t.free
  {
    AllowedInGroups(t, e.seedOf[p]);
    RoomInMembers(e, b, p, SeedAllowedGroups(e.seedOf[p], t.groups));
  }

  /** Placing `p` in `g`: one seed place or one free place fewer, and `p`'s club added. */
  function Apply(e: Entrants, b: Board, p: Name, g: Group): (r: Board)
    requires Known(e, p) && g in b.slots && g in b.seeds && g in b.clubs
    ensures r.slots.Keys == b.slots.Keys && r.seeds.Keys == b.seeds.Keys && r.clubs.Keys == b.clubs.Keys
  {
    var b' := if e.seedOf[p].Some? then b.(seeds := b.seeds[g := b.seeds[g] - 1])
              else b.(slots := b.slots[g := b.slots[g] - 1]);
    b'.(clubs := b.clubs[g := b.clubs[g] + {e.clubOf[p]}])
  }

  /** Every placement names a known player and a group of the table. */
  predicate Placeable(e: Entrants, t: Table, placed: Baseline.Draw)
  {
    forall k :: 0 <= k < |placed| ==> Known(e, placed[k].0) && placed[k].1 in t.free
  }

  lemma PlaceablePrefix(e: Entrants, t: Table, placed: Baseline.Draw, n: nat)
    requires Placeable(e, t, placed) && n <= |placed|
    ensures Placeable(e, t, placed[..n])
  {
  }

  /** The board after the placements, in order, from the start board. */
  function BoardOf(e: Entrants, t: Table, placed: Baseline.Draw): (b: Board)
    requires Placeable(e, t, placed)
    ensures Keyed(b, t)
  {
    if placed == [] then Start(t)
    else
      var init := placed[..|placed| - 1];
      PlaceablePrefix(e, t, placed, |placed| - 1);
      Apply(e, BoardOf(e, t, init), placed[|placed| - 1].0, placed[|placed| - 1].1)
  }

  /** The players of a draw. */
  function NamesOf(placed: Baseline.Draw): set<Name>
  {
    if placed == [] then {} else NamesOf(placed[..|placed| - 1]) + {placed[|placed| - 1].0}
  }

  /** `NamesOf` holds exactly the names of the entries. */
  lemma {:induction false} NamesOfEntries(placed: Baseline.Draw)
    ensures forall k :: 0 <= k < |placed| ==> placed[k].0 in NamesOf(placed)
    ensures forall p :: p in NamesOf(placed) ==> exists k :: 0 <= k < |placed| && placed[k].0 == p
  {
    if placed != [] {
      var init := placed[..|placed| - 1];
      NamesOfEntries(init);
      forall p | p in NamesOf(placed) ensures exists k :: 0 <= k < |placed| && placed[k].0 == p {
        if p in NamesOf(init) {
          var k :| 0 <= k < |init| && init[k].0 == p;
          assert placed[k] == init[k];
        } else {
          assert placed[|placed| - 1].0 == p;
        }
      }
      forall k | 0 <= k < |placed| ensures placed[k].0 in NamesOf(placed) {
        if k < |init| {
          assert placed[k] == init[k];
        }
      }
    }
  }

  /** The players of a draw are listed once each. */
  predicate DistinctPlayers(placed: Baseline.Draw)
  {
    forall i, j :: 0 <= i < j < |placed| ==> placed[i].0 != placed[j].0
  }

  function PlayerSet(e: Entrants): set<Name>
  {
    set p | p in e.players
  }

  // ---------------------------------------------------------------------------
  // Legal placements

  /** Placing `p` in `g` on board `b` is legal: the seed allows `g`, the group has room
      of the player's kind and, under the club rule, holds no player of the same club. */
  ghost predicate Legal(e: Entrants, t: Table, b: Board, p: Name, g: Group, clubRule: bool)
    requires Wf(e, t) && Keyed(b, t) && Known(e, p)
  {
    && g in t.free
    && g in SeedAllowedGroups(e.seedOf[p], t.groups)
    && Room(e, b, p, g)
    && (clubRule ==> e.clubOf[p] !in b.clubs[g])
  }

  /** Every placement of the draw was legal on the board of the placements before it. */
  ghost predicate Fits(e: Entrants, t: Table, placed: Baseline.Draw, clubRule: bool)
    requires Wf(e, t)
    decreases |placed|
  {
    Placeable(e, t, placed) &&
    (placed == [] ||
      var init, last := placed[..|placed| - 1], placed[|placed| - 1];
      PlaceablePrefix(e, t, placed, |placed| - 1);
      Fits(e, t, init, clubRule) && Legal(e, t, BoardOf(e, t, init), last.0, last.1, clubRule))
  }

  /** One MRV step: `p` is still to be placed, `g` is in its current domain, and no
      player still to be placed has a smaller domain. */
  ghost predicate MrvStep(e: Entrants, t: Table, done: Baseline.Draw, p: Name, g: Group)
    requires Wf(e, t) && Placeable(e, t, done)
  {
    var b := BoardOf(e, t, done);
    && p in e.players
    && p !in NamesOf(done)
    && g in Domain(e, t, b, p)
    && forall q :: q in e.players && q !in NamesOf(done) ==> DomainSize(e, t, b, p) <= DomainSize(e, t, b, q)
  }

  /** Every placement of the draw was an MRV step. */
  ghost predicate MrvRun(e: Entrants, t: Table, placed: Baseline.Draw)
    requires Wf(e, t)
    decreases |placed|
  {
    Placeable(e, t, placed) &&
    (placed == [] ||
      var init, last := placed[..|placed| - 1], placed[|placed| - 1];
      PlaceablePrefix(e, t, placed, |placed| - 1);
      MrvRun(e, t, init) && MrvStep(e, t, init, last.0, last.1))
  }

  // ---------------------------------------------------------------------------
  // One restart

  /** `len(cur_dom)`. */
  function DomainSize(e: Entrants, t: Table, b: Board, p: Name): nat
    requires Wf(e, t) && Keyed(b, t) && Known(e, p)
  {
    |Domain(e, t, b, p)|
  }

  /** What the scan knows after looking at the players of `done`: `best` is the smallest
      domain size seen (none before the first player) and `candidates` are exactly the
      players seen with that size. */
  ghost predicate Scanned(e: Entrants, t: Table, b: Board, done: set<Name>, best: Option<nat>, candidates: seq<Name>)
    requires Wf(e, t) && Keyed(b, t)
    requires forall p :: p in done ==> p in e.players
  {
    && (best.None? <==> done == {})
    && (best.None? ==> candidates == [])
    && (best.Some? ==>
      && best.value > 0
      && candidates != []
      && (forall c :: c in candidates ==> c in done && DomainSize(e, t, b, c) == best.value)
      && (forall q :: q in done ==> best.value <= DomainSize(e, t, b, q))
      && (forall q :: q in done && DomainSize(e, t, b, q) == best.value ==> q in candidates))
  }

  /** One player of the scan with a non-empty domain: a smaller domain restarts the
      candidate list, an equal one joins it. */
  method ScanPlayer(e: Entrants, t: Table, b: Board, ghost done: set<Name>, best: Option<nat>, candidates: seq<Name>,
                    p: Name, size: nat)
    returns (best': Option<nat>, candidates': seq<Name>)
    requires Wf(e, t) && Keyed(b, t)
    requires forall q :: q in done ==> q in e.players
    requires p in e.players && p !in done && size == DomainSize(e, t, b, p) && size > 0
    requires Scanned(e, t, b, done, best, candidates)
    ensures Scanned(e, t, b, done + {p}, best', candidates')
  {
    if best.None? || size < best.value {
      best', candidates' := Some(size), [p];
    } else if size == best.value {
      best', candidates' := best, candidates + [p];
    } else {
      best', candidates' := best, candidates;
    }
  }

  /** The selection scan over `remaining` (in the set's arbitrary order): a player with an
      empty domain stops the scan as the only candidate with `min_size == 0`; otherwise
      the candidates are exactly the remaining players of smallest domain. */
  method SelectPlayer(e: Entrants, t: Table, b: Board, remaining: set<Name>)
    returns (minSize: nat, candidates: seq<Name>)
    requires Wf(e, t) && Keyed(b, t)
    requires remaining != {} && forall p :: p in remaining ==> p in e.players
    ensures candidates != [] && forall c :: c in candidates ==> c in remaining
    ensures minSize == 0 ==> |candidates| == 1 && DomainSize(e, t, b, candidates[0]) == 0
    ensures minSize > 0 ==> forall c :: c in candidates ==> DomainSize(e, t, b, c) == minSize
    ensures minSize > 0 ==> forall q :: q in remaining ==> minSize <= DomainSize(e, t, b, q)
    ensures minSize > 0 ==> forall q :: q in remaining && DomainSize(e, t, b, q) == minSize ==> q in candidates
  {
    var best: Option<nat> := None;
    candidates := [];
    var todo := remaining;
    ghost var done: set<Name> := {};
    while todo != {}
      invariant todo <= remaining && done == remaining - todo
      invariant Scanned(e, t, b, done, best, candidates)
      decreases |todo|
    {
      var p :| p in todo;
      var size := DomainSize(e, t, b, p);
      if size == 0 {
        return 0, [p];
      }
      best, candidates := ScanPlayer(e, t, b, done, best, candidates, p, size);
      todo, done := todo - {p}, done + {p};
    }
    minSize := best.value;
  }

  /** Appending one placement: the board is one `Apply` further and the player joins the
      placed names. */
  lemma Extend(e: Entrants, t: Table, placed: Baseline.Draw, p: Name, g: Group)
    requires Placeable(e, t, placed) && Known(e, p) && g in t.free
    ensures Placeable(e, t, placed + [(p, g)])
    ensures (placed + [(p, g)])[..|placed|] == placed
    ensures BoardOf(e, t, placed + [(p, g)]) == Apply(e, BoardOf(e, t, placed), p, g)
  {
    var placed' := placed + [(p, g)];
    assert placed'[..|placed|] == placed;
  }

  lemma MrvExtend(e: Entrants, t: Table, placed: Baseline.Draw, p: Name, g: Group)
    requires Wf(e, t) && MrvRun(e, t, placed) && Known(e, p) && g in t.free
    requires MrvStep(e, t, placed, p, g)
    ensures MrvRun(e, t, placed + [(p, g)])
  {
    Extend(e, t, placed, p, g);
  }

  /** The state of a restart: the placements so far form an MRV run, `board` is their
      board and `remaining` the players not yet placed. */
  ghost predicate Restarting(e: Entrants, t: Table, placed: Baseline.Draw, board: Board, remaining: set<Name>)
    requires Wf(e, t)
  {
    && MrvRun(e, t, placed)
    && board == BoardOf(e, t, placed)
    && remaining == PlayerSet(e) - NamesOf(placed)
    && NamesOf(placed) <= PlayerSet(e)
    && DistinctPlayers(placed)
  }

  /** One pass of the restart loop: select, then either report the stuck player or place
      a candidate in a group of its domain. */
  method RestartStep(e: Entrants, t: Table, placed: Baseline.Draw, board: Board, remaining: set<Name>)
    returns (failed: bool, placed': Baseline.Draw, board': Board, remaining': set<Name>, ghost stuck: Name)
    requires Wf(e, t) && Restarting(e, t, placed, board, remaining) && remaining != {}
    ensures Restarting(e, t, placed', board', remaining')
    ensures failed ==> placed' == placed && stuck in remaining && Domain(e, t, board, stuck) == []
    ensures !failed ==> |remaining'| < |remaining|
  {
    var minSize, candidates := SelectPlayer(e, t, board, remaining);
    if minSize == 0 {
      return true, placed, board, remaining, candidates[0];
    }
    assert candidates[0] in candidates;
    var p :| p in candidates;
    var allowed := Domain(e, t, board, p);
    assert |allowed| == DomainSize(e, t, board, p) > 0;
    assert allowed[0] in allowed;
    var g :| g in allowed;
    DomainMembers(e, t, board, p);
    PlaceStep(e, t, placed, board, remaining, p, g);
    placed', board', remaining' := placed + [(p, g)], Apply(e, board, p, g), remaining - {p};
    failed, stuck := false, p;
  }

  /** Placing a remaining player of smallest domain in a group of its domain keeps the
      restart state. */
  lemma PlaceStep(e: Entrants, t: Table, placed: Baseline.Draw, board: Board, remaining: set<Name>, p: Name, g: Group)
    requires Wf(e, t) && Restarting(e, t, placed, board, remaining)
    requires p in remaining && g in t.free && g in Domain(e, t, board, p)
    requires forall q :: q in remaining ==> DomainSize(e, t, board, p) <= DomainSize(e, t, board, q)
    ensures Restarting(e, t, placed + [(p, g)], Apply(e, board, p, g), remaining - {p})
  {
    DomainMembers(e, t, board, p);
    Extend(e, t, placed, p, g);
    MrvExtend(e, t, placed, p, g);
    DistinctSnoc(placed, (p, g));
  }

  /** One restart of the MRV loop: on success every player is placed once; on failure
      some player still to be placed has an empty domain. Each placement is an MRV step:
      a player of smallest domain, put in a group of its domain. The choice among the
      candidates (`random.choice`) and of the group (`random.choice` for a seeded
      player, a choice weighted by the free places otherwise) is left open. */
  method Restart(e: Entrants, t: Table) returns (ok: bool, placed: Baseline.Draw)
    requires Wf(e, t)
    ensures MrvRun(e, t, placed) && DistinctPlayers(placed)
    ensures ok ==> NamesOf(placed) == PlayerSet(e) && |placed| == |e.players|
    ensures !ok ==> exists p :: p in e.players && p !in NamesOf(placed) && Domain(e, t, BoardOf(e, t, placed), p) == []
  {
    placed := [];
    var board := Start(t);
    var remaining := PlayerSet(e);
    var failed := false;
    ghost var stuck: Name;
    while remaining != {}
      invariant Restarting(e, t, placed, board, remaining)
      decreases |remaining|
    {
      var placed', board', remaining';
      failed, placed', board', remaining', stuck := RestartStep(e, t, placed, board, remaining);
      if failed {
        break;
      }
      placed, board, remaining := placed', board', remaining';
    }
    RestartEnd(e, t, placed, board, remaining);
    ok := !failed;
  }

  /** What a restart state says once the loop stops. */
  lemma RestartEnd(e: Entrants, t: Table, placed: Baseline.Draw, board: Board, remaining: set<Name>)
    requires Wf(e, t) && Restarting(e, t, placed, board, remaining)
    ensures MrvRun(e, t, placed) && DistinctPlayers(placed) && board == BoardOf(e, t, placed)
    ensures remaining == {} ==> NamesOf(placed) == PlayerSet(e) && |placed| == |e.players|
    ensures forall p :: p in remaining ==> p in e.players && p !in NamesOf(placed)
  {
    if remaining == {} {
      CompleteRun(e, t, placed);
    }
  }

  /** A draw of distinct players that placed every player has one entry per player. */
  lemma CompleteRun(e: Entrants, t: Table, placed: Baseline.Draw)
    requires Wf(e, t) && DistinctPlayers(placed) && NamesOf(placed) == PlayerSet(e)
    ensures |placed| == |e.players|
  {
    DistinctCard(placed);
    PlayersCard(e.players);
  }

  lemma DistinctSnoc(init: Baseline.Draw, last: (Name, Group))
    requires DistinctPlayers(init) && last.0 !in NamesOf(init)
    ensures DistinctPlayers(init + [last])
  {
    NamesOfEntries(init);
    var placed := init + [last];
    forall i, j | 0 <= i < j < |placed| ensures placed[i].0 != placed[j].0 {
      assert placed[i] == init[i];
      if j < |init| {
        assert placed[j] == init[j];
      }
    }
  }

  /** A draw with distinct players has as many names as entries. */
  lemma {:induction false} DistinctCard(placed: Baseline.Draw)
    requires DistinctPlayers(placed)
    ensures |NamesOf(placed)| == |placed|
    decreases |placed|
  {
    if placed != [] {
      var init := placed[..|placed| - 1];
      assert DistinctPlayers(init) by {
        forall i, j | 0 <= i < j < |init| ensures init[i].0 != init[j].0 {
          assert init[i] == placed[i] && init[j] == placed[j];
        }
      }
      DistinctCard(init);
      NamesOfEntries(init);
    }
  }

  /** A list of distinct names has as many members as entries. */
  lemma {:induction false} PlayersCard(s: seq<Name>)
    requires UniqueNames(s)
    ensures |set p | p in s| == |s|
    decreases |s|
  {
    if s != [] {
      var init, last := s[..|s| - 1], s[|s| - 1];
      assert UniqueNames(init) by {
        forall i, j | 0 <= i < j < |init| ensures init[i] != init[j] {
          assert init[i] == s[i] && init[j] == s[j];
        }
      }
      PlayersCard(init);
      assert s == init + [last];
      assert (set p | p in s) == (set p | p in init) + {last};
    }
  }

  // ---------------------------------------------------------------------------
  // What a legal draw guarantees

  /** Number of seeded players placed in `g`. */
  function SeededIn(e: Entrants, t: Table, placed: Baseline.Draw, g: Group): nat
    requires Placeable(e, t, placed)
  {
    if placed == [] then 0
    else
      var last := placed[|placed| - 1];
      PlaceablePrefix(e, t, placed, |placed| - 1);
      SeededIn(e, t, placed[..|placed| - 1], g) + (if last.1 == g && e.seedOf[last.0].Some? then 1 else 0)
  }

  /** Number of unseeded players placed in `g`. */
  function UnseededIn(e: Entrants, t: Table, placed: Baseline.Draw, g: Group): nat
    requires Placeable(e, t, placed)
  {
    if placed == [] then 0
    else
      var last := placed[|placed| - 1];
      PlaceablePrefix(e, t, placed, |placed| - 1);
      UnseededIn(e, t, placed[..|placed| - 1], g) + (if last.1 == g && e.seedOf[last.0].None? then 1 else 0)
  }

  /** The clubs of the players placed in `g`. */
  function ClubsIn(e: Entrants, t: Table, placed: Baseline.Draw, g: Group): set<Club>
    requires Placeable(e, t, placed)
  {
    if placed == [] then {}
    else
      var last := placed[|placed| - 1];
      PlaceablePrefix(e, t, placed, |placed| - 1);
      ClubsIn(e, t, placed[..|placed| - 1], g) + (if last.1 == g then {e.clubOf[last.0]} else {})
  }

  /** The board after a draw is the start board less the draw's placements. */
  lemma {:induction false} BoardCounts(e: Entrants, t: Table, placed: Baseline.Draw, g: Group)
    requires Placeable(e, t, placed) && g in t.free
    ensures BoardOf(e, t, placed).seeds[g] == 1 - SeededIn(e, t, placed, g)
    ensures BoardOf(e, t, placed).slots[g] == t.free[g] - UnseededIn(e, t, placed, g)
    ensures BoardOf(e, t, placed).clubs[g] == ClubsIn(e, t, placed, g)
    decreases |placed|
  {
    if placed != [] {
      PlaceablePrefix(e, t, placed, |placed| - 1);
      BoardCounts(e, t, placed[..|placed| - 1], g);
    }
  }

  /** Every group of a legal draw holds at most one seeded player and at most its free
      places of unseeded players. */
  lemma FitsCapacity(e: Entrants, t: Table, placed: Baseline.Draw, clubRule: bool)
    requires Wf(e, t) && Fits(e, t, placed, clubRule)
    ensures forall g :: g in t.free ==> SeededIn(e, t, placed, g) <= 1 && UnseededIn(e, t, placed, g) <= t.free[g]
  {
    forall g | g in t.free ensures SeededIn(e, t, placed, g) <= 1 && UnseededIn(e, t, placed, g) <= t.free[g] {
      FitsCapacityAt(e, t, placed, clubRule, g);
    }
  }

  lemma {:induction false} FitsCapacityAt(e: Entrants, t: Table, placed: Baseline.Draw, clubRule: bool, g: Group)
    requires Wf(e, t) && Fits(e, t, placed, clubRule) && g in t.free
    ensures SeededIn(e, t, placed, g) <= 1 && UnseededIn(e, t, placed, g) <= t.free[g]
    decreases |placed|
  {
    if placed != [] {
      var init := placed[..|placed| - 1];
      PlaceablePrefix(e, t, placed, |placed| - 1);
      FitsCapacityAt(e, t, init, clubRule, g);
      BoardCounts(e, t, init, g);
    }
  }

  /** No two players of a draw in the same group share a club. */
  predicate ClubsApart(e: Entrants, t: Table, placed: Baseline.Draw)
    requires Placeable(e, t, placed)
  {
    forall i, j :: 0 <= i < j < |placed| && placed[i].1 == placed[j].1 ==>
      e.clubOf[placed[i].0] != e.clubOf[placed[j].0]
  }

  lemma {:induction false} ClubsInHas(e: Entrants, t: Table, placed: Baseline.Draw, k: nat)
    requires Placeable(e, t, placed) && k < |placed|
    ensures e.clubOf[placed[k].0] in ClubsIn(e, t, placed, placed[k].1)
    decreases |placed|
  {
    if k < |placed| - 1 {
      var init := placed[..|placed| - 1];
      PlaceablePrefix(e, t, placed, |placed| - 1);
      ClubsInHas(e, t, init, k);
      assert init[k] == placed[k];
    }
  }

  /** Under the club rule, no group of a legal draw holds two players of one club. */
  lemma {:induction false} FitsClubs(e: Entrants, t: Table, placed: Baseline.Draw)
    requires Wf(e, t) && Fits(e, t, placed, true)
    ensures ClubsApart(e, t, placed)
    decreases |placed|
  {
    if placed != [] {
      var init, last := placed[..|placed| - 1], placed[|placed| - 1];
      PlaceablePrefix(e, t, placed, |placed| - 1);
      FitsClubs(e, t, init);
      BoardCounts(e, t, init, last.1);
      ClubsApartSnoc(e, t, placed);
    }
  }

  /** A player whose club is not yet in its group keeps the clubs apart. */
  lemma ClubsApartSnoc(e: Entrants, t: Table, placed: Baseline.Draw)
    requires placed != [] && Placeable(e, t, placed) && Placeable(e, t, placed[..|placed| - 1])
    requires ClubsApart(e, t, placed[..|placed| - 1])
    requires e.clubOf[placed[|placed| - 1].0] !in ClubsIn(e, t, placed[..|placed| - 1], placed[|placed| - 1].1)
    ensures ClubsApart(e, t, placed)
  {
    var init := placed[..|placed| - 1];
    forall i, j | 0 <= i < j < |placed| && placed[i].1 == placed[j].1
      ensures e.clubOf[placed[i].0] != e.clubOf[placed[j].0]
    {
      assert placed[i] == init[i];
      if j < |init| {
        assert placed[j] == init[j];
      } else {
        ClubsInHas(e, t, init, i);
      }
    }
  }

  /** Every MRV step is legal under the club rule. */
  lemma {:induction false} MrvFits(e: Entrants, t: Table, placed: Baseline.Draw)
    requires Wf(e, t) && MrvRun(e, t, placed)
    ensures Fits(e, t, placed, true)
    decreases |placed|
  {
    if placed != [] {
      var init, last := placed[..|placed| - 1], placed[|placed| - 1];
      PlaceablePrefix(e, t, placed, |placed| - 1);
      MrvFits(e, t, init);
      DomainMembers(e, t, BoardOf(e, t, init), last.0);
    }
  }

  /** A draw legal under the club rule is legal without it. */
  lemma {:induction false} FitsLoose(e: Entrants, t: Table, placed: Baseline.Draw)
    requires Wf(e, t) && Fits(e, t, placed, true)
    ensures Fits(e, t, placed, false)
    decreases |placed|
  {
    if placed != [] {
      PlaceablePrefix(e, t, placed, |placed| - 1);
      FitsLoose(e, t, placed[..|placed| - 1]);
    }
  }

  /** `s_tot`: the free places of the groups in `allowed`. */
  function TotalWeight(b: Board, allowed: seq<Group>): int
    requires forall g :: g in allowed ==> g in b.slots
  {
    if allowed == [] then 0 else TotalWeight(b, allowed[..|allowed| - 1]) + b.slots[allowed[|allowed| - 1]]
  }

  lemma {:induction false} TotalWeightPositive(b: Board, allowed: seq<Group>)
    requires allowed != [] && forall g :: g in allowed ==> g in b.slots && b.slots[g] > 0
    ensures TotalWeight(b, allowed) > 0
    decreases |allowed|
  {
    var init := allowed[..|allowed| - 1];
    assert allowed[|allowed| - 1] in allowed;
    if init != [] {
      forall g | g in init ensures g in b.slots && b.slots[g] > 0 {
        var k :| 0 <= k < |init| && init[k] == g;
        assert allowed[k] == g;
      }
      TotalWeightPositive(b, init);
    }
  }

  /** The weighted choice for an unseeded player never meets `s_tot == 0`: every group
      of a non-empty domain has a free place, so the weights sum to a positive number. */
  lemma WeightsPositive(e: Entrants, t: Table, b: Board, p: Name)
    requires Wf(e, t) && Keyed(b, t) && Known(e, p) && e.seedOf[p].None?
    requires Domain(e, t, b, p) != []
    ensures forall g :: g in Domain(e, t, b, p) ==> g in b.slots && b.slots[g] > 0
    ensures TotalWeight(b, Domain(e, t, b, p)) > 0
  {
    DomainMembers(e, t, b, p);
    TotalWeightPositive(b, Domain(e, t, b, p));
  }

  // ---------------------------------------------------------------------------
  // The fallback order

  /** `seed_priority.get(seed, 99)`: 1 first, then 2, 3/4, 5/8 and any other seed. */
  function Priority(seed: ParsedSeed): nat
  {
    if seed == Int(1) then 0
    else if seed == Int(2) then 1
    else if seed == ThreeFour then 2
    else if seed == FiveEight then 3
    else 99
  }

  predicate Seeded(e: Entrants, p: Name)
    requires p in e.seedOf
  {
    e.seedOf[p].Some?
  }

  predicate AllKnown(e: Entrants, s: seq<Name>)
  {
    forall i :: 0 <= i < |s| ==> s[i] in e.seedOf
  }

  /** The seeded players of `s` of the given priority, in order. */
  function WithPriority(e: Entrants, s: seq<Name>, prio: nat): (r: seq<Name>)
    requires AllKnown(e, s)
    ensures AllKnown(e, r)
  {
    if s == [] then []
    else
      var init, p := s[..|s| - 1], s[|s| - 1];
      WithPriority(e, init, prio) + (if Seeded(e, p) && Priority(e.seedOf[p].value) == prio then [p] else [])
  }

  /** `[p for p, s in seed_map.items() if s is not None]`. */
  function SeededOf(e: Entrants, s: seq<Name>): (r: seq<Name>)
    requires AllKnown(e, s)
    ensures AllKnown(e, r)
  {
    if s == [] then []
    else SeededOf(e, s[..|s| - 1]) + (if Seeded(e, s[|s| - 1]) then [s[|s| - 1]] else [])
  }

  /** `[p for p, s in seed_map.items() if s is None]`. */
  function UnseededOf(e: Entrants, s: seq<Name>): (r: seq<Name>)
    requires AllKnown(e, s)
    ensures AllKnown(e, r)
  {
    if s == [] then []
    else UnseededOf(e, s[..|s| - 1]) + (if !Seeded(e, s[|s| - 1]) then [s[|s| - 1]] else [])
  }

  /** `seeded_players`: the seeded players stably sorted by priority, that is the players
      of each priority in their original order, priority after priority. */
  function SeededByPriority(e: Entrants): seq<Name>
    requires AllKnown(e, e.players)
  {
    var s := e.players;
    WithPriority(e, s, 0) + WithPriority(e, s, 1) + WithPriority(e, s, 2) + WithPriority(e, s, 3)
      + WithPriority(e, s, 99)
  }

  /** The players of a priority bucket are seeded and have that priority. */
  lemma {:induction false} WithPriorityMembers(e: Entrants, s: seq<Name>, prio: nat)
    requires AllKnown(e, s)
    ensures forall i :: 0 <= i < |WithPriority(e, s, prio)| ==>
      Seeded(e, WithPriority(e, s, prio)[i]) && Priority(e.seedOf[WithPriority(e, s, prio)[i]].value) == prio
    decreases |s|
  {
    if s != [] {
      var init := s[..|s| - 1];
      WithPriorityMembers(e, init, prio);
    }
  }

  /** Non-decreasing priority along a list of seeded players. */
  predicate PrioritySorted(e: Entrants, s: seq<Name>)
    requires AllKnown(e, s)
  {
    && (forall i :: 0 <= i < |s| ==> Seeded(e, s[i]))
    && (forall i, j :: 0 <= i < j < |s| ==> Priority(e.seedOf[s[i]].value) <= Priority(e.seedOf[s[j]].value))
  }

  /** Every player of the list is seeded with priority at most `prio`. */
  predicate AtMost(e: Entrants, s: seq<Name>, prio: nat)
    requires AllKnown(e, s)
  {
    forall i :: 0 <= i < |s| ==> Seeded(e, s[i]) && Priority(e.seedOf[s[i]].value) <= prio
  }

  /** Appending a bucket of priority `prio` to a sorted list of priorities at most `prio`. */
  lemma AppendBucket(e: Entrants, a: seq<Name>, s: seq<Name>, prio: nat)
    requires AllKnown(e, a) && AllKnown(e, s) && PrioritySorted(e, a) && AtMost(e, a, prio)
    ensures AllKnown(e, a + WithPriority(e, s, prio))
    ensures PrioritySorted(e, a + WithPriority(e, s, prio)) && AtMost(e, a + WithPriority(e, s, prio), prio)
  {
    var b := WithPriority(e, s, prio);
    WithPriorityMembers(e, s, prio);
    var r := a + b;
    forall i | 0 <= i < |r| ensures r[i] in e.seedOf && Seeded(e, r[i]) && Priority(e.seedOf[r[i]].value) <= prio {
      if i >= |a| {
        assert r[i] == b[i - |a|];
      }
    }
    forall i, j | 0 <= i < j < |r| ensures Priority(e.seedOf[r[i]].value) <= Priority(e.seedOf[r[j]].value) {
      if j >= |a| {
        assert r[j] == b[j - |a|];
        if i >= |a| {
          assert r[i] == b[i - |a|];
        }
      }
    }
  }

  lemma AtMostRaise(e: Entrants, s: seq<Name>, lo: nat, hi: nat)
    requires AllKnown(e, s) && AtMost(e, s, lo) && lo <= hi
    ensures AtMost(e, s, hi)
  {
  }

  /** `seeded_players` lists seeded players in non-decreasing priority. */
  lemma SeededByPrioritySorted(e: Entrants)
    requires AllKnown(e, e.players)
    ensures PrioritySorted(e, SeededByPriority(e))
  {
    var s := e.players;
    var a0 := WithPriority(e, s, 0);
    AppendBucket(e, [], s, 0);
    assert [] + a0 == a0;
    var a1 := a0 + WithPriority(e, s, 1);
    AtMostRaise(e, a0, 0, 1);
    AppendBucket(e, a0, s, 1);
    var a2 := a1 + WithPriority(e, s, 2);
    AtMostRaise(e, a1, 1, 2);
    AppendBucket(e, a1, s, 2);
    var a3 := a2 + WithPriority(e, s, 3);
    AtMostRaise(e, a2, 2, 3);
    AppendBucket(e, a2, s, 3);
    AtMostRaise(e, a3, 3, 99);
    AppendBucket(e, a3, s, 99);
  }

  /** The buckets together hold exactly the seeded players. */
  lemma {:induction false} BucketsPartition(e: Entrants, s: seq<Name>)
    requires AllKnown(e, s)
    ensures multiset(WithPriority(e, s, 0)) + multiset(WithPriority(e, s, 1)) + multiset(WithPriority(e, s, 2))
      + multiset(WithPriority(e, s, 3)) + multiset(WithPriority(e, s, 99)) == multiset(SeededOf(e, s))
    decreases |s|
  {
    if s != [] {
      BucketsPartition(e, s[..|s| - 1]);
    }
  }

  /** `seeded_players` is a reordering of the seeded players. */
  lemma SeededByPriorityPermutes(e: Entrants)
    requires AllKnown(e, e.players)
    ensures multiset(SeededByPriority(e)) == multiset(SeededOf(e, e.players))
  {
    BucketsPartition(e, e.players);
  }

  /** Splitting the players into seeded and unseeded loses and adds no one. */
  lemma {:induction false} SplitSeeded(e: Entrants, s: seq<Name>)
    requires AllKnown(e, s)
    ensures multiset(SeededOf(e, s)) + multiset(UnseededOf(e, s)) == multiset(s)
    decreases |s|
  {
    if s != [] {
      SplitSeeded(e, s[..|s| - 1]);
      SnocMultiset(s);
    }
  }

  lemma SnocMultiset(s: seq<Name>)
    requires s != []
    ensures multiset(s) == multiset(s[..|s| - 1]) + multiset{s[|s| - 1]}
  {
    assert s == s[..|s| - 1] + [s[|s| - 1]];
  }

  lemma {:induction false} UniqueCounts(s: seq<Name>)
    requires UniqueNames(s)
    ensures forall x :: multiset(s)[x] <= 1
    decreases |s|
  {
    if s != [] {
      var init, last := s[..|s| - 1], s[|s| - 1];
      assert UniqueNames(init) by {
        forall i, j | 0 <= i < j < |init| ensures init[i] != init[j] {
          assert init[i] == s[i] && init[j] == s[j];
        }
      }
      UniqueCounts(init);
      assert s == init + [last];
      assert last !in init by {
        forall k | 0 <= k < |init| ensures init[k] != last {
          assert init[k] == s[k];
        }
      }
    }
  }

  lemma CountsUnique(s: seq<Name>)
    requires forall x :: multiset(s)[x] <= 1
    ensures UniqueNames(s)
  {
    forall i, j | 0 <= i < j < |s| ensures s[i] != s[j] {
      assert s == s[..j] + s[j..];
      assert multiset(s) == multiset(s[..j]) + multiset(s[j..]);
      assert s[i] == s[..j][i] && s[j] == s[j..][0];
      assert s[i] in multiset(s[..j]) && s[j] in multiset(s[j..]);
      assert multiset(s)[s[i]] <= 1 && multiset(s)[s[j]] <= 1;
    }
  }

  /** `seeded_players + unseeded_players` lists every player exactly once when
      `unseeded_players` is a shuffle of the unseeded players. */
  lemma FallbackOrder(e: Entrants, t: Table, shuffled: seq<Name>)
    requires Wf(e, t) && multiset(shuffled) == multiset(UnseededOf(e, e.players))
    ensures UniqueNames(SeededByPriority(e) + shuffled)
    ensures forall p :: p in SeededByPriority(e) + shuffled <==> p in e.players
  {
    var order := SeededByPriority(e) + shuffled;
    SeededByPriorityPermutes(e);
    SplitSeeded(e, e.players);
    assert multiset(order) == multiset(e.players);
    UniqueCounts(e.players);
    CountsUnique(order);
    forall p ensures p in order <==> p in e.players {
      assert p in order <==> p in multiset(order);
    }
  }

  // ---------------------------------------------------------------------------
  // The fallback

  /** Placing `p` never opens a place: a player with no allowed group with room still
      has none. */
  lemma SoftShrinks(e: Entrants, t: Table, b: Board, p: Name, g: Group, q: Name)
    requires Wf(e, t) && Keyed(b, t) && Known(e, p) && Known(e, q) && g in t.free
    requires SoftDomain(e, t, b, q) == []
    ensures SoftDomain(e, t, Apply(e, b, p, g), q) == []
  {
    var b' := Apply(e, b, p, g);
    SoftDomainMembers(e, t, b, q);
    SoftDomainMembers(e, t, b', q);
    FirstIn(SoftDomain(e, t, b', q));
  }

  /** A legal placement extends a legal draw. */
  lemma FitsExtend(e: Entrants, t: Table, placed: Baseline.Draw, p: Name, g: Group, clubRule: bool)
    requires Wf(e, t) && Fits(e, t, placed, clubRule) && Known(e, p) && g in t.free
    requires Legal(e, t, BoardOf(e, t, placed), p, g, clubRule)
    ensures Fits(e, t, placed + [(p, g)], clubRule)
  {
    Extend(e, t, placed, p, g);
  }

  /** The first `i` players of `order`. */
  function Firsts(order: seq<Name>, i: nat): set<Name>
    requires i <= |order|
  {
    if i == 0 then {} else Firsts(order, i - 1) + {order[i - 1]}
  }

  lemma {:induction false} FirstsMembers(order: seq<Name>, i: nat)
    requires i <= |order|
    ensures forall k :: 0 <= k < i ==> order[k] in Firsts(order, i)
    ensures forall p :: p in Firsts(order, i) ==> p in order
  {
    if i > 0 {
      FirstsMembers(order, i - 1);
    }
  }

  lemma {:induction false} FirstsUnique(order: seq<Name>, i: nat)
    requires i < |order| && UniqueNames(order)
    ensures order[i] !in Firsts(order, i)
  {
    FirstsMembers(order, i);
    if order[i] in Firsts(order, i) {
      FirstsBefore(order, i, order[i]);
    }
  }

  lemma {:induction false} FirstsBefore(order: seq<Name>, i: nat, p: Name)
    requires i <= |order| && p in Firsts(order, i)
    ensures exists k :: 0 <= k < i && order[k] == p
  {
    if p != order[i - 1] {
      FirstsBefore(order, i - 1, p);
    }
  }

  /** Players left out of the fallback have no allowed group with room on `board`. */
  ghost predicate LeftOut(e: Entrants, t: Table, board: Board, skipped: set<Name>)
    requires Wf(e, t) && Keyed(board, t)
  {
    forall q :: q in skipped ==> q in e.players && SoftDomain(e, t, board, q) == []
  }

  /** The state of the fallback after the first `i` players of `order`: a legal draw
      without the club rule, of distinct players, and each of those `i` players either
      placed or skipped with no allowed group with room. */
  ghost predicate Falling(e: Entrants, t: Table, order: seq<Name>, i: nat, placed: Baseline.Draw, board: Board,
                          skipped: set<Name>)
    requires Wf(e, t) && i <= |order|
  {
    && Fits(e, t, placed, false)
    && board == BoardOf(e, t, placed)
    && DistinctPlayers(placed)
    && Firsts(order, i) == NamesOf(placed) + skipped
    && LeftOut(e, t, board, skipped)
  }

  /** One player of the fallback: skipped when no allowed group has room, otherwise
      placed in one of them (`random.choice(allowed)`). */
  method FallbackStep(e: Entrants, t: Table, order: seq<Name>, i: nat, placed: Baseline.Draw, board: Board,
                      ghost skipped: set<Name>)
    returns (placed': Baseline.Draw, board': Board, ghost skipped': set<Name>)
    requires Wf(e, t) && i < |order| && UniqueNames(order)
    requires forall p :: p in order ==> p in e.players
    requires Falling(e, t, order, i, placed, board, skipped)
    ensures Falling(e, t, order, i + 1, placed', board', skipped')
  {
    var p := order[i];
    var allowed := SoftDomain(e, t, board, p);
    if allowed == [] {
      placed', board', skipped' := placed, board, skipped + {p};
    } else {
      assert allowed[0] in allowed;
      var g :| g in allowed;
      FallPlace(e, t, order, i, placed, board, skipped, g);
      placed', board', skipped' := placed + [(p, g)], Apply(e, board, p, g), skipped;
    }
  }

  lemma FallPlace(e: Entrants, t: Table, order: seq<Name>, i: nat, placed: Baseline.Draw, board: Board,
                  skipped: set<Name>, g: Group)
    requires Wf(e, t) && i < |order| && UniqueNames(order)
    requires order[i] in e.players
    requires Falling(e, t, order, i, placed, board, skipped)
    requires g in SoftDomain(e, t, board, order[i])
    ensures g in t.free
    ensures Falling(e, t, order, i + 1, placed + [(order[i], g)], Apply(e, board, order[i], g), skipped)
  {
    var p := order[i];
    SoftDomainMembers(e, t, board, p);
    FirstsUnique(order, i);
    FitsExtend(e, t, placed, p, g, false);
    Extend(e, t, placed, p, g);
    DistinctSnoc(placed, (p, g));
    LeftOutKept(e, t, board, p, g, skipped);
  }

  lemma LeftOutKept(e: Entrants, t: Table, board: Board, p: Name, g: Group, skipped: set<Name>)
    requires Wf(e, t) && Keyed(board, t) && Known(e, p) && g in t.free
    requires LeftOut(e, t, board, skipped)
    ensures LeftOut(e, t, Apply(e, board, p, g), skipped)
  {
    forall q | q in skipped ensures q in e.players && SoftDomain(e, t, Apply(e, board, p, g), q) == [] {
      SoftShrinks(e, t, board, p, g, q);
    }
  }

  /** The fallback draw: the players of `order` in turn, each placed in a random allowed
      group with room of its kind, clubs ignored, and skipped when there is none. */
  method Fallback(e: Entrants, t: Table, order: seq<Name>) returns (placed: Baseline.Draw)
    requires Wf(e, t) && UniqueNames(order)
    requires forall p :: p in order ==> p in e.players
    ensures Fits(e, t, placed, false) && DistinctPlayers(placed)
    ensures forall p :: p in NamesOf(placed) ==> p in order
    ensures forall p :: p in order && p !in NamesOf(placed) ==> SoftDomain(e, t, BoardOf(e, t, placed), p) == []
  {
    placed := [];
    var board := Start(t);
    ghost var skipped: set<Name> := {};
    var i := 0;
    while i < |order|
      invariant i <= |order| && Falling(e, t, order, i, placed, board, skipped)
    {
      placed, board, skipped := FallbackStep(e, t, order, i, placed, board, skipped);
      i := i + 1;
    }
    FallDone(e, t, order, placed, board, skipped);
  }

  lemma FallDone(e: Entrants, t: Table, order: seq<Name>, placed: Baseline.Draw, board: Board, skipped: set<Name>)
    requires Wf(e, t) && Falling(e, t, order, |order|, placed, board, skipped)
    requires forall p :: p in order ==> p in e.players
    ensures forall p :: p in NamesOf(placed) ==> p in order
    ensures forall p :: p in order && p !in NamesOf(placed) ==> SoftDomain(e, t, BoardOf(e, t, placed), p) == []
  {
    FirstsMembers(order, |order|);
  }


  // ---------------------------------------------------------------------------
  // The simulations

  /** What one simulation yields: distinct players, and either a complete MRV draw or a
      fallback draw, legal without the club rule, that leaves out only players with no
      allowed group with room. */
  ghost predicate SimDraw(e: Entrants, t: Table, d: Baseline.Draw)
    requires Wf(e, t)
  {
    && DistinctPlayers(d)
    && NamesOf(d) <= PlayerSet(e)
    && ((MrvRun(e, t, d) && NamesOf(d) == PlayerSet(e))
        || (Fits(e, t, d, false)
            && forall p :: p in e.players && p !in NamesOf(d) ==> SoftDomain(e, t, BoardOf(e, t, d), p) == []))
  }

  /** One simulation: up to `maxRestarts` MRV restarts, the first complete one kept;
      without one, the fallback over `seeded_players + unseeded_players`. */
  method Simulation(e: Entrants, t: Table, maxRestarts: nat, seededPlayers: seq<Name>, shuffled: seq<Name>)
    returns (placed: Baseline.Draw)
    requires Wf(e, t) && seededPlayers == SeededByPriority(e)
    requires multiset(shuffled) == multiset(UnseededOf(e, e.players))
    ensures SimDraw(e, t, placed)
  {
    var success := false;
    placed := [];
    var restart := 0;
    while restart < maxRestarts && !success
      invariant success ==> MrvRun(e, t, placed) && DistinctPlayers(placed) && NamesOf(placed) == PlayerSet(e)
    {
      var ok, assignment := Restart(e, t);
      if ok {
        placed, success := assignment, true;
      }
      restart := restart + 1;
    }
    if !success {
      FallbackOrder(e, t, shuffled);
      placed := Fallback(e, t, seededPlayers + shuffled);
    }
  }

  /** `monte_carlo_mrv`: `nSim` simulations, the rows of simulation `sim` being its draw
      numbered `sim`. `shuffles[sim]` is the order `random.shuffle` gives the unseeded
      players in simulation `sim`. */
  method MonteCarloMrv(e: Entrants, t: Table, nSim: nat, maxRestarts: nat, shuffles: seq<seq<Name>>)
    returns (rows: seq<Baseline.Row>, ghost draws: seq<Baseline.Draw>)
    requires Wf(e, t) && |shuffles| == nSim
    requires forall sim :: 0 <= sim < nSim ==> multiset(shuffles[sim]) == multiset(UnseededOf(e, e.players))
    ensures |draws| == nSim && rows == Baseline.RowsOf(draws)
    ensures forall sim :: 0 <= sim < nSim ==> SimDraw(e, t, draws[sim])
  {
    var seededPlayers := SeededByPriority(e);
    rows, draws := [], [];
    var sim := 0;
    while sim < nSim
      invariant sim <= nSim && |draws| == sim && rows == Baseline.RowsOf(draws)
      invariant forall s :: 0 <= s < sim ==> SimDraw(e, t, draws[s])
    {
      var placed := Simulation(e, t, maxRestarts, seededPlayers, shuffles[sim]);
      assert (draws + [placed])[..sim] == draws;
      rows, draws := rows + Baseline.NumberedRows(placed, sim), draws + [placed];
      sim := sim + 1;
    }
  }

  /** Every player of a legal draw sits in a group its seed allows. */
  lemma FitsAllowed(e: Entrants, t: Table, placed: Baseline.Draw, clubRule: bool)
    requires Wf(e, t) && Fits(e, t, placed, clubRule)
    ensures forall k :: 0 <= k < |placed| ==> placed[k].1 in SeedAllowedGroups(e.seedOf[placed[k].0], t.groups)
  {
    forall k | 0 <= k < |placed| ensures placed[k].1 in SeedAllowedGroups(e.seedOf[placed[k].0], t.groups) {
      FitsAllowedAt(e, t, placed, clubRule, k);
    }
  }

  lemma {:induction false} FitsAllowedAt(e: Entrants, t: Table, placed: Baseline.Draw, clubRule: bool, k: nat)
    requires Wf(e, t) && Fits(e, t, placed, clubRule) && k < |placed|
    ensures placed[k].1 in SeedAllowedGroups(e.seedOf[placed[k].0], t.groups)
    decreases |placed|
  {
    if k < |placed| - 1 {
      var init := placed[..|placed| - 1];
      PlaceablePrefix(e, t, placed, |placed| - 1);
      FitsAllowedAt(e, t, init, clubRule, k);
      assert init[k] == placed[k];
    }
  }

  /** Every simulation's draw puts each player in a group its seed allows, at most one
      seeded player and at most the free places of unseeded players in each group; an
      MRV draw also keeps clubs apart. */
  lemma SimDrawSound(e: Entrants, t: Table, d: Baseline.Draw)
    requires Wf(e, t) && SimDraw(e, t, d)
    ensures Placeable(e, t, d)
    ensures forall k :: 0 <= k < |d| ==> d[k].1 in SeedAllowedGroups(e.seedOf[d[k].0], t.groups)
    ensures forall g :: g in t.free ==> SeededIn(e, t, d, g) <= 1 && UnseededIn(e, t, d, g) <= t.free[g]
    ensures MrvRun(e, t, d) ==> ClubsApart(e, t, d)
  {
    if MrvRun(e, t, d) {
      MrvFits(e, t, d);
      FitsClubs(e, t, d);
      FitsLoose(e, t, d);
    }
    FitsAllowed(e, t, d, false);
    FitsCapacity(e, t, d, false);
  }
}
