/** `simulated_annealing` and `calibrate_temperature`: a random walk over valid draws by
    player exchanges, scored against the stored history. */
module Annealing {
  import opened Common
  import opened Bracket
  import opened DrawRules
  import opened Penalty
  import opened History
  import opened StartDraw
  import opened Moves

  /** A draw the search may hold: 11 groups, every player known to the club map and the
      history, and both hard rules kept. */
  predicate Ready(a: Assignment, clubs: map<Name, Club>, fixed: set<Name>, c: Counters)
  {
    |a| == NGroups && Scorable(a, clubs, c.visits) && ValidAssignment(a, clubs, fixed)
  }

  // ---------------------------------------------------------------------------
  // Cooling schedule

  /** `T * cooling_rate`. */
  function Scale(T: real, rate: real): real
  {
    T * rate
  }

  /** `T = max(T_end, T * cooling_rate)`. */
  function Cool(T: real, tEnd: real, rate: real): real
  {
    if tEnd >= Scale(T, rate) then tEnd else Scale(T, rate)
  }

  /** The temperature after `k` iterations. */
  function CoolAfter(T0: real, tEnd: real, rate: real, k: nat): real
  {
    if k == 0 then T0 else Cool(CoolAfter(T0, tEnd, rate, k - 1), tEnd, rate)
  }

  /** From a start at or above the floor and a rate in [0, 1], the temperature never
      rises, never leaves [T_end, T_start], and is at the floor or above after any step. */
  lemma {:induction false} CoolingBounds(T0: real, tEnd: real, rate: real, k: nat)
    requires 0.0 <= tEnd <= T0 && 0.0 <= rate <= 1.0
    ensures tEnd <= CoolAfter(T0, tEnd, rate, k) <= T0
    ensures CoolAfter(T0, tEnd, rate, k + 1) <= CoolAfter(T0, tEnd, rate, k)
  {
    if k > 0 { CoolingBounds(T0, tEnd, rate, k - 1); }
    ScaleDown(CoolAfter(T0, tEnd, rate, k), rate);
  }

  lemma ScaleDown(T: real, rate: real)
    requires T >= 0.0 && 0.0 <= rate <= 1.0
    ensures 0.0 <= Scale(T, rate) <= T
  {
    assert T - T * rate == T * (1.0 - rate);
  }

  /** Whatever the start, after at least one iteration the temperature is at least T_end. */
  lemma CoolingFloor(T0: real, tEnd: real, rate: real, k: nat)
    requires k >= 1
    ensures CoolAfter(T0, tEnd, rate, k) >= tEnd
  {
  }

  // ---------------------------------------------------------------------------
  // simulated_annealing

  /** The cooling schedule: `T_start`, `T_end` and `cooling_rate`. */
  datatype Schedule = Schedule(tStart: real, tEnd: real, rate: real)

  /** What one iteration draws: the attempts of `neighbor`, and whether
      `random.random() < math.exp(-delta / T)` holds at the current temperature T
      (consulted only when the move does not improve the score). */
  datatype Step = Step(tries: seq<Try>, accept: bool)

  predicate StepsWellFormed(steps: seq<Step>)
  {
    forall k :: 0 <= k < |steps| ==> AllWellFormed(steps[k].tries)
  }

  /** The current draw, its remembered score and the temperature. */
  datatype State = State(a: Assignment, score: real, T: real)

  /** One iteration: an invalid neighbour leaves the draw as it is; a valid one is taken
      when it lowers the score or when the acceptance draw says so. Either way the
      temperature cools by one step. */
  function AnnealStep(s: State, st: Step, sch: Schedule, clubs: map<Name, Club>, fixed: set<Name>,
                      c: Counters): (r: State)
    requires Ready(s.a, clubs, fixed, c) && AllWellFormed(st.tries)
    ensures Ready(r.a, clubs, fixed, c)
    ensures r.T == Cool(s.T, sch.tEnd, sch.rate)
  {
    NeighborKeeps(s.a, fixed, st.tries, clubs, c.visits);
    var n := NeighborOf(s.a, fixed, st.tries);
    var T := Cool(s.T, sch.tEnd, sch.rate);
    if !ValidAssignment(n, clubs, fixed) then State(s.a, s.score, T)
    else
      var sNew := Score(n, clubs, c);
      if sNew - s.score < 0.0 || st.accept then State(n, sNew, T) else State(s.a, s.score, T)
  }

  /** The iterations in order. */
  function AnnealRun(s: State, steps: seq<Step>, sch: Schedule, clubs: map<Name, Club>, fixed: set<Name>,
                     c: Counters): (r: State)
    requires Ready(s.a, clubs, fixed, c) && StepsWellFormed(steps)
    ensures |r.a| == NGroups
    decreases |steps|
  {
    if steps == [] then s
    else
      assert StepsWellFormed(steps[1..]) by {
        assert forall k :: 0 <= k < |steps| - 1 ==> steps[1..][k] == steps[k + 1];
      }
      AnnealRun(AnnealStep(s, steps[0], sch, clubs, fixed, c), steps[1..], sch, clubs, fixed, c)
  }

  /** Cooling once and then `k` times is cooling `k + 1` times. */
  lemma {:induction false} CoolAfterShift(T0: real, tEnd: real, rate: real, k: nat)
    ensures CoolAfter(Cool(T0, tEnd, rate), tEnd, rate, k) == CoolAfter(T0, tEnd, rate, k + 1)
  {
    if k > 0 { CoolAfterShift(T0, tEnd, rate, k - 1); }
  }

  /** The search cools on every iteration, whether or not the neighbour was valid: after
      the iterations the temperature is the schedule's after that many steps. */
  lemma {:induction false} AnnealRunCools(s: State, steps: seq<Step>, sch: Schedule, clubs: map<Name, Club>,
                                          fixed: set<Name>, c: Counters)
    requires Ready(s.a, clubs, fixed, c) && StepsWellFormed(steps)
    ensures AnnealRun(s, steps, sch, clubs, fixed, c).T == CoolAfter(s.T, sch.tEnd, sch.rate, |steps|)
    decreases |steps|
  {
    if steps != [] {
      var rest := steps[1..];
      assert StepsWellFormed(rest) by {
        assert forall k :: 0 <= k < |steps| - 1 ==> rest[k] == steps[k + 1];
      }
      var next := AnnealStep(s, steps[0], sch, clubs, fixed, c);
      calc {
        AnnealRun(s, steps, sch, clubs, fixed, c).T;
        AnnealRun(next, rest, sch, clubs, fixed, c).T;
        { AnnealRunCools(next, rest, sch, clubs, fixed, c); }
        CoolAfter(next.T, sch.tEnd, sch.rate, |rest|);
        { CoolAfterShift(s.T, sch.tEnd, sch.rate, |rest|); }
        CoolAfter(s.T, sch.tEnd, sch.rate, |steps|);
      }
    }
  }

  /** With T_end <= T_start and a rate in [0, 1], the search's temperature never leaves
      [T_end, T_start]. */
  lemma AnnealRunBounds(s: State, steps: seq<Step>, sch: Schedule, clubs: map<Name, Club>,
                        fixed: set<Name>, c: Counters)
    requires Ready(s.a, clubs, fixed, c) && StepsWellFormed(steps)
    requires 0.0 <= sch.tEnd <= s.T && 0.0 <= sch.rate <= 1.0
    ensures sch.tEnd <= AnnealRun(s, steps, sch, clubs, fixed, c).T <= s.T
  {
    AnnealRunCools(s, steps, sch, clubs, fixed, c);
    CoolingBounds(s.T, sch.tEnd, sch.rate, |steps|);
  }

  /** The search ends on a valid draw, and the score it reports is that draw's score. */
  lemma {:induction false} AnnealRunTracks(s: State, steps: seq<Step>, sch: Schedule, clubs: map<Name, Club>,
                                           fixed: set<Name>, c: Counters)
    requires Ready(s.a, clubs, fixed, c) && StepsWellFormed(steps)
    ensures Ready(AnnealRun(s, steps, sch, clubs, fixed, c).a, clubs, fixed, c)
    ensures s.score == Score(s.a, clubs, c) ==>
      AnnealRun(s, steps, sch, clubs, fixed, c).score == Score(AnnealRun(s, steps, sch, clubs, fixed, c).a, clubs, c)
    decreases |steps|
  {
    if steps != [] {
      assert StepsWellFormed(steps[1..]) by {
        assert forall k :: 0 <= k < |steps| - 1 ==> steps[1..][k] == steps[k + 1];
      }
      NeighborKeeps(s.a, fixed, steps[0].tries, clubs, c.visits);
      AnnealRunTracks(AnnealStep(s, steps[0], sch, clubs, fixed, c), steps[1..], sch, clubs, fixed, c);
    }
  }

  /** The acceptance rule: a valid neighbour with a lower score is always taken; a valid
      neighbour that does not improve is taken exactly when the acceptance draw says so;
      an invalid neighbour is never taken. */
  lemma AcceptanceRule(s: State, st: Step, sch: Schedule, clubs: map<Name, Club>, fixed: set<Name>, c: Counters)
    requires Ready(s.a, clubs, fixed, c) && AllWellFormed(st.tries)
    requires s.score == Score(s.a, clubs, c)
    ensures var n := NeighborOf(s.a, fixed, st.tries);
      var r := AnnealStep(s, st, sch, clubs, fixed, c);
      Scorable(n, clubs, c.visits)
      && (ValidAssignment(n, clubs, fixed) && Score(n, clubs, c) < s.score ==>
            r.a == n && r.score == Score(n, clubs, c))
      && (ValidAssignment(n, clubs, fixed) && Score(n, clubs, c) >= s.score ==>
            if st.accept then r.a == n && r.score == Score(n, clubs, c) else r.a == s.a && r.score == s.score)
      && (!ValidAssignment(n, clubs, fixed) ==> r.a == s.a && r.score == s.score)
  {
    NeighborKeeps(s.a, fixed, st.tries, clubs, c.visits);
  }

  /** Throughout the search every group keeps its size, every fixed (seeded) player stays
      in its place, and the draw keeps exactly its players. */
  lemma {:induction false} AnnealKeepsSeeds(s: State, steps: seq<Step>, sch: Schedule, clubs: map<Name, Club>,
                                            fixed: set<Name>, c: Counters)
    requires Ready(s.a, clubs, fixed, c) && StepsWellFormed(steps)
    ensures var r := AnnealRun(s, steps, sch, clubs, fixed, c);
      && (forall g :: 0 <= g < NGroups ==> |r.a[g]| == |s.a[g]|)
      && (forall g, k :: 0 <= g < NGroups && 0 <= k < |s.a[g]| && s.a[g][k] in fixed ==> r.a[g][k] == s.a[g][k])
      && multiset(Flatten(r.a)) == multiset(Flatten(s.a))
    decreases |steps|
  {
    if steps != [] {
      assert StepsWellFormed(steps[1..]) by {
        assert forall k :: 0 <= k < |steps| - 1 ==> steps[1..][k] == steps[k + 1];
      }
      NeighborKeeps(s.a, fixed, steps[0].tries, clubs, c.visits);
      var next := AnnealStep(s, steps[0], sch, clubs, fixed, c);
      AnnealKeepsSeeds(next, steps[1..], sch, clubs, fixed, c);
    }
  }

  /** `simulated_annealing` from the start draw `start` (see `SimulatedAnnealing`), with
      T starting at T_start. Every score is read through the store, which only inserts
      zero-valued keys. */
  method Anneal(store: Store, clubs: map<Name, Club>, fixed: set<Name>, start: Assignment,
                sch: Schedule, steps: seq<Step>)
    returns (best: Assignment, bestScore: real)
    requires store.Valid() && Ready(start, clubs, fixed, store.Counts()) && StepsWellFormed(steps)
    modifies store
    ensures store.Valid() && store.queue == old(store.queue) && SameCounts(store.Counts(), old(store.Counts()))
    ensures var r := AnnealRun(State(start, Score(start, clubs, old(store.Counts())), sch.tStart), steps, sch,
                               clubs, fixed, old(store.Counts()));
      best == r.a && bestScore == r.score
  {
    ghost var c0 := store.Counts();
    var startScore := ReadScore(store, clubs, c0, start);
    var current, T;
    best, current, T := AnnealLoop(store, clubs, fixed, c0, start, startScore, sch, steps);
    AnnealRunTracks(State(start, startScore, sch.tStart), steps, sch, clubs, fixed, c0);
    bestScore := ReadScore(store, clubs, c0, best);
  }

  /** The loop of `simulated_annealing` from the draw `start` scoring `score`, at T_start. */
  method AnnealLoop(store: Store, clubs: map<Name, Club>, fixed: set<Name>, ghost c0: Counters,
                    start: Assignment, score: real, sch: Schedule, steps: seq<Step>)
    returns (a: Assignment, current: real, T: real)
    requires store.Valid() && SameCounts(store.Counts(), c0) && StepsWellFormed(steps)
    requires Ready(start, clubs, fixed, c0) && score == Score(start, clubs, c0)
    modifies store
    ensures store.Valid() && store.queue == old(store.queue) && SameCounts(store.Counts(), c0)
    ensures State(a, current, T) == AnnealRun(State(start, score, sch.tStart), steps, sch, clubs, fixed, c0)
  {
    a, current, T := start, score, sch.tStart;
    var k := 0;
    while k < |steps|
      invariant 0 <= k <= |steps|
      invariant store.Valid() && store.queue == old(store.queue) && SameCounts(store.Counts(), c0)
      invariant Searching(State(start, score, sch.tStart), steps, sch, k, State(a, current, T), clubs, fixed, c0)
    {
      a, current, T := Iterate(store, clubs, fixed, c0, State(start, score, sch.tStart), steps, sch, k, a, current, T);
      k := k + 1;
    }
    assert steps[k..] == [];
  }

  /** The state of the search loop after `k` iterations: a valid draw, its score and the
      temperature, from which the remaining iterations end where the whole search does. */
  ghost predicate Searching(s0: State, steps: seq<Step>, sch: Schedule, k: nat, s: State, clubs: map<Name, Club>,
                            fixed: set<Name>, c: Counters)
  {
    && Ready(s0.a, clubs, fixed, c) && StepsWellFormed(steps) && k <= |steps|
    && Ready(s.a, clubs, fixed, c) && s.score == Score(s.a, clubs, c) && StepsWellFormed(steps[k..])
    && AnnealRun(s, steps[k..], sch, clubs, fixed, c) == AnnealRun(s0, steps, sch, clubs, fixed, c)
  }

  /** `score(a)` through the store: the value under the counters `c0` the store agrees
      with, which it keeps agreeing with (the reads insert only zero-valued keys). */
  method ReadScore(store: Store, clubs: map<Name, Club>, ghost c0: Counters, a: Assignment) returns (r: real)
    requires store.Valid() && SameCounts(store.Counts(), c0) && Scorable(a, clubs, c0.visits)
    modifies store
    ensures store.Valid() && store.queue == old(store.queue) && SameCounts(store.Counts(), c0)
    ensures r == Score(a, clubs, c0)
  {
    ghost var before := store.Counts();
    r := store.Score(a, clubs);
    ScoreAgrees(a, clubs, before, c0);
    ZeroFillKeepsCounts(before, a, a, clubs);
    SameCountsTrans(store.Counts(), before, c0);
  }

  /** Iteration `k + 1` of `simulated_annealing`'s loop, reading scores through the store
      and cooling at the end. */
  method Iterate(store: Store, clubs: map<Name, Club>, fixed: set<Name>, ghost c0: Counters,
                 ghost s0: State, steps: seq<Step>, sch: Schedule, k: nat, a: Assignment, current: real, T: real)
    returns (a': Assignment, current': real, T': real)
    requires store.Valid() && SameCounts(store.Counts(), c0)
    requires Searching(s0, steps, sch, k, State(a, current, T), clubs, fixed, c0) && k < |steps|
    modifies store
    ensures store.Valid() && store.queue == old(store.queue) && SameCounts(store.Counts(), c0)
    ensures Searching(s0, steps, sch, k + 1, State(a', current', T'), clubs, fixed, c0)
  {
    assert steps[k..][1..] == steps[k + 1..];
    a', current' := a, current;
    var st := steps[k];
    var n := Neighbor(a, fixed, st.tries);
    NeighborKeeps(a, fixed, st.tries, clubs, c0.visits);
    if ValidAssignment(n, clubs, fixed) {
      var sNew := ReadScore(store, clubs, c0, n);
      if sNew - current < 0.0 || st.accept {
        a', current' := n, sNew;
      }
    }
    T' := Cool(T, sch.tEnd, sch.rate);
    assert AnnealStep(State(a, current, T), st, sch, clubs, fixed, c0) == State(a', current', T');
  }

  /** `simulated_annealing()`: a random valid start (None is the RuntimeError of
      `random_assignment`), then the search from T_start. */
  method SimulatedAnnealing(store: Store, groups: Assignment, sizes: seq<nat>, clubs: map<Name, Club>,
                            fixed: set<Name>, shuffles: seq<seq<Name>>, sch: Schedule, steps: seq<Step>)
    returns (res: Option<(Assignment, real)>)
    requires store.Valid() && |groups| == NGroups && Dealable(groups, sizes, clubs, shuffles)
    requires StepsWellFormed(steps) && forall p :: p in clubs ==> p in store.visits
    modifies store
    ensures store.Valid() && store.queue == old(store.queue) && SameCounts(store.Counts(), old(store.Counts()))
    ensures res.None? <==> FirstValid(groups, sizes, clubs, fixed, shuffles).None?
    ensures res.Some? ==>
      var start := FirstValid(groups, sizes, clubs, fixed, shuffles).value;
      var c := old(store.Counts());
      Ready(start, clubs, fixed, c)
      && var r := AnnealRun(State(start, Score(start, clubs, c), sch.tStart), steps, sch, clubs, fixed, c);
      res.value == (r.a, r.score)
  {
    var found := RandomAssignment(groups, sizes, clubs, fixed, shuffles);
    FirstValidMeaning(groups, sizes, clubs, fixed, shuffles);
    if found.None? {
      return None;
    }
    var start := found.value;
    assert |start| == NGroups;
    assert Covers(start, store.visits);
    var best, bestScore := Anneal(store, clubs, fixed, start, sch, steps);
    return Some((best, bestScore));
  }

  // ---------------------------------------------------------------------------
  // calibrate_temperature

  /** What one calibration attempt draws: the attempts of `neighbor`, and the coin
      `random.random() < 0.5` (consulted only when the move does not improve). */
  datatype Probe = Probe(tries: seq<Try>, coin: bool)

  predicate ProbesWellFormed(probes: seq<Probe>)
  {
    forall k :: 0 <= k < |probes| ==> AllWellFormed(probes[k].tries)
  }

  /** The walking draw, its score, and the positive score differences seen so far. */
  datatype Walk = Walk(a: Assignment, score: real, deltas: seq<real>)

  predicate AllPositive(s: seq<real>)
  {
    forall i :: 0 <= i < |s| ==> s[i] > 0.0
  }

  /** The outcome of an attempt whose neighbour `n` is valid and scores `sNew`: a
      positive difference is recorded, and the walk moves on an improvement or on heads. */
  function Moved(w: Walk, p: Probe, n: Assignment, sNew: real): (r: Walk)
    ensures r.a == (if sNew - w.score < 0.0 || p.coin then n else w.a)
    ensures sNew - w.score > 0.0 ==> r.deltas == w.deltas + [sNew - w.score]
    ensures sNew - w.score <= 0.0 ==> r.deltas == w.deltas
  {
    var delta := sNew - w.score;
    var recorded := if delta > 0.0 then w.deltas + [delta] else w.deltas;
    if delta < 0.0 || p.coin then Walk(n, sNew, recorded) else Walk(w.a, w.score, recorded)
  }

  /** One attempt: an invalid neighbour is skipped, a valid one handled as `Moved`. */
  function ProbeStep(w: Walk, p: Probe, clubs: map<Name, Club>, fixed: set<Name>, c: Counters): (r: Walk)
    requires Ready(w.a, clubs, fixed, c) && AllWellFormed(p.tries)
    ensures Ready(r.a, clubs, fixed, c)
  {
    NeighborKeeps(w.a, fixed, p.tries, clubs, c.visits);
    var n := NeighborOf(w.a, fixed, p.tries);
    if !ValidAssignment(n, clubs, fixed) then w else Moved(w, p, n, Score(n, clubs, c))
  }

  /** A valid attempt records at most one difference, and only a positive one. */
  lemma MovedRecords(w: Walk, p: Probe, n: Assignment, sNew: real)
    ensures var r := Moved(w, p, n, sNew);
      |w.deltas| <= |r.deltas| <= |w.deltas| + 1 && r.deltas[..|w.deltas|] == w.deltas
      && (AllPositive(w.deltas) ==> AllPositive(r.deltas))
  {
    var r := Moved(w, p, n, sNew);
    if r.deltas != w.deltas {
      assert r.deltas[..|w.deltas|] == w.deltas;
    }
  }

  /** An attempt records at most one difference, and only a positive one. */
  lemma ProbeStepRecords(w: Walk, p: Probe, clubs: map<Name, Club>, fixed: set<Name>, c: Counters)
    requires Ready(w.a, clubs, fixed, c) && AllWellFormed(p.tries)
    ensures var r := ProbeStep(w, p, clubs, fixed, c);
      |w.deltas| <= |r.deltas| <= |w.deltas| + 1 && r.deltas[..|w.deltas|] == w.deltas
      && (AllPositive(w.deltas) ==> AllPositive(r.deltas))
  {
    NeighborKeeps(w.a, fixed, p.tries, clubs, c.visits);
    var n := NeighborOf(w.a, fixed, p.tries);
    if ValidAssignment(n, clubs, fixed) {
      MovedRecords(w, p, n, Score(n, clubs, c));
    }
  }

  /** The walk after the given attempts, made in order. */
  function Walked(w: Walk, probes: seq<Probe>, clubs: map<Name, Club>, fixed: set<Name>, c: Counters): (r: Walk)
    requires Ready(w.a, clubs, fixed, c) && ProbesWellFormed(probes)
    ensures Ready(r.a, clubs, fixed, c)
    decreases |probes|
  {
    if probes == [] then w
    else
      var init := probes[..|probes| - 1];
      assert ProbesWellFormed(init) by {
        assert forall k :: 0 <= k < |init| ==> init[k] == probes[k];
      }
      ProbeStep(Walked(w, init, clubs, fixed, c), probes[|probes| - 1], clubs, fixed, c)
  }

  /** The sampling loop stops after `k` attempts: it was short of `samples` positive
      differences after every earlier attempt, and it now has `samples` of them or no
      attempts left. */
  predicate StopsAt(w: Walk, probes: seq<Probe>, samples: nat, k: nat, clubs: map<Name, Club>, fixed: set<Name>,
                    c: Counters)
    requires Ready(w.a, clubs, fixed, c) && ProbesWellFormed(probes) && k <= |probes|
  {
    && (forall j :: 0 <= j < k ==> |Walked(w, probes[..j], clubs, fixed, c).deltas| < samples)
    && (|Walked(w, probes[..k], clubs, fixed, c).deltas| >= samples || k == |probes|)
  }

  /** The walk only ever records positive differences, keeps what it recorded, and records
      at most one difference per attempt. */
  lemma {:induction false} WalkedRecords(w: Walk, probes: seq<Probe>, clubs: map<Name, Club>, fixed: set<Name>,
                                         c: Counters)
    requires Ready(w.a, clubs, fixed, c) && ProbesWellFormed(probes)
    ensures var r := Walked(w, probes, clubs, fixed, c);
      && |w.deltas| <= |r.deltas| <= |w.deltas| + |probes| && r.deltas[..|w.deltas|] == w.deltas
      && (AllPositive(w.deltas) ==> AllPositive(r.deltas))
    decreases |probes|
  {
    if probes != [] {
      var init := probes[..|probes| - 1];
      assert forall k :: 0 <= k < |init| ==> init[k] == probes[k];
      WalkedRecords(w, init, clubs, fixed, c);
      var mid := Walked(w, init, clubs, fixed, c);
      ProbeStepRecords(mid, probes[|probes| - 1], clubs, fixed, c);
      var r := Walked(w, probes, clubs, fixed, c);
      assert r.deltas[..|w.deltas|] == r.deltas[..|mid.deltas|][..|w.deltas|];
    }
  }

  /** At the point where the loop stops it holds at most `samples` differences, all of
      them positive. */
  lemma StopsAtBound(w: Walk, probes: seq<Probe>, samples: nat, k: nat, clubs: map<Name, Club>, fixed: set<Name>,
                     c: Counters)
    requires Ready(w.a, clubs, fixed, c) && ProbesWellFormed(probes) && k <= |probes|
    requires AllPositive(w.deltas) && |w.deltas| <= samples
    requires StopsAt(w, probes, samples, k, clubs, fixed, c)
    ensures var r := Walked(w, probes[..k], clubs, fixed, c);
      AllPositive(r.deltas) && |w.deltas| <= |r.deltas| <= samples
  {
    if k > 0 {
      WalkedBound(w, probes, k, samples, clubs, fixed, c);
    } else {
      assert probes[..k] == [];
    }
  }

  /** A walk that was short of `samples` differences before attempt `k` ends it with at
      most `samples` of them, all positive. */
  lemma WalkedBound(w: Walk, probes: seq<Probe>, k: nat, samples: nat, clubs: map<Name, Club>, fixed: set<Name>,
                    c: Counters)
    requires Ready(w.a, clubs, fixed, c) && ProbesWellFormed(probes) && 0 < k <= |probes|
    requires AllPositive(w.deltas) && |w.deltas| <= samples
    requires |Walked(w, probes[..k - 1], clubs, fixed, c).deltas| < samples
    ensures var r := Walked(w, probes[..k], clubs, fixed, c);
      AllPositive(r.deltas) && |w.deltas| <= |r.deltas| <= samples
  {
    WalkedRecords(w, probes[..k], clubs, fixed, c);
    WalkedSnoc(w, probes, k, clubs, fixed, c);
    BelowBoundStep(Walked(w, probes[..k - 1], clubs, fixed, c), probes[k - 1], samples, clubs, fixed, c);
  }

  lemma WalkedSnoc(w: Walk, probes: seq<Probe>, k: nat, clubs: map<Name, Club>, fixed: set<Name>, c: Counters)
    requires Ready(w.a, clubs, fixed, c) && ProbesWellFormed(probes) && 0 < k <= |probes|
    ensures ProbesWellFormed(probes[..k - 1]) && ProbesWellFormed(probes[..k])
    ensures Walked(w, probes[..k], clubs, fixed, c)
      == ProbeStep(Walked(w, probes[..k - 1], clubs, fixed, c), probes[k - 1], clubs, fixed, c)
  {
    assert probes[..k][..k - 1] == probes[..k - 1];
  }


  /** An attempt made short of `samples` differences leaves at most `samples` of them. */
  lemma BelowBoundStep(mid: Walk, p: Probe, samples: nat, clubs: map<Name, Club>, fixed: set<Name>, c: Counters)
    requires Ready(mid.a, clubs, fixed, c) && AllWellFormed(p.tries) && |mid.deltas| < samples
    ensures |ProbeStep(mid, p, clubs, fixed, c).deltas| <= samples
  {
    ProbeStepRecords(mid, p, clubs, fixed, c);
  }


  /** The loop stops at exactly one point. */
  lemma StopsAtUnique(w: Walk, probes: seq<Probe>, samples: nat, k1: nat, k2: nat, clubs: map<Name, Club>,
                      fixed: set<Name>, c: Counters)
    requires Ready(w.a, clubs, fixed, c) && ProbesWellFormed(probes) && k1 <= |probes| && k2 <= |probes|
    requires StopsAt(w, probes, samples, k1, clubs, fixed, c) && StopsAt(w, probes, samples, k2, clubs, fixed, c)
    ensures k1 == k2
  {
  }

  /** The calibration result; `ZeroDivision` is the ZeroDivisionError Python raises. */
  datatype Calibration = Calibrated(tStart: real, cooling: real) | ZeroDivision

  /** The constants the calibration uses, whatever its caller passes. */
  const Factor: real := 4.0
  const PTarget: real := 0.7
  const MinCooling: real := 0.985

  /** The suggestion from the recorded differences. `median` is `np.median`, `ln` is
      `math.log` and `pow` is `**` on floats. With no differences the current settings
      stay. */
  function Suggest(deltas: seq<real>, T0: real, rate0: real, tEnd: real, maxIter: nat,
                   median: seq<real> -> real, ln: real -> real, pow: (real, real) -> real): (r: Calibration)
    ensures deltas == [] ==> r == Calibrated(T0, rate0)
    ensures deltas != [] && r.Calibrated? ==> r.cooling >= MinCooling
  {
    if deltas == [] then Calibrated(T0, rate0)
    else
      var l := ln(1.0 / (1.0 - PTarget));
      if l == 0.0 then ZeroDivision
      else
        var tSuggest := Factor * median(deltas) / l;
        if tSuggest == 0.0 || maxIter == 0 then ZeroDivision
        else
          var p := pow(tEnd / tSuggest, 1.0 / maxIter as real);
          Calibrated(tSuggest, if MinCooling >= p then MinCooling else p)
  }

  /** With a positive median, a positive logarithm and at least one iteration, the
      calibration succeeds with a positive start temperature and a cooling rate of at
      least 0.985. */
  lemma SuggestSucceeds(deltas: seq<real>, T0: real, rate0: real, tEnd: real, maxIter: nat,
                        median: seq<real> -> real, ln: real -> real, pow: (real, real) -> real)
    requires deltas != [] && median(deltas) > 0.0 && ln(1.0 / (1.0 - PTarget)) > 0.0 && maxIter > 0
    ensures var r := Suggest(deltas, T0, rate0, tEnd, maxIter, median, ln, pow);
      r.Calibrated? && r.tStart > 0.0 && r.cooling >= MinCooling
  {
    var l := ln(1.0 / (1.0 - PTarget));
    assert Factor * median(deltas) / l > 0.0;
  }


  /** One attempt of `calibrate_temperature`'s loop, reading both scores through the store
      (`current` is the score of `assign`, which the source recomputes). */
  method ProbeOnce(store: Store, clubs: map<Name, Club>, fixed: set<Name>, ghost c0: Counters,
                   assign: Assignment, ghost current: real, deltas: seq<real>, p: Probe)
    returns (assign': Assignment, ghost current': real, deltas': seq<real>)
    requires store.Valid() && SameCounts(store.Counts(), c0) && AllWellFormed(p.tries)
    requires Ready(assign, clubs, fixed, c0) && current == Score(assign, clubs, c0)
    modifies store
    ensures store.Valid() && store.queue == old(store.queue) && SameCounts(store.Counts(), c0)
    ensures Walk(assign', current', deltas') == ProbeStep(Walk(assign, current, deltas), p, clubs, fixed, c0)
    ensures Ready(assign', clubs, fixed, c0) && current' == Score(assign', clubs, c0)
  {
    assign', current', deltas' := assign, current, deltas;
    var n := Neighbor(assign, fixed, p.tries);
    NeighborKeeps(assign, fixed, p.tries, clubs, c0.visits);
    if !ValidAssignment(n, clubs, fixed) {
      return;
    }
    var sOld := ReadScore(store, clubs, c0, assign);
    var sNew := ReadScore(store, clubs, c0, n);
    assign', current', deltas' := Weigh(assign, current, deltas, n, sOld, sNew, p);
  }

  /** The end of an attempt with a valid neighbour `n`: the difference of the two scores
      is recorded when positive, and the walk moves on an improvement or on heads. */
  method Weigh(assign: Assignment, ghost current: real, deltas: seq<real>, n: Assignment, sOld: real, sNew: real,
               p: Probe)
    returns (assign': Assignment, ghost current': real, deltas': seq<real>)
    requires sOld == current
    ensures Walk(assign', current', deltas') == Moved(Walk(assign, current, deltas), p, n, sNew)
    ensures (assign', current') == (n, sNew) || (assign', current') == (assign, current)
  {
    assign', current', deltas' := assign, current, deltas;
    var delta := sNew - sOld;
    if delta > 0.0 {
      deltas' := deltas + [delta];
    }
    if delta < 0.0 || p.coin {
      assign', current' := n, sNew;
    }
  }

  lemma SameCountsTrans(c: Counters, d: Counters, e: Counters)
    requires SameCounts(c, d) && SameCounts(d, e)
    ensures SameCounts(c, e)
  {
  }

  /** `calibrate_temperature(samples, p_target, max_iter, factor, min_cooling)` from the
      start draw `start`, with one probe per possible attempt (`samples * 10`). The
      arguments `factor`, `pTarget` and `minCooling` are overwritten in the source before
      use, so the result does not depend on them. */
  method Calibrate(store: Store, clubs: map<Name, Club>, fixed: set<Name>, start: Assignment, samples: nat,
                   probes: seq<Probe>, T0: real, rate0: real, tEnd: real, maxIter: nat,
                   factor: real, pTarget: real, minCooling: real,
                   median: seq<real> -> real, ln: real -> real, pow: (real, real) -> real)
    returns (res: Calibration, attempts: nat)
    requires store.Valid() && Ready(start, clubs, fixed, store.Counts())
    requires |probes| == samples * 10 && ProbesWellFormed(probes)
    modifies store
    ensures store.Valid() && store.queue == old(store.queue) && SameCounts(store.Counts(), old(store.Counts()))
    ensures var w := Walk(start, Score(start, clubs, old(store.Counts())), []);
      && attempts <= |probes| && StopsAt(w, probes, samples, attempts, clubs, fixed, old(store.Counts()))
      && res == Suggest(Walked(w, probes[..attempts], clubs, fixed, old(store.Counts())).deltas,
                        T0, rate0, tEnd, maxIter, median, ln, pow)
  {
    ghost var c0 := store.Counts();
    var deltas;
    deltas, attempts := CalibrationLoop(store, clubs, fixed, c0, start, samples, probes);
    res := Suggest(deltas, T0, rate0, tEnd, maxIter, median, ln, pow);
  }

  /** The sampling loop of `calibrate_temperature`: the positive differences it collects
      and the attempts it makes. */
  method CalibrationLoop(store: Store, clubs: map<Name, Club>, fixed: set<Name>, ghost c0: Counters,
                         start: Assignment, samples: nat, probes: seq<Probe>)
    returns (deltas: seq<real>, attempts: nat)
    requires store.Valid() && SameCounts(store.Counts(), c0) && Ready(start, clubs, fixed, c0)
    requires |probes| == samples * 10 && ProbesWellFormed(probes)
    modifies store
    ensures store.Valid() && store.queue == old(store.queue) && SameCounts(store.Counts(), c0)
    ensures var w := Walk(start, Score(start, clubs, c0), []);
      && attempts <= |probes| && StopsAt(w, probes, samples, attempts, clubs, fixed, c0)
      && deltas == Walked(w, probes[..attempts], clubs, fixed, c0).deltas
  {
    ghost var w0 := Walk(start, Score(start, clubs, c0), []);
    ghost var current := w0.score;
    var assign := start;
    deltas := [];
    attempts := 0;
    var maxAttempts := samples * 10;
    assert probes[..0] == [];
    while |deltas| < samples && attempts < maxAttempts
      invariant 0 <= attempts <= |probes|
      invariant store.Valid() && store.queue == old(store.queue) && SameCounts(store.Counts(), c0)
      invariant Sampling(w0, probes, samples, attempts, assign, current, deltas, clubs, fixed, c0)
      decreases maxAttempts - attempts
    {
      assign, current, deltas := Attempt(store, clubs, fixed, c0, assign, current, deltas, samples, probes, attempts, w0);
      attempts := attempts + 1;
    }
    SamplingStops(w0, probes, samples, attempts, assign, current, deltas, clubs, fixed, c0);
  }

  /** The state of the sampling loop after `made` attempts: the walk so far, which was
      short of `samples` differences after every earlier attempt. */
  ghost predicate Sampling(w0: Walk, probes: seq<Probe>, samples: nat, made: nat, assign: Assignment, current: real,
                           deltas: seq<real>, clubs: map<Name, Club>, fixed: set<Name>, c: Counters)
  {
    && Ready(w0.a, clubs, fixed, c) && ProbesWellFormed(probes) && made <= |probes|
    && Ready(assign, clubs, fixed, c) && current == Score(assign, clubs, c)
    && Walk(assign, current, deltas) == Walked(w0, probes[..made], clubs, fixed, c)
    && forall j :: 0 <= j < made ==> |Walked(w0, probes[..j], clubs, fixed, c).deltas| < samples
  }

  /** When the loop's guard fails, the loop has stopped where `StopsAt` says. */
  lemma SamplingStops(w0: Walk, probes: seq<Probe>, samples: nat, made: nat, assign: Assignment, current: real,
                      deltas: seq<real>, clubs: map<Name, Club>, fixed: set<Name>, c: Counters)
    requires Sampling(w0, probes, samples, made, assign, current, deltas, clubs, fixed, c)
    requires !(|deltas| < samples && made < |probes|)
    ensures StopsAt(w0, probes, samples, made, clubs, fixed, c)
    ensures deltas == Walked(w0, probes[..made], clubs, fixed, c).deltas
  {
  }

  /** Attempt number `made + 1` of the sampling loop, which its guard allows. */
  method Attempt(store: Store, clubs: map<Name, Club>, fixed: set<Name>, ghost c0: Counters,
                 assign: Assignment, ghost current: real, deltas: seq<real>, samples: nat,
                 probes: seq<Probe>, made: nat, ghost w0: Walk)
    returns (assign': Assignment, ghost current': real, deltas': seq<real>)
    requires store.Valid() && SameCounts(store.Counts(), c0)
    requires Sampling(w0, probes, samples, made, assign, current, deltas, clubs, fixed, c0)
    requires |deltas| < samples && made < |probes|
    modifies store
    ensures store.Valid() && store.queue == old(store.queue) && SameCounts(store.Counts(), c0)
    ensures Sampling(w0, probes, samples, made + 1, assign', current', deltas', clubs, fixed, c0)
  {
    assert probes[..made + 1][..made] == probes[..made];
    assign', current', deltas' := ProbeOnce(store, clubs, fixed, c0, assign, current, deltas, probes[made]);
  }
}
