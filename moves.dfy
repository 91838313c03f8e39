/** `neighbor`: exchange one non-fixed player of one group with one non-fixed player of
    another group, trying random group pairs a bounded number of times. */
module Moves {
  import opened Common
  import opened Bracket
  import opened DrawRules
  import opened Penalty

  /** One attempt: the two groups `random.sample(range(n_groups), 2)` picks, and the
      choices `random.choice` makes among the candidates, reduced modulo their number. */
  datatype Try = Try(g1: nat, g2: nat, i: nat, j: nat)

  predicate WellFormed(t: Try)
  {
    t.g1 < NGroups && t.g2 < NGroups && t.g1 != t.g2
  }

  predicate AllWellFormed(tries: seq<Try>)
  {
    forall k :: 0 <= k < |tries| ==> WellFormed(tries[k])
  }

  /** Indices of the players of `group` that are not fixed, in increasing order. */
  function Movable(group: seq<Name>, fixed: set<Name>): (r: seq<nat>)
    ensures forall k :: 0 <= k < |r| ==> r[k] < |group| && group[r[k]] !in fixed
    ensures forall i :: 0 <= i < |group| && group[i] !in fixed ==> i in r
    ensures forall k, l :: 0 <= k < l < |r| ==> r[k] < r[l]
  {
    if group == [] then []
    else
      var init := Movable(group[..|group| - 1], fixed);
      init + (if group[|group| - 1] !in fixed then [|group| - 1] else [])
  }

  /** An exchange of `a[g1][i]` with `a[g2][j]`. */
  datatype Exchange = Exchange(g1: nat, i: nat, g2: nat, j: nat)

  /** The exchange is between two different groups, at existing places, and moves only
      players that are not fixed. */
  predicate Legal(a: Assignment, fixed: set<Name>, e: Exchange)
  {
    && e.g1 < |a| && e.g2 < |a| && e.g1 != e.g2 && e.i < |a[e.g1]| && e.j < |a[e.g2]|
    && a[e.g1][e.i] !in fixed && a[e.g2][e.j] !in fixed
  }

  /** The draw after the exchange. */
  function Swap(a: Assignment, e: Exchange): (r: Assignment)
    requires e.g1 < |a| && e.g2 < |a| && e.g1 != e.g2 && e.i < |a[e.g1]| && e.j < |a[e.g2]|
    ensures |r| == |a|
    ensures r[e.g1] == a[e.g1][e.i := a[e.g2][e.j]] && r[e.g2] == a[e.g2][e.j := a[e.g1][e.i]]
    ensures forall g :: 0 <= g < |a| && g != e.g1 && g != e.g2 ==> r[g] == a[g]
  {
    a[e.g1 := a[e.g1][e.i := a[e.g2][e.j]]][e.g2 := a[e.g2][e.j := a[e.g1][e.i]]]
  }

  /** An attempt fails when one of its groups has no non-fixed player (an empty group
      has none). */
  predicate Fails(a: Assignment, fixed: set<Name>, t: Try)
    requires |a| == NGroups && WellFormed(t)
  {
    a[t.g1] == [] || a[t.g2] == [] || Movable(a[t.g1], fixed) == [] || Movable(a[t.g2], fixed) == []
  }

  /** The exchange the first attempt that does not fail picks; None when every attempt
      fails. */
  function FirstExchange(a: Assignment, fixed: set<Name>, tries: seq<Try>): (e: Option<Exchange>)
    requires |a| == NGroups && AllWellFormed(tries)
    ensures e.Some? ==> Legal(a, fixed, e.value)
  {
    if tries == [] then None
    else
      var t := tries[0];
      if Fails(a, fixed, t) then FirstExchange(a, fixed, tries[1..])
      else
        var ic, jc := Movable(a[t.g1], fixed), Movable(a[t.g2], fixed);
        Some(Exchange(t.g1, ic[t.i % |ic|], t.g2, jc[t.j % |jc|]))
  }

  /** The draw `neighbor` returns: the first exchange applied, or the draw itself. It
      holds the players of the draw, each as often as before. */
  function NeighborOf(a: Assignment, fixed: set<Name>, tries: seq<Try>): (r: Assignment)
    requires |a| == NGroups && AllWellFormed(tries)
    ensures |r| == NGroups && multiset(Flatten(r)) == multiset(Flatten(a))
  {
    match FirstExchange(a, fixed, tries)
    case None => a
    case Some(e) => SwapKeepsPlayers(a, e); Swap(a, e)
  }

  /** `neighbor(assignment, max_attempts)`, with one `Try` per attempt. */
  method Neighbor(a: Assignment, fixed: set<Name>, tries: seq<Try>) returns (r: Assignment)
    requires |a| == NGroups && AllWellFormed(tries)
    ensures r == NeighborOf(a, fixed, tries)
  {
    var k := 0;
    while k < |tries|
      invariant 0 <= k <= |tries|
      invariant FirstExchange(a, fixed, tries) == FirstExchange(a, fixed, tries[k..])
    {
      assert tries[k..][1..] == tries[k + 1..];
      var t := tries[k];
      if a[t.g1] != [] && a[t.g2] != [] {
        var ic := Movable(a[t.g1], fixed);
        var jc := Movable(a[t.g2], fixed);
        if ic != [] && jc != [] {
          var i := ic[t.i % |ic|];
          var j := jc[t.j % |jc|];
          r := a[t.g1 := a[t.g1][i := a[t.g2][j]]][t.g2 := a[t.g2][j := a[t.g1][i]]];
          return;
        }
      }
      k := k + 1;
    }
    r := a;
  }

  /** The neighbour is the draw itself exactly when every attempt fails. */
  lemma {:induction false} NoExchangeIffAllFail(a: Assignment, fixed: set<Name>, tries: seq<Try>)
    requires |a| == NGroups && AllWellFormed(tries)
    ensures FirstExchange(a, fixed, tries).None? <==> forall k :: 0 <= k < |tries| ==> Fails(a, fixed, tries[k])
  {
    if tries != [] {
      var rest := tries[1..];
      assert AllWellFormed(rest);
      NoExchangeIffAllFail(a, fixed, rest);
      assert forall k :: 0 <= k < |rest| ==> rest[k] == tries[k + 1];
    }
  }

  /** Replacing one group changes the draw's players by exactly that group. */
  lemma FlattenUpdate(a: Assignment, g: nat, s: seq<Name>)
    requires g < |a|
    ensures multiset(Flatten(a[g := s])) + multiset(a[g]) == multiset(Flatten(a)) + multiset(s)
    decreases |a|
  {
    var n := |a| - 1;
    var b := a[g := s];
    assert Flatten(b) == Flatten(b[..n]) + b[n];
    assert Flatten(a) == Flatten(a[..n]) + a[n];
    if g < n {
      var c := a[..n];
      FlattenUpdate(c, g, s);
      assert b[..n] == c[g := s] && c[g] == a[g] && b[n] == a[n];
      calc {
        multiset(Flatten(b)) + multiset(a[g]);
        multiset(Flatten(c[g := s])) + multiset(a[g]) + multiset(a[n]);
        multiset(Flatten(c)) + multiset(s) + multiset(a[n]);
        multiset(Flatten(a)) + multiset(s);
      }
    } else {
      assert b[..n] == a[..n];
    }
  }

  lemma UpdateMultiset(s: seq<Name>, i: nat, v: Name)
    requires i < |s|
    ensures multiset(s[i := v]) + multiset{s[i]} == multiset(s) + multiset{v}
  {
    assert s == s[..i] + [s[i]] + s[i + 1..];
    assert s[i := v] == s[..i] + [v] + s[i + 1..];
  }

  lemma Cancel(m: multiset<Name>, n: multiset<Name>, k: multiset<Name>)
    requires m + k == n + k
    ensures m == n
  {
    assert forall z :: m[z] == (m + k)[z] - k[z];
    assert forall z :: m[z] == n[z];
  }

  /** Exchanging two entries keeps the players of the whole draw. */
  lemma SwapKeepsPlayers(a: Assignment, e: Exchange)
    requires e.g1 < |a| && e.g2 < |a| && e.g1 != e.g2 && e.i < |a[e.g1]| && e.j < |a[e.g2]|
    ensures multiset(Flatten(Swap(a, e))) == multiset(Flatten(a))
  {
    var x, y := a[e.g1][e.i], a[e.g2][e.j];
    var s1 := a[e.g1][e.i := y];
    var b := a[e.g1 := s1];
    var s2 := a[e.g2][e.j := x];
    var r := b[e.g2 := s2];
    assert Swap(a, e) == r;
    FlattenUpdate(a, e.g1, s1);
    FlattenUpdate(b, e.g2, s2);
    assert b[e.g2] == a[e.g2];
    UpdateMultiset(a[e.g1], e.i, y);
    UpdateMultiset(a[e.g2], e.j, x);
    ExchangeBalance(multiset(Flatten(r)), multiset(Flatten(b)), multiset(Flatten(a)),
                    multiset(a[e.g1]), multiset(a[e.g2]), multiset(s1), multiset(s2), multiset{x}, multiset{y});
  }

  /** The multiset bookkeeping of an exchange: the first group gives x for y, the second
      y for x, so the draw's players balance out. */
  lemma ExchangeBalance(fr: multiset<Name>, fb: multiset<Name>, fa: multiset<Name>,
                        m1: multiset<Name>, m2: multiset<Name>, n1: multiset<Name>, n2: multiset<Name>,
                        x: multiset<Name>, y: multiset<Name>)
    requires fr + m2 == fb + n2 && fb + m1 == fa + n1
    requires n1 + x == m1 + y && n2 + y == m2 + x
    ensures fr == fa
  {
    calc {
      (n1 + n2) + (x + y);
      (n1 + x) + (n2 + y);
      (m1 + y) + (m2 + x);
      (m1 + m2) + (x + y);
    }
    Cancel(n1 + n2, m1 + m2, x + y);
    calc {
      fr + (m1 + m2);
      (fr + m2) + m1;
      (fb + n2) + m1;
      (fb + m1) + n2;
      (fa + n1) + n2;
      fa + (n1 + n2);
      fa + (m1 + m2);
    }
    Cancel(fr, fa, m1 + m2);
  }

  /** A legal exchange keeps group sizes and fixed players, and places only players of
      the draw. */
  lemma SwapKeepsShape(a: Assignment, fixed: set<Name>, e: Exchange, clubs: map<Name, Club>,
                       visits: map<Name, seq<nat>>)
    requires Legal(a, fixed, e)
    ensures forall g :: 0 <= g < |a| ==> |Swap(a, e)[g]| == |a[g]|
    ensures forall g, k :: 0 <= g < |a| && 0 <= k < |a[g]| && a[g][k] in fixed ==> Swap(a, e)[g][k] == a[g][k]
    ensures Scorable(a, clubs, visits) ==> Scorable(Swap(a, e), clubs, visits)
  {
    var r := Swap(a, e);
    assert forall g, k :: 0 <= g < |a| && 0 <= k < |r[g]| ==>
      r[g][k] == a[g][k] || r[g][k] == a[e.g1][e.i] || r[g][k] == a[e.g2][e.j];
  }

  /** The neighbour keeps every group's size, leaves every fixed player where it was, and
      keeps a draw scorable. */
  lemma NeighborKeeps(a: Assignment, fixed: set<Name>, tries: seq<Try>, clubs: map<Name, Club>,
                      visits: map<Name, seq<nat>>)
    requires |a| == NGroups && AllWellFormed(tries)
    ensures forall g :: 0 <= g < NGroups ==> |NeighborOf(a, fixed, tries)[g]| == |a[g]|
    ensures forall g, k :: 0 <= g < NGroups && 0 <= k < |a[g]| && a[g][k] in fixed ==>
      NeighborOf(a, fixed, tries)[g][k] == a[g][k]
    ensures Scorable(a, clubs, visits) ==> Scorable(NeighborOf(a, fixed, tries), clubs, visits)
  {
    match FirstExchange(a, fixed, tries)
    case None =>
    case Some(e) =>
      SwapKeepsShape(a, fixed, e, clubs, visits);
  }
}
