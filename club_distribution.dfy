/** How the players of one club spread over the halves and quarters of the knockout
    bracket: the conflict and near-miss checks of club_distribution/club_distribution_check.py,
    and the column helpers both club checkers share. */
module ClubDistribution {
  import opened Common
  import opened Bracket

  type Club = string

  /** One value of the 'Half' or 'Quarter' column. */
  datatype Section = InHalf(h: Half) | InQuarter(q: Quarter)

  /** The players of one club in one file, as `groupby(['File', 'Club'])` delivers them,
      by the bracket position of their group (None when the group has no position).
      Rows whose club is NaN belong to no such group. */
  datatype ClubGroup = ClubGroup(file: string, club: Club, positions: seq<Option<int>>)

  /** `str.upper()` on ASCII letters. */
  function Upper(s: string): (r: string)
    ensures |r| == |s|
  {
    seq(|s|, i requires 0 <= i < |s| => if 'a' <= s[i] <= 'z' then (s[i] as int - 'a' as int + 'A' as int) as char else s[i])
  }

  /** The first index from `i` on whose group letter is `c`. */
  function FindLetter(c: char, i: nat): (r: Option<nat>)
    requires i <= NGroups
    ensures r.Some? ==> i <= r.value < NGroups && GroupLetters[r.value] == c
    ensures r.None? ==> forall j :: i <= j < NGroups ==> GroupLetters[j] != c
    decreases NGroups - i
  {
    if i == NGroups then None
    else if GroupLetters[i] == c then Some(i)
    else FindLetter(c, i + 1)
  }

  /** A group name as the 'Pos' column sees it: stripped, upper-cased, then looked up in
      `group_to_pos`; an unknown name has no position. */
  function GroupPos(group: string): (p: Option<int>)
    ensures p.Some? ==> exists gi :: 0 <= gi < NGroups && Upper(Strip(group)) == [GroupLetters[gi]] && p.value == GroupPositions[gi]
    ensures p.None? ==> forall gi :: 0 <= gi < NGroups ==> Upper(Strip(group)) != [GroupLetters[gi]]
  {
    var name := Upper(Strip(group));
    if |name| == 1 then
      match FindLetter(name[0], 0)
      case Some(gi) => Some(GroupPositions[gi])
      case None => None
    else None
  }

  function AsHalf(h: Option<Half>): Option<Section>
  {
    if h.Some? then Some(InHalf(h.value)) else None
  }

  function AsQuarter(q: Option<Quarter>): Option<Section>
  {
    if q.Some? then Some(InQuarter(q.value)) else None
  }

  /** The 'Half' column of a group: `Pos.apply(get_half)`. */
  function HalfColumn(positions: seq<Option<int>>): (s: seq<Option<Section>>)
    ensures |s| == |positions|
  {
    seq(|positions|, i requires 0 <= i < |positions| => AsHalf(GetHalf(positions[i])))
  }

  /** The 'Quarter' column of a group: `Pos.apply(get_quarter)`. */
  function QuarterColumn(positions: seq<Option<int>>): (s: seq<Option<Section>>)
    ensures |s| == |positions|
  {
    seq(|positions|, i requires 0 <= i < |positions| => AsQuarter(GetQuarter(positions[i])))
  }

  // ---------------------------------------------------------------------------
  // value_counts, unique, max

  predicate NoDup(u: seq<Section>)
  {
    forall i, j :: 0 <= i < j < |u| ==> u[i] != u[j]
  }

  /** `dropna().unique()`: the values present, each once, in order of first appearance. */
  function Uniques(s: seq<Option<Section>>): seq<Section>
  {
    if s == [] then []
    else
      var u := Uniques(s[..|s| - 1]);
      match s[|s| - 1]
      case None => u
      case Some(v) => if v in u then u else u + [v]
  }

  lemma {:induction false} UniquesMembers(s: seq<Option<Section>>)
    ensures forall v :: v in Uniques(s) <==> Some(v) in s
    ensures NoDup(Uniques(s))
  {
    if s != [] {
      UniquesMembers(s[..|s| - 1]);
      assert s == s[..|s| - 1] + [s[|s| - 1]];
    }
  }

  /** The number of non-null entries, `notna().sum()`. */
  function NonNull(s: seq<Option<Section>>): nat
  {
    |s| - Count(s, None)
  }

  function MaxOver(s: seq<Option<Section>>, vs: seq<Section>): nat
  {
    if vs == [] then 0
    else
      var m, c := MaxOver(s, vs[..|vs| - 1]), Count(s, Some(vs[|vs| - 1]));
      if m >= c then m else c
  }

  /** `value_counts().max()`: the largest count of a present value (0 when there is none). */
  function MaxCount(s: seq<Option<Section>>): nat
  {
    MaxOver(s, Uniques(s))
  }

  lemma {:induction false} MaxOverIs(s: seq<Option<Section>>, vs: seq<Section>)
    ensures forall i :: 0 <= i < |vs| ==> Count(s, Some(vs[i])) <= MaxOver(s, vs)
    ensures vs != [] ==> exists i :: 0 <= i < |vs| && Count(s, Some(vs[i])) == MaxOver(s, vs)
  {
    if vs != [] {
      var init := vs[..|vs| - 1];
      MaxOverIs(s, init);
      assert forall i :: 0 <= i < |init| ==> vs[i] == init[i];
      var last := |vs| - 1;
      if MaxOver(s, init) >= Count(s, Some(vs[last])) && init != [] {
        var i :| 0 <= i < |init| && Count(s, Some(init[i])) == MaxOver(s, init);
        assert Count(s, Some(vs[i])) == MaxOver(s, vs);
      } else {
        assert Count(s, Some(vs[last])) == MaxOver(s, vs);
      }
    }
  }

  lemma CountAbsent(s: seq<Option<Section>>, x: Option<Section>)
    ensures Count(s, x) == 0 <==> x !in s
  {
    CountIsMultiplicity(s, x);
  }

  /** The maximum bounds every count and is the count of some present value. */
  lemma MaxCountIs(s: seq<Option<Section>>)
    ensures forall v :: Count(s, Some(v)) <= MaxCount(s)
    ensures forall v :: Some(v) in s ==> exists w :: Some(w) in s && Count(s, Some(w)) == MaxCount(s)
  {
    var u := Uniques(s);
    UniquesMembers(s);
    MaxOverIs(s, u);
    forall v ensures Count(s, Some(v)) <= MaxCount(s) {
      if Some(v) in s {
        var i :| 0 <= i < |u| && u[i] == v;
      } else {
        CountAbsent(s, Some(v));
      }
    }
    forall v | Some(v) in s ensures exists w :: Some(w) in s && Count(s, Some(w)) == MaxCount(s) {
      assert v in u;
      var i :| 0 <= i < |u| && Count(s, Some(u[i])) == MaxOver(s, u);
      assert u[i] in u;
    }
  }

  /** Two different values never account for more entries than there are. */
  lemma {:induction false} CountPair(s: seq<Option<Section>>, x: Option<Section>, y: Option<Section>)
    requires x != y
    ensures Count(s, x) + Count(s, y) <= |s|
  {
    if s != [] {
      CountPair(s[..|s| - 1], x, y);
    }
  }

  // ---------------------------------------------------------------------------
  // half_conflict_func, quarter_conflict_func

  /** The shared body of the two conflict functions: at least two players, every one of
      them with a section, and either all in one section or at least `threshold` in one. */
  function SectionConflict(s: seq<Option<Section>>, threshold: nat): bool
  {
    if |s| < 2 then false
    else NonNull(s) == |s| && (MaxCount(s) == NonNull(s) || MaxCount(s) >= threshold)
  }

  /** `half_conflict_func`: a club has a half conflict exactly when at least two of its
      players are drawn, all of them into groups with a half, and either all in the same
      half or at least 8 in one half. */
  function HalfConflict(g: ClubGroup): (c: bool)
    ensures var s := HalfColumn(g.positions);
      c <==> |s| >= 2 && AllPresent(s) && (AllSame(s) || exists v :: Count(s, Some(v)) >= 8)
  {
    ConflictMeaning(HalfColumn(g.positions), 8);
    SectionConflict(HalfColumn(g.positions), 8)
  }

  /** `quarter_conflict_func`: the same rule with quarters and at least 4 in one quarter. */
  function QuarterConflict(g: ClubGroup): (c: bool)
    ensures var s := QuarterColumn(g.positions);
      c <==> |s| >= 2 && AllPresent(s) && (AllSame(s) || exists v :: Count(s, Some(v)) >= 4)
  {
    ConflictMeaning(QuarterColumn(g.positions), 4);
    SectionConflict(QuarterColumn(g.positions), 4)
  }

  /** All entries are present. */
  predicate AllPresent(s: seq<Option<Section>>)
  {
    forall i :: 0 <= i < |s| ==> s[i].Some?
  }

  /** All entries are the first one. */
  predicate AllSame(s: seq<Option<Section>>)
  {
    forall i :: 0 <= i < |s| ==> s[i] == s[0]
  }

  lemma ConflictMeaning(s: seq<Option<Section>>, threshold: nat)
    ensures SectionConflict(s, threshold) <==>
      |s| >= 2 && AllPresent(s) && (AllSame(s) || exists v :: Count(s, Some(v)) >= threshold)
  {
    if |s| >= 2 {
      CountAbsent(s, None);
      MaxCountIs(s);
      if AllPresent(s) {
        assert None !in s;
        assert s[0] in s;
        CountAll(s, s[0]);
        if MaxCount(s) == |s| {
          var w :| Some(w) in s && Count(s, Some(w)) == MaxCount(s);
          CountAll(s, Some(w));
        }
        if AllSame(s) {
          assert Count(s, Some(s[0].value)) == |s|;
        }
        if MaxCount(s) >= threshold {
          var w :| Some(w) in s && Count(s, Some(w)) == MaxCount(s);
        }
      } else {
        var i :| 0 <= i < |s| && s[i].None?;
        assert None in s;
      }
    }
  }

  // ---------------------------------------------------------------------------
  // Near misses

  datatype Kind = HalfKind | QuarterKind

  datatype NearMiss = NearMiss(file: string, club: Club, kind: Kind, section: Section, count: nat, total: nat)

  /** `count / total >= 0.6 and count < total and count < limit`. For player counts the
      float quotient is at least 0.6 exactly when `5 * count >= 3 * total`. */
  predicate Near(count: nat, total: nat, limit: nat)
  {
    5 * count >= 3 * total && count < total && count < limit
  }

  /** The near misses of one column, over the values `vs` of its `value_counts()`. */
  function Misses(g: ClubGroup, kind: Kind, s: seq<Option<Section>>, vs: seq<Section>, limit: nat): seq<NearMiss>
  {
    if vs == [] then []
    else
      var v := vs[|vs| - 1];
      var c := Count(s, Some(v));
      Misses(g, kind, s, vs[..|vs| - 1], limit)
        + if Near(c, |g.positions|, limit) then [NearMiss(g.file, g.club, kind, v, c, |g.positions|)] else []
  }

  /** The near misses of one club and file: halves with limit 8, then quarters with limit 4,
      only for clubs with more than one player. */
  function GroupMisses(g: ClubGroup): seq<NearMiss>
  {
    if |g.positions| > 1 then
      var hs, qs := HalfColumn(g.positions), QuarterColumn(g.positions);
      Misses(g, HalfKind, hs, Uniques(hs), 8) + Misses(g, QuarterKind, qs, Uniques(qs), 4)
    else []
  }

  function AllMisses(groups: seq<ClubGroup>): seq<NearMiss>
  {
    if groups == [] then [] else AllMisses(groups[..|groups| - 1]) + GroupMisses(groups[|groups| - 1])
  }

  /** The near-miss loop over all clubs and files. */
  method NearMisses(groups: seq<ClubGroup>) returns (misses: seq<NearMiss>)
    ensures misses == AllMisses(groups)
  {
    misses := [];
    for gi := 0 to |groups|
      invariant misses == AllMisses(groups[..gi])
    {
      var g := groups[gi];
      if |g.positions| > 1 {
        var hs, qs := HalfColumn(g.positions), QuarterColumn(g.positions);
        var halfMisses := ColumnMisses(g, HalfKind, hs, 8);
        var quarterMisses := ColumnMisses(g, QuarterKind, qs, 4);
        misses := misses + halfMisses + quarterMisses;
      }
      assert groups[..gi + 1][..gi] == groups[..gi];
    }
    assert groups[..|groups|] == groups;
  }

  /** One inner loop of the near-miss check, over `value_counts().items()`. */
  method ColumnMisses(g: ClubGroup, kind: Kind, s: seq<Option<Section>>, limit: nat) returns (found: seq<NearMiss>)
    ensures found == Misses(g, kind, s, Uniques(s), limit)
  {
    var vs := Uniques(s);
    var total := |g.positions|;
    found := [];
    for k := 0 to |vs|
      invariant found == Misses(g, kind, s, vs[..k], limit)
    {
      var count := Count(s, Some(vs[k]));
      if 5 * count >= 3 * total && count < total && count < limit {
        found := found + [NearMiss(g.file, g.club, kind, vs[k], count, total)];
      }
      assert vs[..k + 1][..k] == vs[..k];
    }
    assert vs[..|vs|] == vs;
  }

  /** A near miss records a present section of the column, its true count, the club size,
      and a count that passes the 60% test yet is short of the whole club and of the limit. */
  lemma {:induction false} MissesMeaning(g: ClubGroup, kind: Kind, s: seq<Option<Section>>, vs: seq<Section>, limit: nat, m: NearMiss)
    ensures m in Misses(g, kind, s, vs, limit) <==>
      m.file == g.file && m.club == g.club && m.kind == kind && m.section in vs
      && m.count == Count(s, Some(m.section)) && m.total == |g.positions| && Near(m.count, m.total, limit)
  {
    if vs != [] {
      MissesMeaning(g, kind, s, vs[..|vs| - 1], limit, m);
      assert vs == vs[..|vs| - 1] + [vs[|vs| - 1]];
    }
  }

  /** A section with a near miss holds more players than any other, so the maximum count
      is its count. */
  lemma NearIsMax(s: seq<Option<Section>>, v: Section, limit: nat)
    requires |s| >= 2 && Near(Count(s, Some(v)), |s|, limit)
    ensures MaxCount(s) == Count(s, Some(v))
  {
    var c := Count(s, Some(v));
    CountAbsent(s, Some(v));
    MaxCountIs(s);
    var w :| Some(w) in s && Count(s, Some(w)) == MaxCount(s);
    if w != v {
      CountPair(s, Some(v), Some(w));
    }
  }

  /** A club with a half near miss has no half conflict, and one with a quarter near miss
      has no quarter conflict: the two checks never report the same club and file. */
  lemma NearMissNoConflict(g: ClubGroup, m: NearMiss)
    requires m in GroupMisses(g)
    ensures m.kind == HalfKind ==> !HalfConflict(g)
    ensures m.kind == QuarterKind ==> !QuarterConflict(g)
  {
    var hs, qs := HalfColumn(g.positions), QuarterColumn(g.positions);
    if m in Misses(g, HalfKind, hs, Uniques(hs), 8) {
      MissesMeaning(g, HalfKind, hs, Uniques(hs), 8, m);
      NearIsMax(hs, m.section, 8);
      CountAbsent(hs, None);
      CountPair(hs, None, Some(m.section));
    } else {
      assert m in Misses(g, QuarterKind, qs, Uniques(qs), 4);
      MissesMeaning(g, QuarterKind, qs, Uniques(qs), 4, m);
      NearIsMax(qs, m.section, 4);
      CountPair(qs, None, Some(m.section));
    }
  }
}
