/** The first club checker, club_distribution_check.py: per file and club, which halves and
    quarters the players reached, whether that is a single one, and which clubs put at
    least two players into one section. */
module ClubCheck {
  import opened Common
  import opened ClubDistribution

  /** One row of `analyse_halften_viertel`. */
  datatype SectionRow = SectionRow(
    file: string, club: Club, players: nat,
    halves: seq<Section>, quarters: seq<Section>,
    onlyOneHalf: bool, onlyOneQuarter: bool)

  function Row(g: ClubGroup): SectionRow
  {
    var hs, qs := Uniques(HalfColumn(g.positions)), Uniques(QuarterColumn(g.positions));
    SectionRow(g.file, g.club, |g.positions|, hs, qs, |hs| == 1, |qs| == 1)
  }

  /** The rows of `analyse_halften_viertel`: one per club with more than one player. */
  function Analysis(groups: seq<ClubGroup>): seq<SectionRow>
  {
    if groups == [] then []
    else
      var g := groups[|groups| - 1];
      Analysis(groups[..|groups| - 1]) + if |g.positions| > 1 then [Row(g)] else []
  }

  method Analyse(groups: seq<ClubGroup>) returns (results: seq<SectionRow>)
    ensures results == Analysis(groups)
  {
    results := [];
    for gi := 0 to |groups|
      invariant results == Analysis(groups[..gi])
    {
      var g := groups[gi];
      if |g.positions| > 1 {
        var halves := Uniques(HalfColumn(g.positions));
        var quarters := Uniques(QuarterColumn(g.positions));
        results := results + [SectionRow(g.file, g.club, |g.positions|, halves, quarters, |halves| == 1, |quarters| == 1)];
      }
      assert groups[..gi + 1][..gi] == groups[..gi];
    }
    assert groups[..|groups|] == groups;
  }

  lemma {:induction false} AnalysisMeaning(groups: seq<ClubGroup>, r: SectionRow)
    ensures r in Analysis(groups) <==> exists g :: g in groups && |g.positions| > 1 && r == Row(g)
  {
    if groups != [] {
      var init := groups[..|groups| - 1];
      AnalysisMeaning(init, r);
      assert groups == init + [groups[|groups| - 1]];
    }
  }

  /** Some present value, and every present entry is that value. */
  ghost predicate OneSection(s: seq<Option<Section>>)
  {
    exists v :: Some(v) in s && forall i :: 0 <= i < |s| && s[i].Some? ==> s[i] == Some(v)
  }

  /** `len(halves) == 1` (and the same for quarters): exactly one section occurs among the
      players that have one; players without a section do not matter. */
  lemma OnlyOneMeaning(s: seq<Option<Section>>)
    ensures |Uniques(s)| == 1 <==> OneSection(s)
  {
    var u := Uniques(s);
    UniquesMembers(s);
    assert |u| < 2 || (u[0] != u[1] && u[0] in u && u[1] in u);
    if |u| == 1 {
      var v := u[0];
      assert v in u;
      forall i | 0 <= i < |s| && s[i].Some? ensures s[i] == Some(v) {
        assert s[i].value in u;
      }
    }
    if OneSection(s) {
      var v :| Some(v) in s && forall i :: 0 <= i < |s| && s[i].Some? ==> s[i] == Some(v);
      assert v in u;
      forall w | w in u ensures w == v {
        var i :| 0 <= i < |s| && s[i] == Some(w);
      }
    }
  }

  /** When every player of a club with two or more players has a half, `Only_one_half` says
      exactly that they all share it: the first half of half_conflict_func's test. */
  lemma OnlyOneHalfWhenPresent(g: ClubGroup)
    requires |g.positions| >= 2 && AllPresent(HalfColumn(g.positions))
    ensures Row(g).onlyOneHalf <==> AllSame(HalfColumn(g.positions))
  {
    var s := HalfColumn(g.positions);
    OnlyOneMeaning(s);
    if OneSection(s) {
      var v :| Some(v) in s && forall i :: 0 <= i < |s| && s[i].Some? ==> s[i] == Some(v);
      assert s[0] == Some(v);
    }
    if AllSame(s) {
      assert s[0] in s;
      assert forall i :: 0 <= i < |s| && s[i].Some? ==> s[i] == Some(s[0].value);
    }
  }

  // ---------------------------------------------------------------------------
  // At least two players in one section

  /** One row of the 'at least 2' lists: the club, its file and `value_counts().to_dict()`. */
  datatype CountsRow = CountsRow(file: string, club: Club, counts: map<Section, nat>)

  function Column(kind: Kind, positions: seq<Option<int>>): (s: seq<Option<Section>>)
    ensures |s| == |positions|
  {
    match kind
    case HalfKind => HalfColumn(positions)
    case QuarterKind => QuarterColumn(positions)
  }

  /** `value_counts().to_dict()`: each present value with its number of players. */
  function Counts(s: seq<Option<Section>>): (m: map<Section, nat>)
  {
    map v | v in Uniques(s) :: Count(s, Some(v))
  }

  /** `(counts >= 2).any()`. */
  predicate AnyTwo(s: seq<Option<Section>>)
  {
    exists v :: v in Uniques(s) && Count(s, Some(v)) >= 2
  }

  function Min2Rows(groups: seq<ClubGroup>, kind: Kind): seq<CountsRow>
  {
    if groups == [] then []
    else
      var g := groups[|groups| - 1];
      var s := Column(kind, g.positions);
      Min2Rows(groups[..|groups| - 1], kind)
        + if |g.positions| > 1 && AnyTwo(s) then [CountsRow(g.file, g.club, Counts(s))] else []
  }

  /** The 'at least 2' loop, filling both lists in one pass. */
  method Min2Conflicts(groups: seq<ClubGroup>) returns (halfRows: seq<CountsRow>, quarterRows: seq<CountsRow>)
    ensures halfRows == Min2Rows(groups, HalfKind)
    ensures quarterRows == Min2Rows(groups, QuarterKind)
  {
    halfRows, quarterRows := [], [];
    for gi := 0 to |groups|
      invariant halfRows == Min2Rows(groups[..gi], HalfKind)
      invariant quarterRows == Min2Rows(groups[..gi], QuarterKind)
    {
      var g := groups[gi];
      if |g.positions| > 1 {
        var halves := HalfColumn(g.positions);
        if AnyTwo(halves) {
          halfRows := halfRows + [CountsRow(g.file, g.club, Counts(halves))];
        }
        var quarters := QuarterColumn(g.positions);
        if AnyTwo(quarters) {
          quarterRows := quarterRows + [CountsRow(g.file, g.club, Counts(quarters))];
        }
      }
      assert groups[..gi + 1][..gi] == groups[..gi];
    }
    assert groups[..|groups|] == groups;
  }

  /** Two distinct entries carrying the value. */
  ghost predicate TwoOf(s: seq<Option<Section>>, x: Option<Section>)
  {
    exists i, j :: 0 <= i < j < |s| && s[i] == x && s[j] == x
  }

  lemma {:induction false} CountTwo(s: seq<Option<Section>>, x: Option<Section>)
    ensures Count(s, x) >= 2 <==> TwoOf(s, x)
  {
    if s != [] {
      var init, last := s[..|s| - 1], s[|s| - 1];
      CountTwo(init, x);
      assert forall i :: 0 <= i < |init| ==> s[i] == init[i];
      if TwoOf(s, x) && !TwoOf(init, x) {
        var i, j :| 0 <= i < j < |s| && s[i] == x && s[j] == x;
        assert j == |s| - 1 && init[i] == x;
        CountIsMultiplicity(init, x);
      }
      if last == x && Count(init, x) >= 1 {
        CountIsMultiplicity(init, x);
        var i :| 0 <= i < |init| && init[i] == x;
        assert s[i] == x && s[|s| - 1] == x;
      }
    }
  }

  /** A club is listed when two of its players share a section. */
  lemma AnyTwoMeaning(s: seq<Option<Section>>)
    ensures AnyTwo(s) <==> exists i, j :: 0 <= i < j < |s| && s[i].Some? && s[i] == s[j]
  {
    UniquesMembers(s);
    if AnyTwo(s) {
      var v :| v in Uniques(s) && Count(s, Some(v)) >= 2;
      CountTwo(s, Some(v));
    }
    if exists i, j :: 0 <= i < j < |s| && s[i].Some? && s[i] == s[j] {
      var i, j :| 0 <= i < j < |s| && s[i].Some? && s[i] == s[j];
      CountTwo(s, s[i]);
      assert s[i].value in Uniques(s);
    }
  }

  /** The counts of a listed row are those of the column: every present section with its
      number of players, and nothing else. */
  lemma CountsMeaning(s: seq<Option<Section>>)
    ensures forall v :: v in Counts(s) <==> Some(v) in s
    ensures forall v :: v in Counts(s) ==> Counts(s)[v] == Count(s, Some(v)) >= 1
  {
    UniquesMembers(s);
    forall v | v in Counts(s) ensures Count(s, Some(v)) >= 1 {
      CountIsMultiplicity(s, Some(v));
    }
  }

  lemma {:induction false} Min2Meaning(groups: seq<ClubGroup>, kind: Kind, r: CountsRow)
    ensures r in Min2Rows(groups, kind) <==>
      exists g :: g in groups && |g.positions| > 1 && AnyTwo(Column(kind, g.positions))
        && r == CountsRow(g.file, g.club, Counts(Column(kind, g.positions)))
  {
    if groups != [] {
      var init := groups[..|groups| - 1];
      Min2Meaning(init, kind, r);
      assert groups == init + [groups[|groups| - 1]];
    }
  }

  /** Every club with an all-in-one-half conflict of half_conflict_func is also in the
      'at least 2 in one half' list. */
  lemma HalfConflictHasTwo(g: ClubGroup)
    requires HalfConflict(g)
    ensures AnyTwo(HalfColumn(g.positions))
  {
    var s := HalfColumn(g.positions);
    AnyTwoMeaning(s);
    if AllSame(s) {
      assert s[0].Some? && s[0] == s[1];
    } else {
      var v :| Count(s, Some(v)) >= 8;
      CountTwo(s, Some(v));
      var i, j :| 0 <= i < j < |s| && s[i] == Some(v) && s[j] == Some(v);
    }
  }
}
