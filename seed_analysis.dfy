/** The pure helpers of the statistical analysis: the natural sort key of file names, the
    parser of Seed cells, the groups a seed may occupy and the expected distribution of a
    player's placements over the groups. */
module SeedAnalysis {
  import opened Common

  type Group = string

  // ---------------------------------------------------------------------------
  // Natural sort key

  predicate NoDigit(s: string)
  {
    forall i :: 0 <= i < |s| ==> !IsDigit(s[i])
  }

  /** Length of the longest prefix of `s` whose characters are all digits (`digits`) or
      all non-digits (`!digits`). */
  function RunLength(s: string, digits: bool): (n: nat)
    ensures n <= |s|
    decreases |s|
  {
    if s == [] || IsDigit(s[0]) != digits then 0 else 1 + RunLength(s[1..], digits)
  }

  /** The run is maximal: every character in it has the kind, the next one does not. */
  lemma {:induction false} RunLengthRun(s: string, digits: bool)
    ensures forall i :: 0 <= i < RunLength(s, digits) ==> IsDigit(s[i]) == digits
    ensures RunLength(s, digits) < |s| ==> IsDigit(s[RunLength(s, digits)]) != digits
    ensures s != [] && IsDigit(s[0]) == digits ==> RunLength(s, digits) >= 1
    decreases |s|
  {
    if s != [] && IsDigit(s[0]) == digits {
      RunLengthRun(s[1..], digits);
      forall i | 1 <= i < RunLength(s, digits) ensures IsDigit(s[i]) == digits {
        assert s[i] == s[1..][i - 1];
      }
    }
  }

  /** The leading text block of `s`. */
  function Lead(s: string): string
  {
    s[..RunLength(s, false)]
  }

  /** The digit run after the leading text block (when there is one). */
  function DigitRun(s: string): string
    requires RunLength(s, false) < |s|
  {
    var rest := s[RunLength(s, false)..];
    rest[..RunLength(rest, true)]
  }

  /** What follows that digit run. */
  function AfterRun(s: string): (r: string)
    requires RunLength(s, false) < |s|
    ensures |r| < |s|
  {
    var rest := s[RunLength(s, false)..];
    RunLengthRun(s, false);
    RunLengthRun(rest, true);
    rest[RunLength(rest, true)..]
  }

  /** `re.split('([0-9]+)', s)`: the text between the maximal digit runs and the runs
      themselves, alternately, starting and ending with a (possibly empty) text block. */
  function Split(s: string): (r: seq<string>)
    ensures Join(r) == s
    decreases |s|
  {
    if RunLength(s, false) == |s| then
      assert Join([s]) == s + Join([]);
      [s]
    else
      var after := AfterRun(s);
      PiecesJoin(s);
      JoinCons(Lead(s), DigitRun(s), Split(after));
      [Lead(s), DigitRun(s)] + Split(after)
  }

  lemma PiecesJoin(s: string)
    requires RunLength(s, false) < |s|
    ensures s == Lead(s) + (DigitRun(s) + AfterRun(s))
  {
    var t := RunLength(s, false);
    var rest := s[t..];
    var d := RunLength(rest, true);
    assert rest == rest[..d] + rest[d..];
    assert s == s[..t] + rest;
  }

  lemma PiecesShape(s: string)
    requires RunLength(s, false) < |s|
    ensures NoDigit(Lead(s)) && DigitRun(s) != [] && AllDigits(DigitRun(s))
    ensures AfterRun(s) == [] || !IsDigit(AfterRun(s)[0])
  {
    var t := RunLength(s, false);
    var rest := s[t..];
    RunLengthRun(s, false);
    RunLengthRun(rest, true);
    RunLengthRun(AfterRun(s), false);
    forall i | 0 <= i < t ensures !IsDigit(Lead(s)[i]) { assert Lead(s)[i] == s[i]; }
    forall i | 0 <= i < |DigitRun(s)| ensures IsDigit(DigitRun(s)[i]) { assert DigitRun(s)[i] == rest[i]; }
  }

  /** The blocks alternate: text blocks hold no digit, digit blocks are non-empty runs of
      digits, only the first and the last text block may be empty, and joined together
      the blocks give back the string. */
  predicate Alternates(r: seq<string>)
  {
    && |r| % 2 == 1
    && (forall i :: 0 <= i < |r| && i % 2 == 0 ==> NoDigit(r[i]))
    && (forall i :: 0 <= i < |r| && i % 2 == 1 ==> r[i] != [] && AllDigits(r[i]))
    && (forall i :: 0 < i < |r| - 1 && i % 2 == 0 ==> r[i] != [])
  }

  /** Concatenation from the front. */
  function Join(r: seq<string>): string
  {
    if r == [] then [] else r[0] + Join(r[1..])
  }

  lemma {:induction false} SplitShape(s: string)
    ensures Alternates(Split(s))
    decreases |s|
  {
    RunLengthRun(s, false);
    if RunLength(s, false) < |s| {
      var after := AfterRun(s);
      SplitShape(after);
      PiecesShape(s);
      SplitHead(after);
      AlternatesCons(Lead(s), DigitRun(s), Split(after));
    }
  }

  /** A string that starts with a non-digit splits into a non-empty first text block. */
  lemma SplitHead(x: string)
    requires x == [] || !IsDigit(x[0])
    ensures |Split(x)| == 1 || Split(x)[0] != []
  {
    RunLengthRun(x, false);
    if RunLength(x, false) < |x| {
      assert Split(x)[0] == Lead(x);
    }
  }

  lemma JoinCons(a: string, b: string, t: seq<string>)
    ensures Join([a, b] + t) == a + (b + Join(t))
  {
    var r := [a, b] + t;
    assert r[1..][1..] == t;
  }

  lemma AlternatesCons(a: string, b: string, t: seq<string>)
    requires NoDigit(a) && b != [] && AllDigits(b) && Alternates(t)
    requires |t| == 1 || t[0] != []
    ensures Alternates([a, b] + t)
  {
    var r := [a, b] + t;
    forall i | 2 <= i < |r| ensures r[i] == t[i - 2] { }
  }

  /** One element of the sort key: `int(text)` or `text.lower()`. */
  datatype KeyPart = Num(n: nat) | Text(t: string)

  /** ASCII upper case letters to lower case, every other character unchanged. */
  function Lower(s: string): (r: string)
    ensures |r| == |s|
    ensures forall i :: 0 <= i < |s| ==> !('A' <= r[i] <= 'Z')
    ensures forall i :: 0 <= i < |s| && !('A' <= s[i] <= 'Z') ==> r[i] == s[i]
    ensures forall i :: 0 <= i < |s| && 'A' <= s[i] <= 'Z' ==> r[i] as int == s[i] as int + 32
  {
    seq(|s|, i requires 0 <= i < |s| => if 'A' <= s[i] <= 'Z' then (s[i] as int + 32) as char else s[i])
  }

  /** `sort_key`: each block becomes a number when it is a non-empty digit string and its
      lower-cased text otherwise. */
  function SortKey(s: string): (r: seq<KeyPart>)
    ensures |r| == |Split(s)|
  {
    var blocks := Split(s);
    seq(|blocks|, i requires 0 <= i < |blocks| =>
      if blocks[i] != [] && AllDigits(blocks[i]) then Num(DigitsValue(blocks[i])) else Text(Lower(blocks[i])))
  }

  /** Numbers and texts alternate in every key, text first, so two keys never compare a
      number against a text; the numbers are the values of the digit runs of `s` and the
      texts its lower-cased text blocks, in order. */
  lemma SortKeyAlternates(s: string)
    ensures Alternates(Split(s))
    ensures forall i :: 0 <= i < |SortKey(s)| ==> (SortKey(s)[i].Num? <==> i % 2 == 1)
    ensures forall i :: 0 <= i < |SortKey(s)| && i % 2 == 1 ==>
      SortKey(s)[i] == Num(DigitsValue(Split(s)[i]))
    ensures forall i :: 0 <= i < |SortKey(s)| && i % 2 == 0 ==> SortKey(s)[i] == Text(Lower(Split(s)[i]))
    ensures Join(Split(s)) == s
  {
    SplitShape(s);
    var blocks := Split(s);
    forall i | 0 <= i < |blocks| && i % 2 == 0 && blocks[i] != []
      ensures !AllDigits(blocks[i])
    {
      assert !IsDigit(blocks[i][0]);
    }
  }

  // ---------------------------------------------------------------------------
  // Seed cells

  /** A parsed seed: an integer, "3/4" or "5/8". */
  datatype ParsedSeed = Int(n: int) | ThreeFour | FiveEight

  /** Digits in groups: a digit first and last, and single underscores between digits,
      as Python's `int` allows since PEP 515 ("1_000"). */
  predicate IsDigitGroups(s: string)
  {
    && s != [] && IsDigit(s[0]) && IsDigit(s[|s| - 1])
    && (forall i :: 0 <= i < |s| ==> IsDigit(s[i]) || s[i] == '_')
    && (forall i :: 0 <= i < |s| - 1 && s[i] == '_' ==> s[i + 1] != '_')
  }

  /** The text with its underscores removed. */
  function DropUnderscores(s: string): (r: string)
    ensures (forall i :: 0 <= i < |s| ==> IsDigit(s[i]) || s[i] == '_') ==> AllDigits(r)
    ensures |r| <= |s|
    ensures AllDigits(s) ==> r == s
  {
    if s == [] then []
    else (if s[0] == '_' then [] else [s[0]]) + DropUnderscores(s[1..])
  }

  /** The value of grouped digit text: its digits read without the underscores. */
  function GroupsValue(s: string): nat
    requires IsDigitGroups(s)
  {
    DigitsValue(DropUnderscores(s))
  }

  /** A plain non-empty digit run is digit groups, and reads as itself. */
  lemma DigitsAreGroups(s: string)
    requires s != [] && AllDigits(s)
    ensures IsDigitGroups(s) && GroupsValue(s) == DigitsValue(s)
  {
  }

  /** What Python's `int(s)` accepts once `s` is stripped: an optional sign and
      digit groups. */
  predicate IsIntText(s: string)
  {
    if s != [] && (s[0] == '+' || s[0] == '-') then IsDigitGroups(s[1..])
    else IsDigitGroups(s)
  }

  function ParseInt(s: string): (r: Option<int>)
    ensures r.Some? <==> IsIntText(s)
    ensures r.Some? && s[0] == '-' ==> r.value == -(GroupsValue(s[1..]) as int)
    ensures r.Some? && (s[0] == '+' || s[0] == '-') ==> s[1..] != [] && IsDigit(s[1])
    ensures r.Some? && s[0] != '-' ==> r.value >= 0
  {
    if s != [] && s[0] == '-' && IsDigitGroups(s[1..]) then Some(-(GroupsValue(s[1..]) as int))
    else if s != [] && s[0] == '+' && IsDigitGroups(s[1..]) then Some(GroupsValue(s[1..]))
    else if IsDigitGroups(s) then Some(GroupsValue(s))
    else None
  }

  /** Underscores between digits are accepted and skipped. */
  lemma ParseIntUnderscores()
    ensures ParseInt("1_0") == Some(10)
  {
    assert DropUnderscores("1_0") == "10" by {
      assert "1_0"[1..] == "_0";
      assert "_0"[1..] == "0";
    }
    assert DigitsValue("10") == 10 by { assert "10"[..1] == "1"; }
    assert IsDigitGroups("1_0");
  }

  /** A minus sign before digit groups negates their value. */
  lemma ParseSignedGroups(t: string)
    requires IsDigitGroups(t)
    ensures ParseInt("-" + t) == Some(-(GroupsValue(t) as int))
    ensures ParseInt("+" + t) == Some(GroupsValue(t))
  {
    assert ("-" + t)[1..] == t;
    assert ("+" + t)[1..] == t;
  }

  /** Doubled, leading or trailing underscores are rejected. */
  lemma ParseIntBadUnderscores()
    ensures ParseInt("1__0") == None
    ensures ParseInt("_1") == None
    ensures ParseInt("1_") == None
  {
    assert "1__0"[1] == '_' && "1__0"[2] == '_';
  }

  /** `parser_seed`: an empty cell (NaN) is None; otherwise the stripped text of the cell
      is "3/4", "5/8", an integer, or None for anything else. `cell` is `str(val)`. */
  function ParserSeed(cell: Option<string>): (r: Option<ParsedSeed>)
    ensures cell.None? ==> r.None?
    ensures cell.Some? && Strip(cell.value) == "3/4" ==> r == Some(ThreeFour)
    ensures cell.Some? && Strip(cell.value) == "5/8" ==> r == Some(FiveEight)
    ensures r.Some? && r.value.Int? ==> cell.Some? && IsIntText(Strip(cell.value))
    ensures cell.Some? && IsIntText(Strip(cell.value)) ==> r.Some? && r.value.Int?
    ensures r.Some? && r.value.Int? ==> ParseInt(Strip(cell.value)) == Some(r.value.n)
    ensures r.None? <==> cell.None? || (Strip(cell.value) != "3/4" && Strip(cell.value) != "5/8" && !IsIntText(Strip(cell.value)))
  {
    match cell
    case None => None
    case Some(v) =>
      var s := Strip(v);
      if s == "3/4" then assert !IsDigit(s[1]); Some(ThreeFour)
      else if s == "5/8" then assert !IsDigit(s[1]); Some(FiveEight)
      else match ParseInt(s)
        case Some(n) => Some(Int(n))
        case None => None
  }

  lemma StripClean(s: string)
    requires s != [] && !IsSpace(s[0]) && !IsSpace(s[|s| - 1])
    ensures Strip(s) == s
  {
  }

  /** `int(str(n)) == n`. */
  lemma ParseIntString(n: int)
    ensures ParseInt(IntToString(n)) == Some(n)
  {
    if n < 0 {
      ParseNegative(-n);
    } else {
      var s := NatToString(n);
      assert IsDigit(s[0]);
      DigitsAreGroups(s);
      NatToStringRoundTrip(n);
    }
  }

  lemma ParseNegative(m: nat)
    requires m > 0
    ensures ParseInt("-" + NatToString(m)) == Some(-(m as int))
  {
    var t := NatToString(m);
    DigitsAreGroups(t);
    NatToStringRoundTrip(m);
    assert GroupsValue(t) == m;
    ParseSignedGroups(t);
  }

  /** The text `str(n)` of an integer reads back as that integer. */
  lemma ParserSeedInt(n: int)
    ensures ParserSeed(Some(IntToString(n))) == Some(Int(n))
  {
    var s := IntToString(n);
    StripClean(s);
    ParseIntString(n);
  }

  // ---------------------------------------------------------------------------
  // Allowed groups and the expected distribution

  /** A seed with a fixed set of groups: 1, 2, 3/4 or 5/8. */
  predicate Ranked(seed: Option<ParsedSeed>)
  {
    seed == Some(Int(1)) || seed == Some(Int(2)) || seed == Some(ThreeFour) || seed == Some(FiveEight)
  }

  const SeedGroups34: seq<Group> := ["C", "D"]
  const SeedGroups58: seq<Group> := ["E", "F", "G", "H"]

  /** `seed_allowed_groups`: seed 1 only in A, seed 2 only in B, 3/4 in C or D, 5/8 in
      E to H; every other value (None or another integer) in any group. */
  function SeedAllowedGroups(seed: Option<ParsedSeed>, groups: seq<Group>): (r: seq<Group>)
    ensures seed == Some(Int(1)) ==> r == ["A"]
    ensures seed == Some(Int(2)) ==> r == ["B"]
    ensures seed == Some(ThreeFour) ==> r == ["C", "D"]
    ensures seed == Some(FiveEight) ==> r == ["E", "F", "G", "H"]
    ensures !Ranked(seed) ==> r == groups
  {
    if seed == Some(Int(1)) then ["A"]
    else if seed == Some(Int(2)) then ["B"]
    else if seed == Some(ThreeFour) then SeedGroups34
    else if seed == Some(FiveEight) then SeedGroups58
    else groups
  }

  /** `expected_distribution`: all of `total` on A for seed 1, on B for seed 2, half on
      each of C and D for 3/4, a quarter on each of E to H for 5/8, and `total * p` for
      everyone else. */
  function ExpectedDistribution(total: real, seed: Option<ParsedSeed>, groups: seq<Group>, pUnseeded: seq<real>)
    : (r: seq<real>)
    requires |pUnseeded| == |groups|
    ensures |r| == |groups|
    ensures seed == Some(Int(1)) ==> forall i :: 0 <= i < |groups| ==> r[i] == if groups[i] == "A" then total else 0.0
    ensures seed == Some(Int(2)) ==> forall i :: 0 <= i < |groups| ==> r[i] == if groups[i] == "B" then total else 0.0
    ensures seed == Some(ThreeFour) ==> forall i :: 0 <= i < |groups| ==>
      r[i] == if groups[i] == "C" || groups[i] == "D" then total / 2.0 else 0.0
    ensures seed == Some(FiveEight) ==> forall i :: 0 <= i < |groups| ==>
      r[i] == if groups[i] in {"E", "F", "G", "H"} then total / 4.0 else 0.0
    ensures !Ranked(seed) ==> forall i :: 0 <= i < |groups| ==> r[i] == total * pUnseeded[i]
  {
    if seed == Some(Int(1)) then Spread(total, ["A"], groups)
    else if seed == Some(Int(2)) then Spread(total, ["B"], groups)
    else if seed == Some(ThreeFour) then Spread(total / 2.0, SeedGroups34, groups)
    else if seed == Some(FiveEight) then Spread(total / 4.0, SeedGroups58, groups)
    else Scale(total, pUnseeded)
  }

  /** `share` on each group listed in `on`, zero elsewhere. */
  function Spread(share: real, on: seq<Group>, groups: seq<Group>): (r: seq<real>)
    ensures |r| == |groups|
    ensures forall i :: 0 <= i < |groups| ==> r[i] == if groups[i] in on then share else 0.0
  {
    seq(|groups|, i requires 0 <= i < |groups| => if groups[i] in on then share else 0.0)
  }

  /** `p_unseeded`: each group's share of the free places. */
  function PUnseeded(groups: seq<Group>, free: map<Group, nat>): (p: seq<real>)
    requires forall i :: 0 <= i < |groups| ==> groups[i] in free
    requires FreeTotal(groups, free) > 0
    ensures |p| == |groups|
  {
    Shares(groups, free, FreeTotal(groups, free) as real)
  }

  /** Each group's free places divided by `tot`. */
  function Shares(groups: seq<Group>, free: map<Group, nat>, tot: real): (p: seq<real>)
    requires forall i :: 0 <= i < |groups| ==> groups[i] in free
    requires tot > 0.0
    ensures |p| == |groups|
  {
    seq(|groups|, i requires 0 <= i < |groups| => free[groups[i]] as real / tot)
  }

  /** `sum(free_slots.values())` over the listed groups. */
  function FreeTotal(groups: seq<Group>, free: map<Group, nat>): nat
    requires forall i :: 0 <= i < |groups| ==> groups[i] in free
  {
    if groups == [] then 0 else FreeTotal(groups[..|groups| - 1], free) + free[groups[|groups| - 1]]
  }

  predicate Distinct(groups: seq<Group>)
  {
    forall i, j :: 0 <= i < j < |groups| ==> groups[i] != groups[j]
  }

  /** The unseeded probabilities sum to one whenever there is a free place. */
  lemma PUnseededSum(groups: seq<Group>, free: map<Group, nat>)
    requires forall i :: 0 <= i < |groups| ==> groups[i] in free
    requires FreeTotal(groups, free) > 0
    ensures SumReal(PUnseeded(groups, free)) == 1.0
  {
    var tot := FreeTotal(groups, free) as real;
    SumShares(groups, free, tot);
    DivSelf(tot);
  }

  lemma DivSelf(x: real)
    requires x > 0.0
    ensures x / x == 1.0
  {
  }

  lemma DivAdd(a: real, b: real, tot: real)
    requires tot > 0.0
    ensures a / tot + b / tot == (a + b) / tot
  {
  }

  lemma {:induction false} SumShares(groups: seq<Group>, free: map<Group, nat>, tot: real)
    requires forall i :: 0 <= i < |groups| ==> groups[i] in free
    requires tot > 0.0
    ensures SumReal(Shares(groups, free, tot)) == FreeTotal(groups, free) as real / tot
  {
    if groups != [] {
      var init, last := groups[..|groups| - 1], groups[|groups| - 1];
      SumShares(init, free, tot);
      var s := Shares(groups, free, tot);
      assert s[..|s| - 1] == Shares(init, free, tot) by {
        forall k | 0 <= k < |init| ensures s[..|s| - 1][k] == Shares(init, free, tot)[k] { assert init[k] == groups[k]; }
      }
      assert s[|s| - 1] == free[last] as real / tot;
      var a, b := FreeTotal(init, free) as real, free[last] as real;
      assert FreeTotal(groups, free) as real == a + b;
      DivAdd(a, b, tot);
    }
  }

  /** Number of entries of `groups` that are listed in `on`. */
  function CountIn(groups: seq<Group>, on: seq<Group>): nat
  {
    if groups == [] then 0 else CountIn(groups[..|groups| - 1], on) + (if groups[|groups| - 1] in on then 1 else 0)
  }

  lemma {:induction false} SpreadSum(share: real, on: seq<Group>, groups: seq<Group>)
    ensures SumReal(Spread(share, on, groups)) == share * CountIn(groups, on) as real
  {
    if groups != [] {
      var init := groups[..|groups| - 1];
      SpreadSum(share, on, init);
      assert Spread(share, on, groups)[..|groups| - 1] == Spread(share, on, init);
    }
  }

  /** Each group of `on` occurs once in a list of distinct groups that holds them all. */
  lemma {:induction false} CountInDistinct(groups: seq<Group>, on: seq<Group>)
    requires Distinct(groups) && Distinct(on)
    requires forall j :: 0 <= j < |on| ==> on[j] in groups
    ensures CountIn(groups, on) == |on|
    decreases |groups|
  {
    if groups == [] {
      if on != [] {
        FirstIn(on);
        assert false;
      }
    } else {
      var init, last := groups[..|groups| - 1], groups[|groups| - 1];
      assert groups == init + [last];
      if last in on {
        var k :| 0 <= k < |on| && on[k] == last;
        var rest := on[..k] + on[k + 1..];
        RemoveAt(on, k);
        forall j | 0 <= j < |rest| ensures rest[j] in init {
          assert rest[j] in rest;
        }
        CountInDistinct(init, rest);
        CountInSame(init, on, rest, last);
      } else {
        forall j | 0 <= j < |on| ensures on[j] in init {
          assert on[j] != last;
        }
        CountInDistinct(init, on);
      }
    }
  }

  /** Removing the entry at `k` from a distinct list leaves a distinct list holding the
      other entries. */
  lemma RemoveAt(on: seq<Group>, k: nat)
    requires Distinct(on) && k < |on|
    ensures Distinct(on[..k] + on[k + 1..])
    ensures forall g :: g in on[..k] + on[k + 1..] <==> g in on && g != on[k]
  {
    var rest := on[..k] + on[k + 1..];
    forall a, b | 0 <= a < b < |rest| ensures rest[a] != rest[b] {
      var a', b' := if a < k then a else a + 1, if b < k then b else b + 1;
      assert rest[a] == on[a'] && rest[b] == on[b'];
    }
    forall g ensures g in rest <==> g in on && g != on[k] {
      if g in rest {
        var j :| 0 <= j < |rest| && rest[j] == g;
        var j' := if j < k then j else j + 1;
        assert rest[j] == on[j'];
      }
      if g in on && g != on[k] {
        var j :| 0 <= j < |on| && on[j] == g;
        var j' := if j < k then j else j - 1;
        assert rest[j'] == g;
      }
    }
  }

  lemma FirstIn(on: seq<Group>)
    ensures on != [] ==> on[0] in on
  {
  }

  /** Dropping a group absent from `groups` from the list `on` does not change the count. */
  lemma {:induction false} CountInSame(groups: seq<Group>, on: seq<Group>, rest: seq<Group>, x: Group)
    requires x !in groups
    requires forall g :: g in on <==> g in rest || g == x
    ensures CountIn(groups, on) == CountIn(groups, rest)
  {
    if groups != [] {
      CountInSame(groups[..|groups| - 1], on, rest, x);
    }
  }

  /** `total * p` on a numpy array. */
  function Scale(total: real, p: seq<real>): (r: seq<real>)
    ensures |r| == |p| && forall i :: 0 <= i < |p| ==> r[i] == total * p[i]
  {
    seq(|p|, i requires 0 <= i < |p| => total * p[i])
  }

  lemma {:induction false} SumScaled(total: real, p: seq<real>)
    ensures SumReal(Scale(total, p)) == total * SumReal(p)
  {
    if p != [] {
      var init := p[..|p| - 1];
      SumScaled(total, init);
      assert Scale(total, p)[..|p| - 1] == Scale(total, init) by {
        forall k | 0 <= k < |init| ensures Scale(total, p)[..|p| - 1][k] == Scale(total, init)[k] {
          assert init[k] == p[k];
        }
      }
    }
  }

  /** The expected counts of a player sum to `total` whenever the groups are distinct and
      include every group its seed allows, and the unseeded probabilities sum to one. */
  lemma ExpectedDistributionSum(total: real, seed: Option<ParsedSeed>, groups: seq<Group>, pUnseeded: seq<real>)
    requires |pUnseeded| == |groups| && Distinct(groups)
    requires forall g :: g in SeedAllowedGroups(seed, groups) ==> g in groups
    requires SumReal(pUnseeded) == 1.0
    ensures SumReal(ExpectedDistribution(total, seed, groups, pUnseeded)) == total
  {
    if Ranked(seed) {
      RankedSum(total, seed.value, groups, pUnseeded);
    } else {
      UnrankedSum(total, seed, groups, pUnseeded);
    }
  }

  lemma UnrankedSum(total: real, seed: Option<ParsedSeed>, groups: seq<Group>, pUnseeded: seq<real>)
    requires !Ranked(seed) && |pUnseeded| == |groups|
    ensures SumReal(ExpectedDistribution(total, seed, groups, pUnseeded)) == total * SumReal(pUnseeded)
  {
    assert ExpectedDistribution(total, seed, groups, pUnseeded) == Scale(total, pUnseeded);
    SumScaled(total, pUnseeded);
  }

  lemma RankedSum(total: real, seed: ParsedSeed, groups: seq<Group>, pUnseeded: seq<real>)
    requires Ranked(Some(seed)) && |pUnseeded| == |groups| && Distinct(groups)
    requires forall g :: g in SeedAllowedGroups(Some(seed), groups) ==> g in groups
    ensures SumReal(ExpectedDistribution(total, Some(seed), groups, pUnseeded)) == total
  {
    var on := SeedAllowedGroups(Some(seed), groups);
    var share := if seed == Int(1) || seed == Int(2) then total
      else if seed == ThreeFour then total / 2.0 else total / 4.0;
    assert ExpectedDistribution(total, Some(seed), groups, pUnseeded) == Spread(share, on, groups);
    SpreadTotal(share, on, groups);
    assert share * |on| as real == total;
  }

  /** `share` on each of the distinct groups `on`, all present, sums to `share * |on|`. */
  lemma SpreadTotal(share: real, on: seq<Group>, groups: seq<Group>)
    requires Distinct(groups) && Distinct(on)
    requires forall g :: g in on ==> g in groups
    ensures SumReal(Spread(share, on, groups)) == share * |on| as real
  {
    SpreadSum(share, on, groups);
    CountInDistinct(groups, on);
  }
}
