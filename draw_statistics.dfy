// Co-occurrence counting and run-length helpers of statistics/draw_statistics.py.
module DrawStatistics {
  import opened Common
  import SeedAnalysis
  import Combos

  type Name = string
  type Club = string

  // ---------------------------------------------------------------------------
  // sorted(set(int(n) for n in nums if pd.notna(n)))

  predicate Increasing(xs: seq<int>)
  {
    forall i, j :: 0 <= i < j < |xs| ==> xs[i] < xs[j]
  }

  /** Put `n` into an increasing list, keeping it increasing and free of repeats. */
  function Insert(xs: seq<int>, n: int): (r: seq<int>)
    ensures forall y :: y in r <==> y in xs || y == n
  {
    if xs == [] then [n]
    else if n < xs[0] then [n] + xs
    else if n == xs[0] then xs
    else [xs[0]] + Insert(xs[1..], n)
  }

  lemma {:induction false} InsertIncreasing(xs: seq<int>, n: int)
    requires Increasing(xs)
    ensures Increasing(Insert(xs, n))
  {
    if xs != [] && n > xs[0] {
      var rest := Insert(xs[1..], n);
      InsertIncreasing(xs[1..], n);
      assert forall y :: y in rest ==> xs[0] < y;
      var r := [xs[0]] + rest;
      assert forall j :: 0 < j < |r| ==> r[j] == rest[j - 1] && rest[j - 1] in rest;
    } else if xs != [] && n < xs[0] {
      assert forall j :: 0 <= j < |xs| ==> xs[0] <= xs[j];
    }
  }

  /** The present (non-NaN) values of `nums`, without repeats, in ascending order. */
  function SortedValues(nums: seq<Option<int>>): (xs: seq<int>)
    ensures Increasing(xs)
    ensures forall y :: y in xs <==> Some(y) in nums
  {
    if nums == [] then []
    else
      var xs := SortedValues(nums[..|nums| - 1]);
      assert nums == nums[..|nums| - 1] + [nums[|nums| - 1]];
      match nums[|nums| - 1]
      case None => xs
      case Some(n) => InsertIncreasing(xs, n); Insert(xs, n)
  }

  /** An ascending list without repeats is determined by its elements, so `SortedValues`
      is the one `sorted(set(...))` produces. */
  lemma {:induction false} IncreasingUnique(xs: seq<int>, ys: seq<int>)
    requires Increasing(xs) && Increasing(ys)
    requires forall y :: y in xs <==> y in ys
    ensures xs == ys
  {
    HeadIn(xs);
    HeadIn(ys);
    if xs != [] && ys != [] {
      forall y ensures y in xs[1..] <==> y in ys[1..] {
        if y in xs[1..] {
          assert y != xs[0];
          assert y in ys;
        }
        if y in ys[1..] {
          assert y != ys[0];
          assert y in xs;
        }
      }
      IncreasingUnique(xs[1..], ys[1..]);
    }
  }

  lemma HeadIn(xs: seq<int>)
    ensures xs != [] ==> xs[0] in xs
  {
  }

  // ---------------------------------------------------------------------------
  // longest_consecutive_run

  /** `xs[lo..hi]` is a run of consecutive integers. */
  predicate Consecutive(xs: seq<int>, lo: int, hi: int)
    requires 0 <= lo <= hi <= |xs|
  {
    forall j :: lo < j < hi ==> xs[j] == xs[j - 1] + 1
  }

  /** `longest_consecutive_run`: the length of the longest run of consecutive integers
      among the distinct present values; 0 when there is none. */
  method LongestRun(nums: seq<Option<int>>) returns (longest: nat)
    ensures longest == 0 <==> SortedValues(nums) == []
    ensures longest <= |SortedValues(nums)|
    ensures SortedValues(nums) != [] ==>
      exists lo, hi :: 0 <= lo <= hi <= |SortedValues(nums)| && hi - lo == longest && Consecutive(SortedValues(nums), lo, hi)
    ensures forall lo, hi :: 0 <= lo < hi <= |SortedValues(nums)| && Consecutive(SortedValues(nums), lo, hi) ==> hi - lo <= longest
  {
    longest := LongestRunIn(SortedValues(nums));
  }

  /** The loop of `longest_consecutive_run` over the sorted distinct values `xs`. */
  method LongestRunIn(xs: seq<int>) returns (longest: nat)
    ensures longest == 0 <==> xs == []
    ensures longest <= |xs|
    ensures xs != [] ==> exists lo, hi :: 0 <= lo <= hi <= |xs| && hi - lo == longest && Consecutive(xs, lo, hi)
    ensures forall lo, hi :: 0 <= lo < hi <= |xs| && Consecutive(xs, lo, hi) ==> hi - lo <= longest
  {
    if xs == [] {
      return 0;
    }
    longest := 1;
    var current: nat := 1;
    ghost var best := 0;  // where a longest run found so far starts
    for i := 1 to |xs|
      invariant 1 <= current <= i && current <= longest <= i
      invariant Consecutive(xs, i - current, i)
      invariant i - current == 0 || xs[i - current] != xs[i - current - 1] + 1
      invariant 0 <= best <= i - longest && Consecutive(xs, best, best + longest)
      invariant forall lo, hi :: 0 <= lo < hi <= i && Consecutive(xs, lo, hi) ==> hi - lo <= longest
    {
      if xs[i] == xs[i - 1] + 1 {
        Extend(xs, i - current, i);
        current := current + 1;
        if current > longest {
          longest := current;
          best := i + 1 - current;
        }
      } else {
        current := 1;
      }
      RunsBounded(xs, i, current, longest);
    }
  }

  lemma Extend(xs: seq<int>, lo: nat, hi: nat)
    requires lo < hi < |xs| && Consecutive(xs, lo, hi) && xs[hi] == xs[hi - 1] + 1
    ensures Consecutive(xs, lo, hi + 1)
  {
  }

  /** Once the run ending at `i` is maximal, no window ending there is longer. */
  lemma RunsBounded(xs: seq<int>, i: nat, current: nat, longest: nat)
    requires 0 < i < |xs| && 1 <= current <= i + 1 && current <= longest
    requires Consecutive(xs, i + 1 - current, i + 1)
    requires i + 1 - current == 0 || xs[i + 1 - current] != xs[i - current] + 1
    requires forall lo, hi :: 0 <= lo < hi <= i && Consecutive(xs, lo, hi) ==> hi - lo <= longest
    ensures forall lo, hi :: 0 <= lo < hi <= i + 1 && Consecutive(xs, lo, hi) ==> hi - lo <= longest
  {
    forall lo, hi | 0 <= lo < hi <= i + 1 && Consecutive(xs, lo, hi) ensures hi - lo <= longest {
      if hi < i + 1 {
        assert hi - lo <= longest;
      }
    }
  }

  // ---------------------------------------------------------------------------
  // format_draw_display

  function DrawEntry(n: int): (e: string)
    ensures |e| > 5 && e[..5] == "Draw_"
  {
    "Draw_" + IntToString(n)
  }

  /** `", ".join(parts)`. */
  function JoinComma(parts: seq<string>): string
  {
    if parts == [] then ""
    else if |parts| == 1 then parts[0]
    else parts[0] + ", " + JoinComma(parts[1..])
  }

  function Entries(xs: seq<int>): (es: seq<string>)
    ensures |es| == |xs| && forall i :: 0 <= i < |xs| ==> es[i] == DrawEntry(xs[i])
  {
    seq(|xs|, i requires 0 <= i < |xs| => DrawEntry(xs[i]))
  }

  /** `format_draw_display`: the distinct present values in ascending order, each as
      "Draw_n", separated by ", ". */
  function FormatDrawDisplay(nums: seq<Option<int>>): (r: string)
    ensures r == "" <==> forall i :: 0 <= i < |nums| ==> nums[i].None?
  {
    var xs := SortedValues(nums);
    if xs != [] then
      assert Some(xs[0]) in nums;
      assert |JoinComma(Entries(xs))| >= |Entries(xs)[0]| > 0;
      JoinComma(Entries(xs))
    else
      assert forall i :: 0 <= i < |nums| ==> nums[i] !in nums || nums[i].None?;
      ""
  }

  /** The position of the first ',' in `s`, or `|s|`. */
  function CommaAt(s: string): (k: nat)
    ensures k <= |s| && (k < |s| ==> s[k] == ',')
    ensures forall j :: 0 <= j < k ==> s[j] != ','
  {
    if s == [] || s[0] == ',' then 0 else 1 + CommaAt(s[1..])
  }

  /** Reads a ", "-separated list back into its parts. */
  function SplitEntries(s: string): seq<string>
    decreases |s|
  {
    var k := CommaAt(s);
    if k + 2 <= |s| then [s[..k]] + SplitEntries(s[k + 2..]) else [s]
  }

  /** Reads one "Draw_n" entry back into `n`. */
  function ReadEntry(e: string): Option<int>
  {
    if |e| >= 5 && e[..5] == "Draw_" then SeedAnalysis.ParseInt(e[5..]) else None
  }

  function ReadDisplay(s: string): seq<Option<int>>
  {
    if s == "" then [] else
      var parts := SplitEntries(s);
      seq(|parts|, i requires 0 <= i < |parts| => ReadEntry(parts[i]))
  }

  predicate NoComma(s: string)
  {
    forall j :: 0 <= j < |s| ==> s[j] != ','
  }

  lemma {:induction false} SplitJoin(parts: seq<string>)
    requires parts != [] && forall i :: 0 <= i < |parts| ==> NoComma(parts[i])
    ensures SplitEntries(JoinComma(parts)) == parts
  {
    var s := JoinComma(parts);
    if |parts| == 1 {
      assert CommaAt(s) == |s|;
    } else {
      var p := parts[0];
      var rest := JoinComma(parts[1..]);
      assert s == p + ", " + rest;
      var k := CommaAt(s);
      assert s[|p|] == ',';
      assert k == |p|;
      assert s[..k] == p;
      assert s[k + 2..] == rest;
      SplitJoin(parts[1..]);
    }
  }

  lemma EntryRoundTrip(n: int)
    ensures NoComma(DrawEntry(n))
    ensures ReadEntry(DrawEntry(n)) == Some(n)
  {
    var e := DrawEntry(n);
    assert e[5..] == IntToString(n);
    SeedAnalysis.ParseIntString(n);
    IntTextNoComma(n);
    assert e == "Draw_" + IntToString(n);
  }

  /** Decimal text holds no comma. */
  lemma IntTextNoComma(n: int)
    ensures NoComma("Draw_" + IntToString(n))
  {
    var d := if n < 0 then NatToString(-n) else NatToString(n);
    assert AllDigits(d);
    assert forall j :: 0 <= j < |d| ==> d[j] != ',';
  }

  /** The display reads back as the ascending distinct values it was made from. */
  lemma DisplayRoundTrip(nums: seq<Option<int>>)
    ensures var xs := SortedValues(nums);
      ReadDisplay(FormatDrawDisplay(nums)) == seq(|xs|, i requires 0 <= i < |xs| => Some(xs[i]))
  {
    var xs := SortedValues(nums);
    var es := Entries(xs);
    if xs != [] {
      forall i | 0 <= i < |es| ensures NoComma(es[i]) && ReadEntry(es[i]) == Some(xs[i]) {
        EntryRoundTrip(xs[i]);
      }
      SplitJoin(es);
      assert |es[0]| > 0;
    }
  }

  // ---------------------------------------------------------------------------
  // count_pairs, count_triplets, count_quadruplets

  /** What a tuple's list records for one draw: its draw number, or `str(File)` when the
      file name carries none. */
  datatype Label = Nr(n: int) | FileText(text: string)

  /** One file of draws, already grouped as `groupby("File")` and `groupby("Group")` deliver
      it: the players of each group in row order. */
  datatype DrawFile = DrawFile(file: string, drawNr: Option<int>, groups: seq<seq<Name>>)

  function LabelOf(d: DrawFile): Label
  {
    if d.drawNr.Some? then Nr(d.drawNr.value) else FileText(d.file)
  }

  /** The `defaultdict(list)`: a sorted tuple is a canonical form of its multiset of names. */
  type Counter = map<multiset<Name>, seq<Label>>

  function Lookup(c: Counter, key: multiset<Name>): seq<Label>
  {
    if key in c then c[key] else []
  }

  function Prepend(x: Name, cs: seq<seq<Name>>): (r: seq<seq<Name>>)
    ensures |r| == |cs| && forall i :: 0 <= i < |cs| ==> r[i] == [x] + cs[i]
  {
    seq(|cs|, i requires 0 <= i < |cs| => [x] + cs[i])
  }

  /** `itertools.combinations(s, k)`, in its order: the ones holding `s[0]` first. */
  function Combinations(s: seq<Name>, k: nat): seq<seq<Name>>
    decreases |s|
  {
    if k == 0 then [[]]
    else if s == [] then []
    else Prepend(s[0], Combinations(s[1..], k - 1)) + Combinations(s[1..], k)
  }

  /** Read as multisets, these tuples are the combinations of `Combos`, in the same
      order: one enumeration, kept here as tuples because the source displays them. */
  lemma {:induction false} CombinationsAsMultisets(s: seq<Name>, k: nat)
    ensures |Combinations(s, k)| == |Combos.Combinations(s, k)|
    ensures forall i :: 0 <= i < |Combinations(s, k)| ==>
      multiset(Combinations(s, k)[i]) == Combos.Combinations(s, k)[i]
    decreases |s|
  {
    if k == 0 {
      assert multiset(Combinations(s, k)[0]) == multiset{};
    } else if s == [] {
      assert Combinations(s, k) == [] && Combos.Combinations(s, k) == [];
    } else {
      var x, rest := s[0], s[1..];
      CombinationsAsMultisets(rest, k - 1);
      CombinationsAsMultisets(rest, k);
      var with, without := Combinations(rest, k - 1), Combinations(rest, k);
      var with', without' := Combos.Combinations(rest, k - 1), Combos.Combinations(rest, k);
      assert Combinations(s, k) == Prepend(x, with) + without;
      assert Combos.Combinations(s, k) == Combos.AddToEach(x, with') + without';
      PrependAsAddToEach(x, with, without, with', without');
    }
  }

  /** One step of `CombinationsAsMultisets`: prefixing `x` and appending the rest keeps
      the tuples and the multisets in step. */
  lemma PrependAsAddToEach(x: Name, with: seq<seq<Name>>, without: seq<seq<Name>>,
                           with': seq<multiset<Name>>, without': seq<multiset<Name>>)
    requires |with| == |with'| && forall i :: 0 <= i < |with| ==> multiset(with[i]) == with'[i]
    requires |without| == |without'| && forall i :: 0 <= i < |without| ==> multiset(without[i]) == without'[i]
    ensures |Prepend(x, with) + without| == |Combos.AddToEach(x, with') + without'|
    ensures forall i :: 0 <= i < |Prepend(x, with) + without| ==>
      multiset((Prepend(x, with) + without)[i]) == (Combos.AddToEach(x, with') + without')[i]
  {
    var p, p' := Prepend(x, with), Combos.AddToEach(x, with');
    forall i | 0 <= i < |p + without|
      ensures multiset((p + without)[i]) == (p' + without')[i]
    {
      if i < |p| {
        assert multiset([x] + with[i]) == multiset{x} + multiset(with[i]);
      } else {
        assert (p + without)[i] == without[i - |p|];
      }
    }
  }

  /** `counter[key].append(l)`. */
  function Add(c: Counter, key: multiset<Name>, l: Label): Counter
  {
    c[key := Lookup(c, key) + [l]]
  }

  function AddCombos(c: Counter, l: Label, combos: seq<seq<Name>>): Counter
  {
    if combos == [] then c
    else Add(AddCombos(c, l, combos[..|combos| - 1]), multiset(combos[|combos| - 1]), l)
  }

  function AddGroups(c: Counter, l: Label, groups: seq<seq<Name>>, k: nat): Counter
  {
    if groups == [] then c
    else AddCombos(AddGroups(c, l, groups[..|groups| - 1], k), l, Combinations(groups[|groups| - 1], k))
  }

  /** The counter after the first `|draws|` files. */
  function Tally(draws: seq<DrawFile>, k: nat): Counter
  {
    if draws == [] then map[]
    else
      var d := draws[|draws| - 1];
      AddGroups(Tally(draws[..|draws| - 1], k), LabelOf(d), d.groups, k)
  }

  /** `count_pairs` (k = 2), `count_triplets` (k = 3) and `count_quadruplets` (k = 4). */
  method CountTuples(draws: seq<DrawFile>, k: nat) returns (counter: Counter)
    ensures counter == Tally(draws, k)
  {
    counter := map[];
    for f := 0 to |draws|
      invariant counter == Tally(draws[..f], k)
    {
      counter := CountFile(counter, draws[f], k);
      assert draws[..f + 1][..f] == draws[..f];
    }
    assert draws[..|draws|] == draws;
  }

  /** The groups of one file, in order. */
  method CountFile(c: Counter, d: DrawFile, k: nat) returns (counter: Counter)
    ensures counter == AddGroups(c, LabelOf(d), d.groups, k)
  {
    var tag := LabelOf(d);
    counter := c;
    for j := 0 to |d.groups|
      invariant counter == AddGroups(c, tag, d.groups[..j], k)
    {
      counter := CountGroup(counter, tag, Combinations(d.groups[j], k));
      GroupsSnoc(c, tag, d.groups, j, k);
    }
    assert d.groups[..|d.groups|] == d.groups;
  }

  lemma GroupsSnoc(c: Counter, tag: Label, groups: seq<seq<Name>>, j: nat, k: nat)
    requires j < |groups|
    ensures AddGroups(c, tag, groups[..j + 1], k) == AddCombos(AddGroups(c, tag, groups[..j], k), tag, Combinations(groups[j], k))
  {
    assert groups[..j + 1][..j] == groups[..j];
  }

  /** Appends the file's label to the list of each combination of one group. */
  method CountGroup(c: Counter, tag: Label, combos: seq<seq<Name>>) returns (counter: Counter)
    ensures counter == AddCombos(c, tag, combos)
  {
    counter := c;
    for m := 0 to |combos|
      invariant counter == AddCombos(c, tag, combos[..m])
    {
      counter := Add(counter, multiset(combos[m]), tag);
      assert combos[..m + 1][..m] == combos[..m];
    }
    assert combos[..|combos|] == combos;
  }

  // ---------------------------------------------------------------------------
  // What the counter holds

  /** A group of distinct names, and no name in two groups of one file. */
  predicate NoRepeats(groups: seq<seq<Name>>)
  {
    (forall j :: 0 <= j < |groups| ==> UniqueSeq(groups[j]))
    && forall j1, j2, x :: 0 <= j1 < j2 < |groups| && x in groups[j1] ==> x !in groups[j2]
  }

  /** No name occurs twice in `s`. */
  predicate UniqueSeq(s: seq<Name>)
  {
    s == [] || (s[0] !in s[1..] && UniqueSeq(s[1..]))
  }

  /** `key` is `k` names of `s`; when `s` has no repeats, they are `k` distinct names. */
  predicate Fills(key: multiset<Name>, s: seq<Name>, k: nat)
  {
    |key| == k && key <= multiset(s)
  }

  /** `key` names `k` players who share a group of the file. */
  predicate Together(groups: seq<seq<Name>>, key: multiset<Name>, k: nat)
  {
    exists j :: 0 <= j < |groups| && Fills(key, groups[j], k)
  }

  /** The labels of the files in which `key` shares a group, in file order. */
  function LabelsWith(draws: seq<DrawFile>, key: multiset<Name>, k: nat): seq<Label>
  {
    if draws == [] then []
    else
      var d := draws[|draws| - 1];
      LabelsWith(draws[..|draws| - 1], key, k) + (if Together(d.groups, key, k) then [LabelOf(d)] else [])
  }

  function CountKey(combos: seq<seq<Name>>, key: multiset<Name>): nat
  {
    if combos == [] then 0
    else CountKey(combos[..|combos| - 1], key) + (if multiset(combos[|combos| - 1]) == key then 1 else 0)
  }

  function GroupsCount(groups: seq<seq<Name>>, k: nat, key: multiset<Name>): nat
  {
    if groups == [] then 0
    else GroupsCount(groups[..|groups| - 1], k, key) + CountKey(Combinations(groups[|groups| - 1], k), key)
  }

  lemma RepeatAdd(l: Label, a: nat, b: nat)
    ensures Repeat(l, a) + Repeat(l, b) == Repeat(l, a + b)
  {
    var r := Repeat(l, a) + Repeat(l, b);
    assert |r| == a + b;
    assert forall i :: 0 <= i < a + b ==> r[i] == l;
  }

  lemma {:induction false} AddCombosLookup(c: Counter, l: Label, combos: seq<seq<Name>>, key: multiset<Name>)
    ensures Lookup(AddCombos(c, l, combos), key) == Lookup(c, key) + Repeat(l, CountKey(combos, key))
  {
    if combos != [] {
      var init := combos[..|combos| - 1];
      var c1 := AddCombos(c, l, init);
      var n1 := CountKey(init, key);
      AddCombosLookup(c, l, init, key);
      if multiset(combos[|combos| - 1]) == key {
        assert Lookup(AddCombos(c, l, combos), key) == Lookup(c1, key) + [l];
        RepeatAdd(l, n1, 1);
        assert Lookup(c, key) + Repeat(l, n1) + [l] == Lookup(c, key) + (Repeat(l, n1) + Repeat(l, 1));
      } else {
        assert Lookup(AddCombos(c, l, combos), key) == Lookup(c1, key);
      }
    }
  }

  lemma {:induction false} AddGroupsLookup(c: Counter, l: Label, groups: seq<seq<Name>>, k: nat, key: multiset<Name>)
    ensures Lookup(AddGroups(c, l, groups, k), key) == Lookup(c, key) + Repeat(l, GroupsCount(groups, k, key))
  {
    if groups != [] {
      var init := groups[..|groups| - 1];
      var combos := Combinations(groups[|groups| - 1], k);
      var c1 := AddGroups(c, l, init, k);
      var n1, n2 := GroupsCount(init, k, key), CountKey(combos, key);
      assert AddGroups(c, l, groups, k) == AddCombos(c1, l, combos);
      assert GroupsCount(groups, k, key) == n1 + n2;
      AddGroupsLookup(c, l, init, k, key);
      AddCombosLookup(c1, l, combos, key);
      RepeatAdd(l, n1, n2);
      assert Lookup(c, key) + Repeat(l, n1) + Repeat(l, n2) == Lookup(c, key) + (Repeat(l, n1) + Repeat(l, n2));
    }
  }

  lemma {:induction false} CountKeyAppend(a: seq<seq<Name>>, b: seq<seq<Name>>, key: multiset<Name>)
    ensures CountKey(a + b, key) == CountKey(a, key) + CountKey(b, key)
  {
    if b != [] {
      assert (a + b)[..|a + b| - 1] == a + b[..|b| - 1];
      CountKeyAppend(a, b[..|b| - 1], key);
    } else {
      assert a + b == a;
    }
  }

  lemma {:induction false} CountKeyPrepend(x: Name, cs: seq<seq<Name>>, key: multiset<Name>)
    ensures CountKey(Prepend(x, cs), key) == if x in key then CountKey(cs, key - multiset{x}) else 0
  {
    if cs != [] {
      var init := cs[..|cs| - 1];
      assert Prepend(x, cs)[..|cs| - 1] == Prepend(x, init);
      CountKeyPrepend(x, init, key);
      var c := cs[|cs| - 1];
      assert multiset([x] + c) == multiset{x} + multiset(c);
      if x in key {
        assert multiset{x} + multiset(c) == key <==> multiset(c) == key - multiset{x};
      }
    }
  }

  /** Among the `k`-combinations of distinct names, exactly one has the names of `key`
      when `key` is `k` distinct names of `s`, and none otherwise. */
  lemma CombinationsCount(s: seq<Name>, k: nat, key: multiset<Name>)
    requires UniqueSeq(s)
    ensures CountKey(Combinations(s, k), key) == if Fills(key, s, k) then 1 else 0
  {
    CountCombinations(s, k, key);
    ChooseValue(s, k, key);
  }

  /** How many `k`-combinations of `s` have the names of `key`, following the recursion
      of `Combinations`. */
  function Choose(s: seq<Name>, k: nat, key: multiset<Name>): nat
    decreases |s|
  {
    if k == 0 then (if key == multiset{} then 1 else 0)
    else if s == [] then 0
    else (if s[0] in key then Choose(s[1..], k - 1, key - multiset{s[0]}) else 0) + Choose(s[1..], k, key)
  }

  lemma {:induction false} CountCombinations(s: seq<Name>, k: nat, key: multiset<Name>)
    ensures CountKey(Combinations(s, k), key) == Choose(s, k, key)
    decreases |s|
  {
    if k == 0 {
      var none: seq<seq<Name>> := [[]];
      assert Combinations(s, 0) == none;
      assert none[..0] == [];
    } else if s != [] {
      var x, rest := s[0], s[1..];
      var with, without := Combinations(rest, k - 1), Combinations(rest, k);
      assert Combinations(s, k) == Prepend(x, with) + without;
      CountKeyAppend(Prepend(x, with), without, key);
      CountKeyPrepend(x, with, key);
      CountCombinations(rest, k, key);
      if x in key {
        CountCombinations(rest, k - 1, key - multiset{x});
      }
    }
  }

  lemma {:induction false} ChooseValue(s: seq<Name>, k: nat, key: multiset<Name>)
    requires UniqueSeq(s)
    ensures Choose(s, k, key) == if Fills(key, s, k) then 1 else 0
    decreases |s|
  {
    if k == 0 {
      if |key| == 0 {
        assert key == multiset{};
      }
    } else if s == [] {
      if |key| > 0 {
        var x :| x in key;
      }
    } else {
      var x, rest := s[0], s[1..];
      FillsStep(key, s, k);
      ChooseValue(rest, k, key);
      if x in key {
        ChooseValue(rest, k - 1, key - multiset{x});
      }
    }
  }

  lemma FillsStep(key: multiset<Name>, s: seq<Name>, k: nat)
    requires s != [] && UniqueSeq(s) && k > 0
    ensures s[0] in key ==> !Fills(key, s[1..], k) && (Fills(key - multiset{s[0]}, s[1..], k - 1) <==> Fills(key, s, k))
    ensures s[0] !in key ==> (Fills(key, s[1..], k) <==> Fills(key, s, k))
  {
    var x, rest := s[0], s[1..];
    assert s == [x] + rest;
    assert x !in rest;
    assert multiset(s) == multiset{x} + multiset(rest);
    if x in key {
      var key' := key - multiset{x};
      assert key == key' + multiset{x};
      if key <= multiset(s) {
        assert key'[x] == 0;
        assert key' <= multiset(rest);
      }
    }
  }

  /** Within one file, a key of `k >= 1` distinct names comes from at most one group. */
  lemma {:induction false} GroupsCountValue(groups: seq<seq<Name>>, k: nat, key: multiset<Name>)
    requires k >= 1 && NoRepeats(groups)
    ensures GroupsCount(groups, k, key) == if Together(groups, key, k) then 1 else 0
  {
    if groups != [] {
      var init := groups[..|groups| - 1];
      assert NoRepeats(init);
      GroupsCountValue(init, k, key);
      CombinationsCount(groups[|groups| - 1], k, key);
      TogetherSnoc(groups, key, k);
    }
  }

  lemma TogetherSnoc(groups: seq<seq<Name>>, key: multiset<Name>, k: nat)
    requires groups != [] && k >= 1 && NoRepeats(groups)
    ensures var init, g := groups[..|groups| - 1], groups[|groups| - 1];
      var last := Fills(key, g, k);
      (Together(groups, key, k) <==> Together(init, key, k) || last)
      && !(Together(init, key, k) && last)
  {
    var init, g := groups[..|groups| - 1], groups[|groups| - 1];
    if Fills(key, g, k) {
      var x :| x in key;
      assert x in multiset(g);
      forall j | 0 <= j < |init| ensures !Fills(key, init[j], k) {
        assert x !in init[j];
      }
      assert Fills(key, groups[|groups| - 1], k);
    } else if Together(groups, key, k) {
      var j :| 0 <= j < |groups| && Fills(key, groups[j], k);
      assert j < |init| && init[j] == groups[j];
    }
  }

  /** The list kept for a key is the labels of the files in which its `k` distinct
      names share a group, once each, in file order. */
  lemma {:induction false} TallyLookup(draws: seq<DrawFile>, k: nat, key: multiset<Name>)
    requires k >= 1 && forall f :: 0 <= f < |draws| ==> NoRepeats(draws[f].groups)
    ensures Lookup(Tally(draws, k), key) == LabelsWith(draws, key, k)
  {
    if draws != [] {
      var init, d := draws[..|draws| - 1], draws[|draws| - 1];
      TallyLookup(init, k, key);
      AddGroupsLookup(Tally(init, k), LabelOf(d), d.groups, k, key);
      GroupsCountValue(d.groups, k, key);
    }
  }

  /** A key is present exactly when its list is not empty: `defaultdict` only creates a
      key when it appends to it. */
  lemma {:induction false} TallyKeys(draws: seq<DrawFile>, k: nat, key: multiset<Name>)
    ensures key in Tally(draws, k) <==> Lookup(Tally(draws, k), key) != []
  {
    if draws != [] {
      var init, d := draws[..|draws| - 1], draws[|draws| - 1];
      TallyKeys(init, k, key);
      GroupsKeys(Tally(init, k), LabelOf(d), d.groups, k, key);
    }
  }

  lemma {:induction false} GroupsKeys(c: Counter, l: Label, groups: seq<seq<Name>>, k: nat, key: multiset<Name>)
    requires key in c <==> Lookup(c, key) != []
    ensures var c' := AddGroups(c, l, groups, k); key in c' <==> Lookup(c', key) != []
  {
    if groups != [] {
      GroupsKeys(c, l, groups[..|groups| - 1], k, key);
      CombosKeys(AddGroups(c, l, groups[..|groups| - 1], k), l, Combinations(groups[|groups| - 1], k), key);
    }
  }

  lemma {:induction false} CombosKeys(c: Counter, l: Label, combos: seq<seq<Name>>, key: multiset<Name>)
    requires key in c <==> Lookup(c, key) != []
    ensures var c' := AddCombos(c, l, combos); key in c' <==> Lookup(c', key) != []
  {
    if combos != [] {
      CombosKeys(c, l, combos[..|combos| - 1], key);
    }
  }

  // ---------------------------------------------------------------------------
  // find_unpaired

  /** A player's row of the frame: the seed and club cells, NaN as None. */
  datatype Info = Info(name: Name, seed: Option<string>, club: Option<Club>)

  datatype Unpaired = Unpaired(player1: Name, seed1: Option<string>, club1: Option<Club>,
                               player2: Name, seed2: Option<string>, club2: Option<Club>, count: nat)

  function NamesIn(rows: seq<Info>): set<Name>
  {
    set i | 0 <= i < |rows| :: rows[i].name
  }

  /** `drop_duplicates(subset="Name")` keeps the first row of each player. */
  function FirstInfo(rows: seq<Info>, p: Name): (r: Info)
    requires p in NamesIn(rows)
    ensures r.name == p && r in rows
  {
    if rows[0].name == p then rows[0]
    else
      assert p in NamesIn(rows[1..]) by {
        var i :| 0 <= i < |rows| && rows[i].name == p;
        assert rows[1..][i - 1] == rows[i];
      }
      FirstInfo(rows[1..], p)
  }

  /** Python's `<` on strings: code point by code point, a proper prefix first. */
  predicate LexLess(a: string, b: string)
  {
    b != [] && (a == [] || a[0] < b[0] || (a[0] == b[0] && LexLess(a[1..], b[1..])))
  }

  /** `combinations(sorted(names), 2)` meets each unordered pair of distinct names once,
      as `(a, b)` with `a < b`. */
  lemma {:induction false} LexOrder(a: string, b: string)
    ensures !LexLess(a, a) && !LexLess(b, b)
    ensures !(LexLess(a, b) && LexLess(b, a))
    ensures a != b ==> LexLess(a, b) || LexLess(b, a)
  {
    LexIrreflexive(a);
    LexIrreflexive(b);
    if a != [] && b != [] {
      LexOrder(a[1..], b[1..]);
      if a[0] == b[0] && a != b {
        assert a == [a[0]] + a[1..] && b == [b[0]] + b[1..];
      }
    }
  }

  lemma {:induction false} LexIrreflexive(a: string)
    ensures !LexLess(a, a)
  {
    if a != [] {
      LexIrreflexive(a[1..]);
    }
  }

  /** Both seeded, or both of the same known club: such a pair can never share a group. */
  predicate Excluded(x: Info, y: Info)
  {
    (x.seed.Some? && y.seed.Some?) || (x.club.Some? && y.club.Some? && x.club == y.club)
  }

  function RowOf(x: Info, y: Info, count: nat): Unpaired
  {
    Unpaired(x.name, x.seed, x.club, y.name, y.seed, y.club, count)
  }

  /** `find_unpaired`: the sorted pairs of players that are not keys of `pairs`, less the
      excluded ones. `Count` is `pair_counter.get((a, b), 0)` for a pair that is not a key,
      hence always 0. */
  function FindUnpaired(rows: seq<Info>, pairs: Counter): (r: set<Unpaired>)
    ensures forall u :: u in r ==> u.count == 0 && LexLess(u.player1, u.player2)
  {
    set a, b | a in NamesIn(rows) && b in NamesIn(rows) && LexLess(a, b) && multiset{a, b} !in pairs
                 && !Excluded(FirstInfo(rows, a), FirstInfo(rows, b))
      :: RowOf(FirstInfo(rows, a), FirstInfo(rows, b), |Lookup(pairs, multiset{a, b})|)
  }

  /** Players `a` and `b` are in one group of file `d`. */
  predicate SharedGroup(d: DrawFile, a: Name, b: Name)
  {
    exists j :: 0 <= j < |d.groups| && a in d.groups[j] && b in d.groups[j]
  }

  lemma PairFills(a: Name, b: Name, g: seq<Name>)
    requires a != b
    ensures Fills(multiset{a, b}, g, 2) <==> a in g && b in g
  {
    if a in g && b in g {
      var m := multiset(g);
      assert m[a] >= 1 && m[b] >= 1;
      assert multiset{a, b} <= m;
    }
  }

  lemma PairTogether(d: DrawFile, a: Name, b: Name)
    requires a != b
    ensures Together(d.groups, multiset{a, b}, 2) <==> SharedGroup(d, a, b)
  {
    forall j | 0 <= j < |d.groups| ensures Fills(multiset{a, b}, d.groups[j], 2) <==> a in d.groups[j] && b in d.groups[j] {
      PairFills(a, b, d.groups[j]);
    }
  }

  lemma {:induction false} LabelsWithEmpty(draws: seq<DrawFile>, key: multiset<Name>, k: nat)
    ensures LabelsWith(draws, key, k) == [] <==> forall f :: 0 <= f < |draws| ==> !Together(draws[f].groups, key, k)
  {
    if draws != [] {
      var init := draws[..|draws| - 1];
      LabelsWithEmpty(init, key, k);
      assert forall f :: 0 <= f < |init| ==> init[f] == draws[f];
    }
  }

  /** A non-excluded sorted pair is listed exactly when the two players never shared a
      group in any file counted by `count_pairs`. */
  lemma UnpairedMeaning(draws: seq<DrawFile>, rows: seq<Info>, a: Name, b: Name)
    requires forall f :: 0 <= f < |draws| ==> NoRepeats(draws[f].groups)
    requires a in NamesIn(rows) && b in NamesIn(rows) && LexLess(a, b)
    ensures RowOf(FirstInfo(rows, a), FirstInfo(rows, b), 0) in FindUnpaired(rows, Tally(draws, 2)) <==>
      !Excluded(FirstInfo(rows, a), FirstInfo(rows, b)) && forall f :: 0 <= f < |draws| ==> !SharedGroup(draws[f], a, b)
  {
    var key := multiset{a, b};
    LexOrder(a, b);
    TallyKeys(draws, 2, key);
    TallyLookup(draws, 2, key);
    LabelsWithEmpty(draws, key, 2);
    forall f | 0 <= f < |draws| ensures Together(draws[f].groups, key, 2) <==> SharedGroup(draws[f], a, b) {
      PairTogether(draws[f], a, b);
    }
    var r := FindUnpaired(rows, Tally(draws, 2));
    var u := RowOf(FirstInfo(rows, a), FirstInfo(rows, b), 0);
    if u in r {
      var a', b' :| a' in NamesIn(rows) && b' in NamesIn(rows) && LexLess(a', b') && multiset{a', b'} !in Tally(draws, 2)
        && !Excluded(FirstInfo(rows, a'), FirstInfo(rows, b'))
        && u == RowOf(FirstInfo(rows, a'), FirstInfo(rows, b'), |Lookup(Tally(draws, 2), multiset{a', b'})|);
      assert a' == a && b' == b;
    }
  }
}
