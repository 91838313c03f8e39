# A verified model of the group-draw tools of review_maturaarbeit

The repository draws an U13 badminton tournament: a fixed roster of players goes into 11
groups A–K. Group G has four places and every other group three. The rules:

- the seeds have fixed groups (seed 1 in A, seed 2 in B, the 3/4 seeds in C and D, the
  5/8 seeds in E–H);
- no group holds two players of one club;
- no group holds two seeded players.

Around the optimiser that produces such draws sit a random baseline, a constraint
sampler, and several analysis scripts that read the resulting draws back. This Dafny
project models that core and proves what each piece promises.

| module | file | models |
|---|---|---|
| `Common` | `common.dfy` | counting, flattening, sums, decimal text and `str.strip()` |
| `Bracket` | `bracket.dfy` | group letters and bracket positions; the half and quarter mappings of the optimiser and of the two club checkers |
| `Combos` | `combos.dfy` | `itertools.combinations` |
| `DrawRules` | `draw_rules.dfy` | the roster, the seed placement and `valid_assignment` of the optimiser |
| `Penalty` | `penalty.dfy` | `score` and `debug_score_breakdown` over the history counters |
| `History` | `history_store.dfy` | the history counters as a mutable store: zero-key insertion by `score`, fold-in of a finished draw, and the memory-horizon reset |
| `StartDraw` | `start_draw.dfy` | `random_assignment` |
| `Moves` | `moves.dfy` | `neighbor` |
| `Annealing` | `anneal.dfy` | `simulated_annealing` and `calibrate_temperature` |
| `Baseline` | `baseline.dfy` | `check_valid`, `get_full_slots` and `monte_carlo_random` |
| `SeedAnalysis` | `seed_analysis.dfy` | `sort_key`, `parser_seed`, `seed_allowed_groups` and `expected_distribution` |
| `Mrv` | `mrv.dfy` | the minimum-remaining-values sampler of `monte_carlo_mrv` |
| `DrawStatistics` | `draw_statistics.dfy` | run lengths, the draw display, and the pair, triplet, quadruplet and unpaired counts |
| `ClubDistribution` | `club_distribution.dfy` | the conflict functions and the near-miss loop of the second club checker |
| `ClubCheck` | `club_check.dfy` | `analyse_halften_viertel` and the "at least 2" lists of the first club checker |
| `DrawParser` | `draw_parser.dfy` | seed and file-number extraction, the group-block scanner and the chunked saving of the Excel parser |
| `Anonymization` | `anonymization.dfy` | first-seen relabelling of clubs and players |

Randomness is modelled as explicit inputs. `random.shuffle` becomes a shuffled copy,
and `random.sample`/`random.choice` become index arguments. The
acceptance draws become boolean oracles, and the choices of the MRV sampler are left
open with Dafny's `:|`. Penalty weights (0.05, 0.03, 1/2) are exact `real`s. pandas
`groupby` results are taken as inputs: sequences already split by file and club.

## Model

| member | source | states |
|---|---|---|
| Common.NatToString | parser/anonymization.py:22 | `str(n)` is a non-empty run of decimal digits without a leading zero |
| Common.NatToStringRoundTrip | parser/anonymization.py:22 | reading the decimal text of `n` back gives `n` |
| Common.NatToStringInjective | parser/anonymization.py:22-23 | two numbers with the same decimal text are equal |
| Common.Strip | club_distribution/club_distribution_check.py:10 | `str.strip()`: the result is a slice `s[i..j]` of the input with only whitespace before `i` and after `j`, and it neither starts nor ends with whitespace |
| Common.CountAll | club_distribution/club_distribution_check.py:47 | a value's count equals the length exactly when every entry is that value |
| Bracket.PosToHalf | simulated_annealing/own_algorithm.py:84-85 | 'top' exactly for positions 1–8, 'bottom' for every other position |
| Bracket.PosToQuarter | simulated_annealing/own_algorithm.py:87-92 | Q1, Q2, Q3, Q4 exactly for 1–4, 5–8, 9–12, 13–16; None exactly outside 1–16 |
| Bracket.GetQuarter | club_distribution/club_distribution_check.py:25-30 | no quarter for a missing position, otherwise the quarter of the position; `get_quarter` of the first checker (club_distribution_check.py:28-38) is the same mapping |
| Bracket.GetHalf | club_distribution/club_distribution_check.py:32-35 | 'top' exactly for 1–8, 'bottom' exactly for 9–16, None for a missing position or one outside 1–16; `get_half` of the first checker (club_distribution_check.py:40-46) is the same mapping |
| Bracket.HalfMappingsAgree | simulated_annealing/own_algorithm.py:84-85 | inside 1–16 the checkers' half equals the optimiser's; outside, the optimiser says 'bottom' and the checkers say nothing |
| Bracket.QuartersRefineHalves | simulated_annealing/own_algorithm.py:84-92 | on 1–16, a position is in Q1 or Q2 exactly when it is in the top half |
| Bracket.GroupPositionsInBracket | simulated_annealing/own_algorithm.py:53-69 | 11 groups, every position in 1–16 and so in some quarter, no two groups at one position |
| ClubDistribution.GroupPos | club_distribution/club_distribution_check.py:10-18 | a group name gets the position of letter `g` exactly when, stripped and upper-cased, it is `g`; every other name gets none |
| ClubDistribution.UniquesMembers | club_distribution_check.py:58-59 | `dropna().unique()` holds exactly the present values, each once |
| ClubDistribution.MaxCountIs | club_distribution/club_distribution_check.py:43-47 | `value_counts().max()` bounds every count and, when some value is present, is the count of a present value |
| ClubDistribution.ConflictMeaning | club_distribution/club_distribution_check.py:40-58 | the shared conflict test holds exactly for two or more players, all with a section, all in one section or at least `threshold` in one |
| ClubDistribution.HalfConflict | club_distribution/club_distribution_check.py:40-48 | `half_conflict_func` holds exactly for two or more players, all with a half, all in one half or at least 8 in one half |
| ClubDistribution.QuarterConflict | club_distribution/club_distribution_check.py:50-58 | `quarter_conflict_func`: the same rule with quarters and at least 4 |
| ClubDistribution.NearMisses | club_distribution/club_distribution_check.py:69-97 | the loop's list is the near misses of every club and file, in groupby order |
| ClubDistribution.ColumnMisses | club_distribution/club_distribution_check.py:77-97 | one inner loop lists the near misses over the distinct values of the column |
| ClubDistribution.MissesMeaning | club_distribution/club_distribution_check.py:77-97 | a recorded near miss is a present section with its true count and the club size, where `count/total >= 0.6`, `count < total` and `count < limit`; every such section is recorded |
| ClubDistribution.NearIsMax | club_distribution/club_distribution_check.py:47 | a section with a near miss holds more players than any other section (also line 78) |
| ClubDistribution.NearMissNoConflict | club_distribution/club_distribution_check.py:40-97 | a club with a half (quarter) near miss has no half (quarter) conflict |
| ClubCheck.Analyse | club_distribution_check.py:52-69 | the loop's rows are those of the specification `Analysis` |
| ClubCheck.AnalysisMeaning | club_distribution_check.py:55-68 | a row is emitted exactly for a club and file with more than one player |
| ClubCheck.OnlyOneMeaning | club_distribution_check.py:58-67 | `len(halves) == 1` exactly when some section is present and every player with a section has that one |
| ClubCheck.OnlyOneHalfWhenPresent | club_distribution_check.py:66 | when every player has a half, `Only_one_half` says they all share it |
| ClubCheck.Min2Conflicts | club_distribution_check.py:90-111 | both lists are those of the specification `Min2Rows` |
| ClubCheck.AnyTwoMeaning | club_distribution_check.py:97-98 | `(counts >= 2).any()` exactly when two players share a present section |
| ClubCheck.CountsMeaning | club_distribution_check.py:97-102 | `value_counts().to_dict()` has exactly the present sections as keys, each with its count of at least 1 |
| ClubCheck.Min2Meaning | club_distribution_check.py:93-111 | a row is listed exactly for a club and file with more than one player of which two share a section |
| ClubCheck.HalfConflictHasTwo | club_distribution/club_distribution_check.py:40-48 | every club with a half conflict is also on the "at least 2 in one half" list |
| Combos.AddToEach | simulated_annealing/own_algorithm.py:185 | each combination gains the element in front, one result per combination |
| Combos.CombinationShape | simulated_annealing/own_algorithm.py:185-197 | every combination from `combinations(group, k)` has exactly k members, all drawn from the group |
| Combos.CombinationCount | simulated_annealing/own_algorithm.py:185-197 | `combinations(s, k)` yields C(\|s\|, k) combinations |
| Combos.BinomialAbove | simulated_annealing/own_algorithm.py:195-197 | there are none when k exceeds the group size, so groups of three add no quadruples |
| DrawRules.SeedOf | simulated_annealing/own_algorithm.py:129-138 | the seed text is classified as "1", "2", "3/4", "5/8" or other, each exactly |
| DrawRules.ClubMap | simulated_annealing/own_algorithm.py:80-81 | `dict(zip(Name, Club))` has a key for exactly the names of the roster |
| DrawRules.Names | simulated_annealing/own_algorithm.py:101 | `players` lists the roster's names, one per row, in roster order |
| DrawRules.FixedPlayers | simulated_annealing/own_algorithm.py:141 | a name is a fixed player exactly when some row with that name carries a seed |
| DrawRules.SeededRows | simulated_annealing/own_algorithm.py:103 | a record is in `seeded` exactly when it is a roster row with a seed |
| DrawRules.UnseededNames | simulated_annealing/own_algorithm.py:104 | a name is in `unseeded` exactly when some row with that name has no seed |
| DrawRules.SeededRowsFilter | simulated_annealing/own_algorithm.py:103 | `seeded` is the roster filtered on a non-empty seed: every seeded row once, in roster order, and nothing else |
| DrawRules.UnseededNamesFilter | simulated_annealing/own_algorithm.py:104 | `unseeded` holds the names of the unseeded rows, once per row, in roster order, and nothing else |
| DrawRules.RosterSplit | simulated_annealing/own_algorithm.py:101-104 | the seeded rows' names and the unseeded names are together exactly `players`, counted with repeats |
| DrawRules.FixedAreSeededNames | simulated_annealing/own_algorithm.py:141 | the fixed players are exactly the names of the seeded records |
| DrawRules.SeedNamesOfSeeded | simulated_annealing/own_algorithm.py:109-114 | counting a seed text over the seeded records gives the roster's count |
| DrawRules.SeedNamesFrom | simulated_annealing/own_algorithm.py:128-138 | a name placed for a seed text comes from a row with that seed |
| DrawRules.Prepare | simulated_annealing/own_algorithm.py:101-141 | the set-up fails exactly with the first failing assertion; otherwise it yields `players`, `seeded`, `unseeded` and `fixed_players` of the roster, at most two 3/4 and four 5/8 seeds, the seeded start placed by the seed rules, and every group of that start holds at most one player, a fixed one |
| DrawRules.SeedStartFixed | simulated_annealing/own_algorithm.py:118-141 | with one seed 1 and one seed 2, the seeded start has at most one player per group, each of them fixed |
| DrawRules.PoolCovers34 | simulated_annealing/own_algorithm.py:121-124 | the shuffled [C, D] names both groups |
| DrawRules.PoolCovers58 | simulated_annealing/own_algorithm.py:122-125 | the shuffled [E, F, G, H] names all four groups |
| DrawRules.CheckConfig | simulated_annealing/own_algorithm.py:107-114 | the configuration passes exactly when the group sizes add up to the roster and there are one seed 1, one seed 2, two 3/4 and four 5/8 seeds; the size check fails first |
| DrawRules.Slot | simulated_annealing/own_algorithm.py:136-138 | the k-th popped seed as a one-player group, or an empty group when there is none |
| DrawRules.SeedGroups | simulated_annealing/own_algorithm.py:118-138 | the placement yields 11 groups |
| DrawRules.PlaceSeeds | simulated_annealing/own_algorithm.py:118-138 | the loop's groups are `SeedGroups`: seed 1 in A, seed 2 in B, the first 3/4 seed alone in the last group of the shuffled [C, D] and the second in the other, the 5/8 seeds alone in the shuffled [E, F, G, H] from the end, I–K empty |
| DrawRules.PlaceRow | simulated_annealing/own_algorithm.py:128-138 | one row of the loop keeps the layout and the pools left to pop |
| DrawRules.SeedGroupsLayout | simulated_annealing/own_algorithm.py:121-138 | the specification of the placement puts every seeded row where the layout says |
| DrawRules.PlaceRank | simulated_annealing/own_algorithm.py:131-134 | a seed 1 (seed 2) row goes to the end of A (B) |
| DrawRules.PlaceThreeFour | simulated_annealing/own_algorithm.py:135-136 | a 3/4 row goes alone into the group popped from the shuffled [C, D] |
| DrawRules.PlaceFiveEight | simulated_annealing/own_algorithm.py:137-138 | a 5/8 row goes alone into the group popped from the shuffled [E, F, G, H] |
| DrawRules.PlaceOther | simulated_annealing/own_algorithm.py:128-138 | a row with any other seed text is placed nowhere |
| DrawRules.SeedNamesBound | simulated_annealing/own_algorithm.py:113-114 | a prefix of the seeded rows never has more 3/4 or 5/8 seeds than the whole list, so no pop finds an empty pool |
| DrawRules.GroupScanMeaning | simulated_annealing/own_algorithm.py:159-171 | the scan of one group passes exactly when no club repeats, none was seen before, and at most one fixed player is counted |
| DrawRules.ValidAssignment | simulated_annealing/own_algorithm.py:158-172 | `valid_assignment` holds exactly when the scan of every group, started with no clubs seen and no fixed player counted, passes |
| DrawRules.ValidAssignmentMeaning | simulated_annealing/own_algorithm.py:158-172 | `valid_assignment` holds exactly when no group has two players of one club or more than one fixed player; sizes and seed places are not checked |
| Penalty.Score | simulated_annealing/own_algorithm.py:175-223 | the score of a draw whose players are all known is non-negative |
| Penalty.HalfSumNonNegative | simulated_annealing/own_algorithm.py:195-197 | the halved quadruple counts add up to a non-negative amount |
| Penalty.QuadTermNonNegative | simulated_annealing/own_algorithm.py:387-391 | the quadruple part of the breakdown, halved counts summed over every group, is non-negative |
| Penalty.HistoryTermNonNegative | simulated_annealing/own_algorithm.py:183-197 | the pair, triple and quadruple terms together are non-negative |
| Penalty.Tag | simulated_annealing/own_algorithm.py:204-210 | every player of a group is labelled with its club and the group's section, in order |
| Penalty.DebugBreakdown | simulated_annealing/own_algorithm.py:358-422 | the breakdown's `Total_Penalty` equals the optimiser's `score` of the same draw, is the sum of the six parts, and every part is non-negative |
| Penalty.HistorySplits | simulated_annealing/own_algorithm.py:183-197 | adding pairs, triples and quadruples group by group (as `score` does) equals adding each kind over all groups (as the breakdown does) (also lines 376-392) |
| Penalty.DistinctShape | simulated_annealing/own_algorithm.py:215-219 | the keys of a Counter are exactly the labels that occur, each once |
| Penalty.ExcessIsSurplus | simulated_annealing/own_algorithm.py:212-219 | `sum(max(0, c - 1))` over a Counter is the number of players minus the number of distinct (club, section) labels |
| Penalty.DistinctFull | simulated_annealing/own_algorithm.py:212-219 | a label list has as many distinct labels as entries exactly when no label repeats |
| Penalty.ExcessZeroIff | simulated_annealing/own_algorithm.py:212-221 | the club term is zero exactly when no club has two players in one half (quarter) |
| Penalty.KeySumsAgree | simulated_annealing/own_algorithm.py:187-197 | sums over keys depend only on the counts read, not on which zero keys are stored |
| Penalty.HistoryTermAgrees | simulated_annealing/own_algorithm.py:183-197 | counters that agree on every lookup give the same history term |
| Penalty.ScoreAgrees | simulated_annealing/own_algorithm.py:187 | inserting zero-valued keys, as the defaultdict lookups do, never changes a later score (also lines 192, 197) |
| History.AddAllCounts | simulated_annealing/own_algorithm.py:569-575 | after `counter[key] += 1` for every key of a list, each key has gained exactly its number of occurrences |
| History.WithZeros | simulated_annealing/own_algorithm.py:187 | reading a defaultdict adds the missing keys, and every lookup returns what it did before (also lines 192, 197) |
| History.ZeroFillKeepsCounts | simulated_annealing/own_algorithm.py:187 | after `score` has read the counters, every count is unchanged and so is every later score (also lines 192, 197) |
| History.ZeroVisits | simulated_annealing/own_algorithm.py:145 | the fresh visit table has a row of 11 zeros for exactly the roster's players (also line 556) |
| History.AddGroupVisits | simulated_annealing/own_algorithm.py:567-568 | the visit update of one group keeps the players and the row lengths |
| History.AddGroupVisitsCounts | simulated_annealing/own_algorithm.py:566-568 | after one group, `history[p][h]` has grown by p's occurrences in the group when h is that group, and not otherwise |
| History.AddVisitsCounts | simulated_annealing/own_algorithm.py:566-568 | after a run, `history[p][h]` has grown by the number of times p sits in group h |
| History.ResetCycle | simulated_annealing/own_algorithm.py:551-562 | with horizon h > 0 the queue holds k mod (h+1) runs after k runs, and run k wipes the history exactly when k is a multiple of h+1, the runs at which the breakdown is printed (also line 579) |
| History.Store.constructor | simulated_annealing/own_algorithm.py:145-150 | fresh history: zero visit table, empty counters, empty queue |
| History.Store.Reset | simulated_annealing/own_algorithm.py:556-559 | the complete restart zeroes the visits and clears the three counters |
| History.Store.Score | simulated_annealing/own_algorithm.py:175-223 | returns `score` of the stored counters; the counters afterwards only hold the added zero keys |
| History.Store.FoldIn | simulated_annealing/own_algorithm.py:627-636 | the full-history fold-in: each player/group entry and each sorted pair, triple and quadruple key of the run gains 1 per occurrence |
| History.Store.Record | simulated_annealing/own_algorithm.py:551-575 | horizon 0 changes nothing; otherwise the run joins the queue, and a run that makes the queue longer than the horizon wipes history and queue without being folded in; any other run is folded in |
| History.FoldStep | simulated_annealing/own_algorithm.py:566-575 | folding in one more group extends the visits and keys of the groups before it |
| History.FoldRun | simulated_annealing/own_algorithm.py:566-575 | the group loop folds in the run's visits and its pair, triple and quadruple keys |
| History.FoldGroup | simulated_annealing/own_algorithm.py:566-575 | one iteration of the group loop keeps the fold-in state |
| History.VisitGroup | simulated_annealing/own_algorithm.py:567-568 | the inner loop performs the visit update of one group |
| History.AddKeys | simulated_annealing/own_algorithm.py:569-575 | the key loop bumps every key of its list |
| History.AddAllAppend | simulated_annealing/own_algorithm.py:569-575 | bumping two key lists one after the other is bumping their concatenation |
| StartDraw.Slice | simulated_annealing/own_algorithm.py:236 | the slice `shuffled[index:index+free_slots]` has at most the asked length and is the exact slice when the list is long enough |
| StartDraw.Filled | simulated_annealing/own_algorithm.py:233-237 | the dealt draw has one group per seeded group |
| StartDraw.FillGroups | simulated_annealing/own_algorithm.py:233-237 | the dealing loop computes the dealt draw, group by group with a running index |
| StartDraw.FreeBeforeGrows | simulated_annealing/own_algorithm.py:235-237 | the dealing index never decreases |
| StartDraw.FilledSizes | simulated_annealing/own_algorithm.py:233-237 | when the free places add up to the number of unseeded players, every group is filled to its size |
| StartDraw.FilledGroup | simulated_annealing/own_algorithm.py:235-237 | group i is its seeded players followed by its own stretch of the shuffled list |
| StartDraw.FilledPrefixPlayers | simulated_annealing/own_algorithm.py:233-237 | the first n dealt groups hold the seeded players of those groups plus the first players of the shuffled list |
| StartDraw.FilledSnoc | simulated_annealing/own_algorithm.py:235-237 | one more dealt group adds its seeded players and its share of the deal |
| StartDraw.FilledExact | simulated_annealing/own_algorithm.py:226-241 | every group gets exactly its size, and every seeded and every unseeded player appears in the start draw exactly as often as before |
| StartDraw.FilledPlaced | simulated_annealing/own_algorithm.py:233-237 | every player of the dealt draw has a club |
| StartDraw.RandomAssignment | simulated_annealing/own_algorithm.py:226-241 | returns the first dealt draw that passes `valid_assignment`, trying the shuffles in order, and None (the RuntimeError) when none does |
| StartDraw.FirstValid | simulated_annealing/own_algorithm.py:239-241 | a start that is found has a club for every player and passes `valid_assignment` |
| StartDraw.FirstValidMeaning | simulated_annealing/own_algorithm.py:226-241 | a found start is valid and is the draw dealt from some try t, every earlier try dealt an invalid draw; none is found exactly when every try deals an invalid draw |
| StartDraw.FirstValidFound | simulated_annealing/own_algorithm.py:226-241 | a found start is valid and is the draw dealt from some try t, and every try before t dealt an invalid draw |
| StartDraw.FirstValidNone | simulated_annealing/own_algorithm.py:239-241 | no start is found exactly when every try deals an invalid draw |
| StartDraw.RosterStartFits | simulated_annealing/own_algorithm.py:119-139 | the seeded start that the set-up builds has 11 groups, none holding more players than `group_sizes` allows |
| StartDraw.RosterStartFree | simulated_annealing/own_algorithm.py:107-139 | the free places of the seeded start plus its seeded players are the roster's length, and the start holds exactly the rows of seed 1, 2, 3/4 and 5/8 |
| StartDraw.RosterStartCounts | simulated_annealing/own_algorithm.py:101-139 | with only seeds 1, 2, 3/4 and 5/8, the free places are exactly the unseeded players and the start plus them is the roster; with any other seed text there are more free places than unseeded players |
| StartDraw.SeedGroupsPlayers | simulated_annealing/own_algorithm.py:129-139 | the seed loop places every row of seed 1, 2, 3/4 and 5/8 once and no one else |
| StartDraw.SeedGroupsSnoc | simulated_annealing/own_algorithm.py:129-139 | one more seeded row appends its name to one group when its seed is 1, 2, 3/4 or 5/8, and changes nothing otherwise |
| StartDraw.RankedRowsNames | simulated_annealing/own_algorithm.py:129-139 | rows that all carry seed 1, 2, 3/4 or 5/8 are placed once each; a row with another seed text is placed by no branch, so fewer are placed than there are rows |
| StartDraw.FreeBeforeCount | simulated_annealing/own_algorithm.py:233-237 | the running index before group n plus the players already in the first n groups is the sum of their sizes |
| StartDraw.FilledCount | simulated_annealing/own_algorithm.py:233-237 | the first n dealt groups hold their seeded players plus as many dealt players as the free places ask for, or the whole shuffled list when it is shorter |
| StartDraw.FirstValidFromRoster | simulated_annealing/own_algorithm.py:101-241 | on the set-up's outputs with only seeds 1, 2, 3/4 and 5/8, every try can be dealt, and a found start puts exactly `group_sizes[i]` players into group i, holds every roster player exactly as often as the roster does, and is valid |
| StartDraw.OtherSeedLeavesGap | simulated_annealing/own_algorithm.py:129-139 | a seeded row with another seed text (such as "9/16") passes the set-up's asserts but is placed nowhere, so every dealt start leaves group K short and holds fewer players than the roster |
| Moves.Movable | simulated_annealing/own_algorithm.py:252-253 | the candidate indices are exactly the places of players that are not fixed, in increasing order |
| Moves.Swap | simulated_annealing/own_algorithm.py:261 | the exchange writes each player into the other's place and changes no other group |
| Moves.FirstExchange | simulated_annealing/own_algorithm.py:247-262 | the picked exchange is between two different groups, at existing places, and moves only players that are not fixed |
| Moves.Neighbor | simulated_annealing/own_algorithm.py:244-264 | computes the draw after the first exchange that an attempt finds, or the draw itself |
| Moves.NoExchangeIffAllFail | simulated_annealing/own_algorithm.py:249-256 | the draw is returned unchanged exactly when every attempt meets an empty group or a group of fixed players only (also line 264) |
| Moves.FlattenUpdate | simulated_annealing/own_algorithm.py:261 | replacing one group changes the draw's players by exactly that group |
| Moves.SwapKeepsPlayers | simulated_annealing/own_algorithm.py:261 | an exchange keeps the players of the whole draw |
| Moves.SwapKeepsShape | simulated_annealing/own_algorithm.py:261 | a legal exchange keeps the group sizes and the fixed players, and places only players of the draw |
| Moves.NeighborOf | simulated_annealing/own_algorithm.py:244-264 | the neighbour has the 11 groups and exactly the players of the draw, each as often as before |
| Moves.NeighborKeeps | simulated_annealing/own_algorithm.py:244-264 | the neighbour keeps every group's size and every fixed player's place, and a draw whose players all have a club and a history keeps that |
| Annealing.CoolingBounds | simulated_annealing/own_algorithm.py:306 | from a start at or above T_end and a rate in [0, 1], the temperature never rises and stays within [T_end, T_start] |
| Annealing.ScaleDown | simulated_annealing/own_algorithm.py:306 | `T * cooling_rate` stays between 0 and T |
| Annealing.CoolingFloor | simulated_annealing/own_algorithm.py:306 | after at least one iteration the temperature is at least T_end, whatever the start |
| Annealing.AnnealStep | simulated_annealing/own_algorithm.py:285-306 | one iteration leaves a valid draw of 11 groups whose players all have a club and a history, and cools T to `max(T_end, T * cooling_rate)` whether or not the neighbour was valid |
| Annealing.AnnealRun | simulated_annealing/own_algorithm.py:284-306 | the iterations in order end on a draw of 11 groups |
| Annealing.CoolAfterShift | simulated_annealing/own_algorithm.py:306 | cooling once and then k times is cooling k + 1 times |
| Annealing.AnnealRunCools | simulated_annealing/own_algorithm.py:270-306 | after the iterations, the search's temperature is T_start cooled once per iteration, valid neighbour or not |
| Annealing.AnnealRunBounds | simulated_annealing/own_algorithm.py:270-306 | with T_end <= T_start and a rate in [0, 1], the search's temperature stays within [T_end, T_start] |
| Annealing.AnnealRunTracks | simulated_annealing/own_algorithm.py:284-308 | the search ends on a valid draw, and the remembered score is that draw's score |
| Annealing.AcceptanceRule | simulated_annealing/own_algorithm.py:285-292 | a valid neighbour with a lower score is always taken; one that does not improve is taken exactly when the acceptance draw says so; an invalid neighbour is never taken |
| Annealing.AnnealKeepsSeeds | simulated_annealing/own_algorithm.py:284-306 | throughout the search every group keeps its size, every seeded player stays in its place, and the draw keeps exactly its players |
| Annealing.Anneal | simulated_annealing/own_algorithm.py:268-308 | the search from a start draw at T_start returns the draw and score where the iterations end, and leaves the history counts unchanged |
| Annealing.AnnealLoop | simulated_annealing/own_algorithm.py:270-306 | the loop computes the iterations in order: its draw, score and temperature are those of the specification |
| Annealing.ReadScore | simulated_annealing/own_algorithm.py:175-223 | reading a score through the history returns the score under the counts it holds, which stay the same |
| Annealing.Iterate | simulated_annealing/own_algorithm.py:285-306 | one pass of the loop performs one iteration, cooling included |
| Annealing.SimulatedAnnealing | simulated_annealing/own_algorithm.py:268-308 | no result exactly when no start draw is found; otherwise the draw and score where the iterations from the first valid start, at T_start, end |
| Annealing.Moved | simulated_annealing/own_algorithm.py:327-333 | a positive difference is recorded and no other; the walk moves on an improvement or on heads |
| Annealing.ProbeStep | simulated_annealing/own_algorithm.py:321-333 | one calibration attempt leaves a valid draw |
| Annealing.MovedRecords | simulated_annealing/own_algorithm.py:327-330 | a valid attempt records at most one difference, and only a positive one |
| Annealing.ProbeStepRecords | simulated_annealing/own_algorithm.py:321-330 | any attempt records at most one difference, and only a positive one |
| Annealing.Walked | simulated_annealing/own_algorithm.py:320-333 | the walk after the given attempts is on a valid draw |
| Annealing.WalkedRecords | simulated_annealing/own_algorithm.py:320-333 | the walk keeps what it recorded, records only positive differences, and at most one per attempt |
| Annealing.StopsAtBound | simulated_annealing/own_algorithm.py:320 | when the loop stops it holds at most `samples` differences, all positive |
| Annealing.StopsAtUnique | simulated_annealing/own_algorithm.py:320 | the loop stops at exactly one point |
| Annealing.Suggest | simulated_annealing/own_algorithm.py:334-353 | with no differences the current settings stay; a suggested cooling rate is at least 0.985 |
| Annealing.SuggestSucceeds | simulated_annealing/own_algorithm.py:338-346 | with a positive median, a positive logarithm and at least one iteration, the suggestion has a positive start temperature |
| Annealing.ProbeOnce | simulated_annealing/own_algorithm.py:321-333 | one attempt through the history performs the calibration step and keeps the walk's score current |
| Annealing.Weigh | simulated_annealing/own_algorithm.py:327-333 | the end of a valid attempt records and moves as `Moved` says |
| Annealing.Calibrate | simulated_annealing/own_algorithm.py:314-353 | the attempts made stop where the loop's guard says, and the result is the suggestion from the differences they recorded |
| Annealing.CalibrationLoop | simulated_annealing/own_algorithm.py:320-333 | the loop stops where its guard says, with the differences of the attempts it made |
| Annealing.SamplingStops | simulated_annealing/own_algorithm.py:320 | a failing guard means the loop has stopped at the point `StopsAt` names |
| Annealing.Attempt | simulated_annealing/own_algorithm.py:321-333 | one attempt that the guard allows keeps the loop's state |
| Baseline.FullSlots | baseline/baseline_random_sampling.py:40-43 | the capacities have exactly the listed groups and G, three places each and four for G, with every key once in the order |
| Baseline.SlotOrderShape | baseline/baseline_random_sampling.py:41-42 | the key order lists every listed group and G exactly once |
| Baseline.FullSlotsTotal | baseline/baseline_random_sampling.py:40-43 | the total capacity is three per group plus one (also line 52) |
| Baseline.TotalOneG | baseline/baseline_random_sampling.py:41-42 | capacities of three and one four for G sum to three per group plus one (also line 52) |
| Baseline.TotalNoG | baseline/baseline_random_sampling.py:41 | capacities of three sum to three per group (also line 52) |
| Baseline.SlotList | baseline/baseline_random_sampling.py:75-77 | the loop builds the slot list group by group in key order |
| Baseline.SlotListCounts | baseline/baseline_random_sampling.py:75-77 | the slot list holds exactly `size[g]` copies of each group g and nothing else |
| Baseline.SlotListLength | baseline/baseline_random_sampling.py:75-77 | the slot list has as many entries as the total capacity |
| Baseline.CheckValid | baseline/baseline_random_sampling.py:12-37 | accepts exactly the draws whose seeds are in their allowed groups, with no group over its capacity and no two players of one club in one group |
| Baseline.SeedPass | baseline/baseline_random_sampling.py:14-20 | the seed pass accepts exactly when every seed sits in its allowed groups |
| Baseline.CountPass | baseline/baseline_random_sampling.py:23-37 | after a passed seed pass, the counting pass accepts exactly the admissible draws |
| Baseline.CountEntry | baseline/baseline_random_sampling.py:25-35 | an early `return False` happens only for a draw that is not admissible; otherwise the counts and club sets of the entries so far are kept |
| Baseline.ClubSeen | baseline/baseline_random_sampling.py:33-34 | a club already in the entry's group belongs to an earlier entry of that group |
| Baseline.CountingStep | baseline/baseline_random_sampling.py:26-35 | counting the entry and adding its club keeps the counting state |
| Baseline.GroupCountSnoc | baseline/baseline_random_sampling.py:26 | one more entry raises only its own group's count, by one |
| Baseline.ClubSetSnoc | baseline/baseline_random_sampling.py:30-35 | one more entry adds its club to its own group's club set only |
| Baseline.GroupCountPrefix | baseline/baseline_random_sampling.py:26-28 | the counts only grow along the draw, so an over-full prefix means an over-full draw |
| Baseline.Players | baseline/baseline_random_sampling.py:85 | the players of a draw, one per entry, in its order |
| Baseline.Deal | baseline/baseline_random_sampling.py:81 | the i-th player gets the i-th slot |
| Baseline.FullList | baseline/baseline_random_sampling.py:48 | the slot list has one entry per place, each a group with a capacity (also lines 75-77) |
| Baseline.SlotListMember | baseline/baseline_random_sampling.py:75-77 | every slot is a group with a capacity |
| Baseline.DrawOf | baseline/baseline_random_sampling.py:79-81 | the draw of an attempt pairs each player of the shuffled list with the slot at its index in the shuffled slot list; its players are the player list's, each as often as there, and every slot dealt is one of the list |
| Baseline.RosterReordered | baseline/baseline_random_sampling.py:79 | a shuffled roster is still a roster: every player keeps a seed entry and a club |
| Baseline.KnownDraw | baseline/baseline_random_sampling.py:79-81 | every key `check_valid` looks up in a dealt draw is present |
| Baseline.AttemptDraw | baseline/baseline_random_sampling.py:72-87 | an attempt keeps the player list a reordering of itself, keeps the roster and adds at most one draw |
| Baseline.Sampled | baseline/baseline_random_sampling.py:71-87 | the attempts add at most one draw each, keep the player list a reordering of the roster and keep the roster |
| Baseline.After | baseline/baseline_random_sampling.py:71-87 | no attempts change nothing |
| Baseline.AfterStep | baseline/baseline_random_sampling.py:71-87 | each further attempt is one more attempt step and adds at most one draw |
| Baseline.NumberedRows | baseline/baseline_random_sampling.py:85-86 | an accepted draw gives one row per player, with its group and the draw's number |
| Baseline.RowsOfNumbered | baseline/baseline_random_sampling.py:85-87 | the rows carry simulation numbers below the number of accepted draws, never decreasing along the list |
| Baseline.MonteCarloRandom | baseline/baseline_random_sampling.py:47-109 | the ValueError exactly when the places are fewer than the players; otherwise the loop stops at `n_sim` accepted draws or when the attempts run out, with the rows of the accepted draws |
| Baseline.SampleLoop | baseline/baseline_random_sampling.py:71-87 | the loop stops at `n_sim` accepted draws or when the attempts run out, with the rows of the draws accepted by then |
| Baseline.DrawingFinishes | baseline/baseline_random_sampling.py:71 | a failing loop guard gives the loop's promised result |
| Baseline.AttemptAfter | baseline/baseline_random_sampling.py:79-87 | after one attempt the shuffled players are the order, and the dealt draw (all keys known) is kept, with its rows numbered by the count so far, exactly when `check_valid` accepts it |
| Baseline.Attempt | baseline/baseline_random_sampling.py:72-87 | one pass of the loop keeps the loop state and accepts at most one draw |
| Baseline.SampledDrawsAccepted | baseline/baseline_random_sampling.py:79-86 | every kept draw has exactly the roster's players, each once per occurrence in `seed_map`'s keys, and passes `check_valid` |
| Baseline.AllAcceptedSnoc | baseline/baseline_random_sampling.py:84-87 | appending an accepted draw with the roster's players keeps every kept draw so |
| SeedAnalysis.RunLength | statistical_analysis/statistical_analysis.py:26 | a leading run is never longer than the string |
| SeedAnalysis.RunLengthRun | statistical_analysis/statistical_analysis.py:26 | the run `([0-9]+)` matches is maximal: every character in it has the kind and the next one does not |
| SeedAnalysis.AfterRun | statistical_analysis/statistical_analysis.py:26 | the rest after a digit run is shorter than the string |
| SeedAnalysis.PiecesJoin | statistical_analysis/statistical_analysis.py:26 | the text block, the digit run and the rest give back the string |
| SeedAnalysis.PiecesShape | statistical_analysis/statistical_analysis.py:26 | the text block has no digit, the digit run is a non-empty run of digits, and the rest starts with a non-digit |
| SeedAnalysis.Split | statistical_analysis/statistical_analysis.py:26 | the pieces of `re.split('([0-9]+)', s)` joined give back `s` |
| SeedAnalysis.SplitShape | statistical_analysis/statistical_analysis.py:26 | the pieces alternate text blocks without digits and non-empty digit runs, starting and ending with a text block, of which only the first and last may be empty |
| SeedAnalysis.SplitHead | statistical_analysis/statistical_analysis.py:26 | a string starting with a non-digit splits into a non-empty first text block |
| SeedAnalysis.AlternatesCons | statistical_analysis/statistical_analysis.py:26 | a text block and a digit run in front of an alternating split keep it alternating |
| SeedAnalysis.Lower | statistical_analysis/statistical_analysis.py:26 | `lower()` maps every ASCII capital to its small letter and keeps every other character |
| SeedAnalysis.SortKey | statistical_analysis/statistical_analysis.py:24-26 | the sort key has one part per block of the split |
| SeedAnalysis.SortKeyAlternates | statistical_analysis/statistical_analysis.py:24-28 | numbers and texts alternate in every key, text first, so keys never compare a number with a text; the numbers are the values of the digit runs and the texts the lower-cased text blocks |
| SeedAnalysis.ParseInt | statistical_analysis/statistical_analysis.py:82-85 | `int(s)` succeeds exactly on an optional sign followed by digits in groups joined by single underscores; a minus negates the value of the digits read without underscores, otherwise the value is non-negative |
| SeedAnalysis.ParseIntUnderscores | statistical_analysis/statistical_analysis.py:83 | `int("1_0") == 10`: an underscore between digits is skipped |
| SeedAnalysis.ParseIntBadUnderscores | statistical_analysis/statistical_analysis.py:83-85 | doubled, leading and trailing underscores make `int` fail, so the seed is None |
| SeedAnalysis.ParseSignedGroups | statistical_analysis/statistical_analysis.py:83 | a `-` before digit groups gives the negated value, a `+` the value itself |
| SeedAnalysis.ParserSeed | statistical_analysis/statistical_analysis.py:74-85 | an empty cell is None; "3/4" and "5/8" after stripping are kept; an integer text parses to its integer; everything else is None |
| SeedAnalysis.StripClean | statistical_analysis/statistical_analysis.py:77 | a string with no space at either end is its own `strip()` |
| SeedAnalysis.ParseIntString | statistical_analysis/statistical_analysis.py:83 | `int(str(n)) == n` for every integer |
| SeedAnalysis.ParseNegative | statistical_analysis/statistical_analysis.py:83 | a minus sign and a digit run read back as the negative number |
| SeedAnalysis.ParserSeedInt | statistical_analysis/statistical_analysis.py:74-85 | an integer seed cell reads back as that integer |
| SeedAnalysis.SeedAllowedGroups | statistical_analysis/statistical_analysis.py:120-129 | seed 1 only in A, 2 only in B, 3/4 in C or D, 5/8 in E to H, any other value in every group |
| SeedAnalysis.Spread | statistical_analysis/statistical_analysis.py:89-96 | the share on each listed group and zero on the others |
| SeedAnalysis.PUnseeded | statistical_analysis/statistical_analysis.py:70-71 | one probability per group |
| SeedAnalysis.Shares | statistical_analysis/statistical_analysis.py:71 | one share per group |
| SeedAnalysis.PUnseededSum | statistical_analysis/statistical_analysis.py:70-71 | the unseeded probabilities sum to one whenever there is a free place |
| SeedAnalysis.SumShares | statistical_analysis/statistical_analysis.py:71 | the shares sum to the free places divided by the total |
| SeedAnalysis.SpreadSum | statistical_analysis/statistical_analysis.py:89-96 | a spread sums to the share times the number of listed groups present |
| SeedAnalysis.CountInDistinct | statistical_analysis/statistical_analysis.py:93-96 | each listed group occurs once among distinct groups that hold them all |
| SeedAnalysis.CountInSame | statistical_analysis/statistical_analysis.py:93-96 | a listed group that is not among the groups does not count |
| SeedAnalysis.Scale | statistical_analysis/statistical_analysis.py:97 | `total * p_unseeded` multiplies every entry |
| SeedAnalysis.SumScaled | statistical_analysis/statistical_analysis.py:97 | the scaled probabilities sum to the total times their sum |
| SeedAnalysis.ExpectedDistributionSum | statistical_analysis/statistical_analysis.py:88-97 | a player's expected counts sum to `total` whenever the groups are distinct and include every group the seed allows, and the unseeded probabilities sum to one |
| SeedAnalysis.ExpectedDistribution | statistical_analysis/statistical_analysis.py:88-97 | one expected count per group: seed 1 puts `total` on A and 0 elsewhere, seed 2 on B, a 3/4 seed `total/2` on C and on D, a 5/8 seed `total/4` on each of E–H, and an unseeded player `total * p_unseeded[i]` on group i |
| SeedAnalysis.UnrankedSum | statistical_analysis/statistical_analysis.py:97 | an unranked player's expected counts sum to the total times the probabilities' sum |
| SeedAnalysis.RankedSum | statistical_analysis/statistical_analysis.py:89-96 | a ranked player's expected counts sum to the total |
| SeedAnalysis.SpreadTotal | statistical_analysis/statistical_analysis.py:93-96 | a share on distinct present groups sums to the share times their number |
| Mrv.AllowedInGroups | statistical_analysis/statistical_analysis.py:134-139 | every group a seed allows is one of the table's groups |
| Mrv.Start | statistical_analysis/statistical_analysis.py:148-150 | the start board has the free places, one seed place per group and no clubs (also lines 164-166) |
| Mrv.OpenInMembers | statistical_analysis/statistical_analysis.py:176-178 | the filtered list holds exactly the listed groups with room of the player's kind and none of its club |
| Mrv.DomainMembers | statistical_analysis/statistical_analysis.py:174-178 | `cur_dom` holds exactly the groups the seed allows that have room of the player's kind and none of its club (also lines 192-196) |
| Mrv.RoomInMembers | statistical_analysis/statistical_analysis.py:235 | the fallback's filter keeps exactly the listed groups with room of the player's kind |
| Mrv.SoftDomainMembers | statistical_analysis/statistical_analysis.py:234-235 | the fallback's `allowed` holds exactly the groups the seed allows with room of the player's kind, clubs ignored |
| Mrv.Apply | statistical_analysis/statistical_analysis.py:213-218 | a placement keeps the board's groups |
| Mrv.BoardOf | statistical_analysis/statistical_analysis.py:164-166 | the board after the placements has every group of the table (also lines 213-218) |
| Mrv.NamesOfEntries | statistical_analysis/statistical_analysis.py:213 | the placed names are exactly the names of the entries (also line 219) |
| Mrv.ScanPlayer | statistical_analysis/statistical_analysis.py:183-187 | a smaller domain restarts the candidate list, an equal one joins it, so the candidates stay the players seen with the smallest domain |
| Mrv.SelectPlayer | statistical_analysis/statistical_analysis.py:170-190 | a player with an empty domain stops the scan as the only candidate; otherwise the candidates are exactly the remaining players of smallest domain |
| Mrv.Extend | statistical_analysis/statistical_analysis.py:213-218 | appending a placement moves the board one placement further |
| Mrv.MrvExtend | statistical_analysis/statistical_analysis.py:191-219 | a player of smallest domain placed in its domain extends an MRV run |
| Mrv.RestartStep | statistical_analysis/statistical_analysis.py:170-219 | one pass keeps the restart state; a failure names a remaining player with an empty domain; a placement shrinks the remaining players |
| Mrv.PlaceStep | statistical_analysis/statistical_analysis.py:191-219 | placing a remaining player of smallest domain in its domain keeps the restart state |
| Mrv.Restart | statistical_analysis/statistical_analysis.py:163-224 | every placement is an MRV step and no player is placed twice; success places every player once; failure leaves a player with an empty domain |
| Mrv.RestartEnd | statistical_analysis/statistical_analysis.py:170 | an empty remaining set means every player is placed once (also line 220) |
| Mrv.CompleteRun | statistical_analysis/statistical_analysis.py:220 | a draw of distinct players holding every player has one entry per player |
| Mrv.DistinctCard | statistical_analysis/statistical_analysis.py:220 | a draw with distinct players has as many names as entries |
| Mrv.PlayersCard | statistical_analysis/statistical_analysis.py:142 | a list of distinct names has as many members as entries (also line 220) |
| Mrv.BoardCounts | statistical_analysis/statistical_analysis.py:213-218 | the board after a draw is the start board less the draw's placements: seed places, free places and clubs |
| Mrv.FitsCapacity | statistical_analysis/statistical_analysis.py:176-178 | every group of a legal draw holds at most one seeded player and at most its free places of unseeded players (also lines 213-217) |
| Mrv.ClubsInHas | statistical_analysis/statistical_analysis.py:218 | a placed player's club is among its group's clubs |
| Mrv.FitsClubs | statistical_analysis/statistical_analysis.py:176-178 | under the club rule no group of a legal draw holds two players of one club (also line 218) |
| Mrv.ClubsApartSnoc | statistical_analysis/statistical_analysis.py:176-178 | a player whose club is not yet in its group keeps the clubs apart (also line 218) |
| Mrv.MrvFits | statistical_analysis/statistical_analysis.py:170-219 | every MRV step is legal under the club rule |
| Mrv.FitsLoose | statistical_analysis/statistical_analysis.py:235 | a draw legal under the club rule is legal without it |
| Mrv.TotalWeightPositive | statistical_analysis/statistical_analysis.py:200-201 | weights of groups with room sum to a positive number |
| Mrv.WeightsPositive | statistical_analysis/statistical_analysis.py:200-204 | the weighted choice never meets `s_tot == 0`: every group of a non-empty domain has a free place |
| Mrv.WithPriority | statistical_analysis/statistical_analysis.py:144-145 | a priority bucket lists known players |
| Mrv.SeededOf | statistical_analysis/statistical_analysis.py:144 | the seeded players are known players |
| Mrv.UnseededOf | statistical_analysis/statistical_analysis.py:151 | the unseeded players are known players |
| Mrv.WithPriorityMembers | statistical_analysis/statistical_analysis.py:143-145 | the players of a bucket are seeded and have that priority |
| Mrv.AppendBucket | statistical_analysis/statistical_analysis.py:144-145 | appending a bucket of a higher priority keeps the list sorted |
| Mrv.SeededByPrioritySorted | statistical_analysis/statistical_analysis.py:143-145 | `seeded_players` lists the seeded players in non-decreasing priority |
| Mrv.BucketsPartition | statistical_analysis/statistical_analysis.py:143-145 | the priority buckets together hold exactly the seeded players |
| Mrv.SeededByPriorityPermutes | statistical_analysis/statistical_analysis.py:144-145 | `seeded_players` is a reordering of the seeded players |
| Mrv.SplitSeeded | statistical_analysis/statistical_analysis.py:144 | splitting the players into seeded and unseeded loses and adds no one (also line 151) |
| Mrv.FallbackOrder | statistical_analysis/statistical_analysis.py:233 | `seeded_players + unseeded_players` lists every player exactly once |
| Mrv.SoftShrinks | statistical_analysis/statistical_analysis.py:235-243 | a placement never opens a place, so a player without an allowed group with room still has none |
| Mrv.FitsExtend | statistical_analysis/statistical_analysis.py:213-218 | a legal placement extends a legal draw |
| Mrv.FallbackStep | statistical_analysis/statistical_analysis.py:234-244 | one fallback player is skipped when no allowed group has room and placed otherwise, keeping the fallback state |
| Mrv.FallPlace | statistical_analysis/statistical_analysis.py:238-244 | placing the player in a group of its fallback domain keeps the fallback state |
| Mrv.LeftOutKept | statistical_analysis/statistical_analysis.py:236-243 | players left out stay without room after later placements |
| Mrv.Fallback | statistical_analysis/statistical_analysis.py:230-244 | the fallback draw is legal without the club rule, of distinct players from the order, and leaves out only players with no allowed group with room |
| Mrv.FallDone | statistical_analysis/statistical_analysis.py:233-244 | after the last player the fallback has placed only players of the order and left out only players without room |
| Mrv.Simulation | statistical_analysis/statistical_analysis.py:147-244 | one simulation yields distinct players, and either a complete MRV draw or a fallback draw that leaves out only players with no room |
| Mrv.MonteCarloMrv | statistical_analysis/statistical_analysis.py:132-245 | one draw per simulation, each a simulation's draw, and the rows are the draws numbered by simulation |
| Mrv.FitsAllowed | statistical_analysis/statistical_analysis.py:176-178 | every player of a legal draw sits in a group its seed allows (also line 235) |
| Mrv.SimDrawSound | statistical_analysis/statistical_analysis.py:147-244 | every simulation's draw puts each player in an allowed group, at most one seeded player and at most the free places of unseeded players per group; an MRV draw also keeps clubs apart |
| DrawStatistics.Insert | statistics/draw_statistics.py:12 | adding a value to the set gives the old values and the new one |
| DrawStatistics.InsertIncreasing | statistics/draw_statistics.py:12 | insertion keeps the list ascending and free of repeats |
| DrawStatistics.SortedValues | statistics/draw_statistics.py:12 | `sorted(set(...))` of the present values is ascending and holds exactly the non-NaN values (also line 25) |
| DrawStatistics.IncreasingUnique | statistics/draw_statistics.py:12 | an ascending list without repeats is determined by its elements (also line 25) |
| DrawStatistics.LongestRun | statistics/draw_statistics.py:10-22 | 0 exactly when no value is present; otherwise the length of a run of consecutive integers among the sorted values, and no such run is longer |
| DrawStatistics.LongestRunIn | statistics/draw_statistics.py:13-22 | the loop finds the length of a longest window of consecutive integers |
| DrawStatistics.Extend | statistics/draw_statistics.py:17-18 | the next value one above the last extends the run |
| DrawStatistics.RunsBounded | statistics/draw_statistics.py:16-21 | once the run ending at i is maximal, no window ending there is longer than the best so far |
| DrawStatistics.DrawEntry | statistics/draw_statistics.py:26 | every entry starts with "Draw_" |
| DrawStatistics.Entries | statistics/draw_statistics.py:26 | one "Draw_n" entry per value, in order |
| DrawStatistics.FormatDrawDisplay | statistics/draw_statistics.py:24-26 | the display is empty exactly when no value is present |
| DrawStatistics.CommaAt | statistics/draw_statistics.py:26 | the position found is the first comma, or the end |
| DrawStatistics.SplitJoin | statistics/draw_statistics.py:26 | splitting a ", "-joined list of comma-free parts gives the parts back |
| DrawStatistics.EntryRoundTrip | statistics/draw_statistics.py:26 | a "Draw_n" entry has no comma and reads back as n |
| DrawStatistics.DisplayRoundTrip | statistics/draw_statistics.py:24-26 | the display reads back as the ascending distinct values it was made from |
| DrawStatistics.Prepend | statistics/draw_statistics.py:46 | putting a name in front of every combination (also lines 95, 111) |
| DrawStatistics.CountTuples | statistics/draw_statistics.py:37-50 | the counter of `count_pairs`, `count_triplets` and `count_quadruplets` is the tally over the files in order (also lines 86-115) |
| DrawStatistics.CountFile | statistics/draw_statistics.py:41-48 | one file appends its label for every combination of each of its groups |
| DrawStatistics.GroupsSnoc | statistics/draw_statistics.py:44-48 | one more group appends the labels of its combinations |
| DrawStatistics.CountGroup | statistics/draw_statistics.py:46-48 | one group appends the label to the list of each of its combinations |
| DrawStatistics.AddCombosLookup | statistics/draw_statistics.py:46-48 | a key's list grows by the label once per combination with its names |
| DrawStatistics.AddGroupsLookup | statistics/draw_statistics.py:44-48 | a key's list grows by the label once per matching combination in the file's groups |
| DrawStatistics.CountKeyAppend | statistics/draw_statistics.py:46 | matching combinations of two lists add up |
| DrawStatistics.CountKeyPrepend | statistics/draw_statistics.py:46 | combinations with a name in front match a key only when it holds that name |
| DrawStatistics.CombinationsCount | statistics/draw_statistics.py:46-47 | among the k-combinations of distinct names exactly one has the names of a key of k distinct names of the group, and none otherwise |
| DrawStatistics.CombinationsAsMultisets | statistics/draw_statistics.py:46 | the tuples `combinations` yields, read as multisets, are the combinations the optimiser counts, one for one and in the same order |
| DrawStatistics.CountCombinations | statistics/draw_statistics.py:46 | the matching combinations follow the recursion of `combinations` |
| DrawStatistics.ChooseValue | statistics/draw_statistics.py:46-47 | that number is one exactly when the key is k distinct names of the group |
| DrawStatistics.FillsStep | statistics/draw_statistics.py:46-47 | the first name either belongs to the key and is chosen, or not |
| DrawStatistics.GroupsCountValue | statistics/draw_statistics.py:44-48 | within one file a key of k >= 1 distinct names comes from at most one group |
| DrawStatistics.TogetherSnoc | statistics/draw_statistics.py:44-48 | a key shares a group of the file when it shares the last group or one before |
| DrawStatistics.TallyLookup | statistics/draw_statistics.py:37-50 | the list kept for a key holds the labels of the files in which its k distinct names share a group, once each, in file order (also lines 86-115) |
| DrawStatistics.TallyKeys | statistics/draw_statistics.py:38 | a key is present exactly when its list is not empty (also line 48) |
| DrawStatistics.GroupsKeys | statistics/draw_statistics.py:44-48 | one file keeps every key non-empty |
| DrawStatistics.CombosKeys | statistics/draw_statistics.py:46-48 | one group keeps every key non-empty |
| DrawStatistics.FirstInfo | statistics/draw_statistics.py:58 | `drop_duplicates` keeps a row of the player |
| DrawStatistics.LexOrder | statistics/draw_statistics.py:54-55 | Python's string order is irreflexive, asymmetric and total on distinct strings |
| DrawStatistics.LexIrreflexive | statistics/draw_statistics.py:55 | no string is below itself |
| DrawStatistics.FindUnpaired | statistics/draw_statistics.py:53-83 | every listed pair is sorted and has count 0 |
| DrawStatistics.PairFills | statistics/draw_statistics.py:46-47 | a pair of distinct names fills a group exactly when both are in it |
| DrawStatistics.PairTogether | statistics/draw_statistics.py:44-47 | a pair key shares a group of the file exactly when the two players are in one group |
| DrawStatistics.LabelsWithEmpty | statistics/draw_statistics.py:48 | a key's list is empty exactly when it shares a group in no file (also line 56) |
| DrawStatistics.UnpairedMeaning | statistics/draw_statistics.py:53-83 | a sorted pair that is not excluded is listed exactly when the two players never shared a group in any file |
| DrawParser.DigitRun | parser/draw_parser.py:9 | the greedy `\d+` ends at the first non-digit or at the end of the text (also line 15) |
| DrawParser.DigitRunStops | parser/draw_parser.py:9 | a run of digits followed by a non-digit ends exactly there (also line 15) |
| DrawParser.SeedAtSound | parser/draw_parser.py:9 | what is read at a bracket is a match of `\[(\d+(?:/\d+)?)\]` |
| DrawParser.SeedAtComplete | parser/draw_parser.py:9 | every match at a place is what is read there |
| DrawParser.SeedAtSlash | parser/draw_parser.py:9 | a "digits/digits" match is read in full |
| DrawParser.SearchSeedMeaning | parser/draw_parser.py:9-12 | the search returns the leftmost match from its start, and nothing when there is none |
| DrawParser.ExtractSeed | parser/draw_parser.py:7-12 | `extract_seed` finds the leftmost seed bracket of the text, nothing exactly when there is none, and nothing for a cell that is not a string |
| DrawParser.SearchNumber | parser/draw_parser.py:15 | the leftmost place where "Ausl_" and a digit stand, or none |
| DrawParser.ExtractNumber | parser/draw_parser.py:14-16 | the result is the whole name or a non-empty digit string |
| DrawParser.ExtractNumberOfDraw | parser/draw_parser.py:14-16 | the file of draw n gives back n, and the sort key `int(extract_number(...))` is n (also line 25) |
| DrawParser.TailToken | parser/draw_parser.py:49 | the longest suffix without whitespace |
| DrawParser.LastToken | parser/draw_parser.py:49 | `split()[-1]` holds no whitespace |
| DrawParser.PlayerOf | parser/draw_parser.py:51-70 | a player row exactly when column 3 is present and its stripped text is not empty, "0" or a skipped label; the name is that stripped text |
| DrawParser.Groups | parser/draw_parser.py:44 | one key per block |
| DrawParser.PlayersOf | parser/draw_parser.py:44 | a group's players are found exactly when it is a key |
| DrawParser.StartBlock | parser/draw_parser.py:50 | `groups[g] = []` empties g's list, keeps every other key, and appends g to the keys only when it is new |
| DrawParser.AddPlayer | parser/draw_parser.py:66-70 | `groups[g].append(p)` adds p at the end of g's list and changes nothing else |
| DrawParser.KindOf | parser/draw_parser.py:48-70 | a header row exactly when column 0 starts with "HE U13 - Group"; a player row carries a kept player |
| DrawParser.ScanSheet | parser/draw_parser.py:44-70 | the row loop computes the scan of the sheet |
| DrawParser.ScanRow | parser/draw_parser.py:48-70 | the loop body performs one step of the scan |
| DrawParser.ScanAppend | parser/draw_parser.py:46 | scanning two pieces of a sheet is scanning the first and going on with the second |
| DrawParser.NoHeaderNoChange | parser/draw_parser.py:45 | rows without a header leave the start state (also line 51) |
| DrawParser.LeadingRowsIgnored | parser/draw_parser.py:45 | rows before the first header are ignored (also line 51) |
| DrawParser.StepInvariant | parser/draw_parser.py:48-70 | one step keeps the group keys distinct, the current group a key and the kept players valid |
| DrawParser.HeaderInvariant | parser/draw_parser.py:48-50 | a header keeps the scan invariant |
| DrawParser.PlayerInvariant | parser/draw_parser.py:51-70 | a player row keeps the scan invariant |
| DrawParser.ScanInvariant | parser/draw_parser.py:44-70 | the scan of any sheet keeps distinct group keys, a current group that is a key, and only players that are not empty or skipped labels |
| DrawParser.PlayerRowAppends | parser/draw_parser.py:51-70 | a player row under the current group lands at the end of that group's list |
| DrawParser.HeaderStartsGroup | parser/draw_parser.py:48-50 | a header makes its last token the current group, with no players, and keeps the keys seen so far in order |
| DrawParser.FileRecordsFrom | parser/draw_parser.py:73-82 | every output row of a file carries the file's number and the group and player of a block |
| DrawParser.ReadFile | parser/draw_parser.py:37-84 | reading a file yields its rows, or nothing when the read fails |
| DrawParser.ReadAll | parser/draw_parser.py:33-84 | every file is read in turn and yields what it yields alone |
| DrawParser.AsWrittenLosesRows | parser/draw_parser.py:37-41 | as written, a readable first file followed by an unreadable last one saves no part, although a row was parsed (also lines 87-93) |
| DrawParser.FixedAgreesWhenAllRead | parser/draw_parser.py:33-93 | when every file can be read, the loop as written and the corrected one agree |
| DrawParser.SaveStep | parser/draw_parser.py:84-87 | one file's rows join the waiting ones, and the save test fires exactly when the part is full |
| DrawParser.PartsSnoc | parser/draw_parser.py:87-93 | writing the waiting rows as the next part keeps the parts correct |
| DrawParser.FixedFlushFull | parser/draw_parser.py:87-93 | saving a full part before the last file keeps the loop invariant |
| DrawParser.FixedFlushLast | parser/draw_parser.py:87-93 | the last file saves the last part and keeps the loop invariant |
| DrawParser.FixedKeep | parser/draw_parser.py:84-87 | a file that only collects rows keeps the loop invariant |
| DrawParser.FixedStep | parser/draw_parser.py:33-93 | every corrected step keeps the loop invariant |
| DrawParser.FixedInv | parser/draw_parser.py:33-93 | after i files the counters, the part number, the waiting rows and the parts written are what the invariant says |
| DrawParser.RunAsWritten | parser/draw_parser.py:33-93 | the loop as written counts every file and ends with the part number one past the number of parts written |
| DrawParser.RunAsWrittenKeepsRows | parser/draw_parser.py:33-93 | as written, the rows of the parts written followed by the rows still waiting are exactly the parsed rows, in file order |
| DrawParser.RunFixed | parser/draw_parser.py:33-93 | the corrected loop counts every file and ends with the part number one past the number of parts written |
| DrawParser.RunFixedKeepsRows | parser/draw_parser.py:33-93 | in the corrected loop, the rows of the parts written followed by the rows still waiting are exactly the parsed rows, in file order |
| DrawParser.PartCount | parser/draw_parser.py:87 | `ceil(n / 200)` is the only number of parts between n and n + 200 |
| DrawParser.FixedParts | parser/draw_parser.py:29-93 | part k + 1 holds exactly the rows of files k * 200 up to (k + 1) * 200, fewer in the last part, so every parsed row is saved once, in file order, in `ceil(n / 200)` parts |
| DrawParser.SaveParts | parser/draw_parser.py:33-93 | the corrected loop writes the parts the corrected run defines |
| DrawParser.ParseFolder | parser/draw_parser.py:33-93 | every file yields what it yields alone, and the parts written are those of the corrected run |
| Anonymization.NewNames | parser/anonymization.py:20-23 | the values a labelling pass adds are exactly the column's values not yet labelled |
| Anonymization.UniqueValues | parser/anonymization.py:20 | `unique()` holds exactly the column's values (also line 27) |
| Anonymization.NewNamesOfUniques | parser/anonymization.py:20 | going through the distinct values adds what going through the column would (also line 27) |
| Anonymization.NewNamesAppend | parser/anonymization.py:16-31 | labelling one column after another is labelling their concatenation |
| Anonymization.NewNamesSnoc | parser/anonymization.py:21-23 | one more value is added exactly when it is new |
| Anonymization.NumberedAdd | parser/anonymization.py:21-23 | labelling a new value with the counter keeps the numbering |
| Anonymization.LabelsDistinct | parser/anonymization.py:10-13 | distinct values never share a label (also lines 21-23, 28-30) |
| Anonymization.Labeller.constructor | parser/anonymization.py:10-13 | an empty dict with its counter at 1 |
| Anonymization.Labeller.Label | parser/anonymization.py:21-23 | a new value gets the prefix and the counter, which then grows; a known value changes nothing (also lines 28-30) |
| Anonymization.Labeller.LabelAll | parser/anonymization.py:20-23 | every value of the column gets a label, new values in order of first appearance, and no existing label changes (also lines 27-30) |
| Anonymization.RelabelledExtends | parser/anonymization.py:24 | labels given once stay valid when the dicts grow (also line 31) |
| Anonymization.FilesRelabelled | parser/anonymization.py:16-35 | the files done so far stay relabelled when the next file's labels are added |
| Anonymization.AnonymiseFile | parser/anonymization.py:17-31 | one file's clubs, then its players, are labelled, and both columns are replaced by their labels |
| Anonymization.OrderStep | parser/anonymization.py:16-31 | one more file appends its new clubs and names to the order |
| Anonymization.AnonymiseAll | parser/anonymization.py:16-37 | every club and player of every file is replaced by the label the final dicts give it, so a name keeps its label across files, and labels are numbered in order of first appearance over all files |

## Left out

- File and spreadsheet I/O is not modelled. This covers Excel and CSV reads and writes, `glob` folder listings, `os.makedirs`, prints, `tqdm` and the plots. Every operation works on values its caller passes in.
- The parser's and the analysis scripts' sorting of the file list is not modelled. The files come in the order given. `sort_key` itself is modelled, and the order it induces on file names is not.
- Floating point is not modelled. The penalty weights are exact reals. Float arithmetic goes as follows:
  - the near-miss test `count / total >= 0.6` is the integer test `5 * count >= 3 * total`;
  - `math.exp`, `math.log`, `np.median` and `**` are oracles (the acceptance draw is a boolean input; `median`, `ln` and `pow` are function parameters);
  - `Suggest` therefore states only what holds for any such functions.
- The statistics of `statistical_analysis.py` are not modelled: the Wilson and Jeffreys intervals, `chisquare`, `binomtest`, the bootstrap and the quantiles (floating point and scipy). The pandas plumbing that builds `grouped`, `clubs` and `seed_map` is not modelled either; `Mrv` takes the players, seeds, clubs and free places as inputs.
- Python's random generators are not modelled; they become inputs:
  - `random.shuffle` is a shuffled copy, a reordering with the same elements as often as before;
  - `random.sample` and `random.choice` in `neighbor` are indices reduced modulo the number of candidates;
  - the acceptance and calibration coins are booleans.
- Mrv.Restart: which candidate `random.choice` picks, and which group the seeded choice or the weighted choice of lines 200-212 picks, is left open (any member of the candidates or of the domain). The weighted choice's `s_tot == 0` branch is proved unreachable (`Mrv.WeightsPositive`) rather than modelled.
- The `domains` table of `monte_carlo_mrv` (lines 153-159) is not modelled. It is copied into `dom` and never read; every domain the sampler uses is recomputed.
- The progress-file resume, the `KeyboardInterrupt` handler and the commented-out safety brake of `monte_carlo_random` are not modelled. The loop instead stops when the supplied attempts run out.
- `group_distribution`, `group_distribution_for_chi_test` and the `value_counts`/`unstack` tables are not modelled (pandas only). The same goes for the DataFrame sorting by count and the `missing_position` export of the second club checker.
- DrawStatistics.LongestRun: takes integer draw numbers. A file without a draw number is labelled by its text, and the source's `int(n)` on such a label is not modelled.
- The quadruplet sheet's display `", ".join(map(str, set(files)))` is not modelled. It is unordered and differs from `format_draw_display`.
- Text handling covers ASCII only:
  - `str.strip()` removes ASCII whitespace;
  - `upper()` and `lower()` change ASCII letters only;
  - `\d` and `isdigit()` accept only the digits 0-9.
- SeedAnalysis.ParseInt: reads the digits 0-9 only; Python's `int` also accepts other Unicode decimal digits.
- NaN is modelled as an absent value, a `Blank` cell or `None`. pandas `groupby` drops rows with a NaN key; the club checkers take their groups already formed.
- Anonymization.AnonymiseAll: a missing club is one key (`None`) of the club map. In the source every NaN gets its own entry unless pandas hands back the same NaN object.
- The optimiser's outer script is modelled only through the history it keeps (`History.Store.Record`). This leaves out:
  - the loop over memory horizons and runs;
  - `sa_test` (lines 429-477);
  - the uniformity analyses (lines 661-776);
  - the logging of `log_all`.
- `debug_score_breakdown` is modelled as the values it prints (`Penalty.DebugBreakdown`), without the printing.
- The macro, plotting and averaging scripts are not part of this model.
- StartDraw.FirstValidFromRoster: covers rosters whose seed texts are all "1", "2", "3/4" or "5/8". The set-up's asserts let another seed text through (such as "9/16"); that player then lands in no group, and `StartDraw.OtherSeedLeavesGap` shows the start left short (see Findings).

## Findings

| source | as written | input that shows it | evidently intended | confidence | as-written member | corrected member |
|---|---|---|---|---|---|---|
| parser/draw_parser.py:37-41,87-93 | a file that cannot be read is counted and then skipped with `continue`, past the save test, so when the last file (or a file at a multiple of 200) cannot be read, the rows still waiting are not written then; after an unreadable last file they are never written | two files, the first readable with one player row and the second unreadable: no part file is written, yet one row was parsed | the save test runs after every file, readable or not, so every parsed row lands in exactly one part | not executed | DrawParser.AsWrittenLosesRows | DrawParser.FixedParts |
| simulated_annealing/own_algorithm.py:109-139 | the set-up checks only how many seeds of each of the four texts there are, and the seed loop has no branch for any other text, so a seeded row with another text is fixed but placed in no group and not dealt either | a roster of the right size with the eight usual seeds plus one row seeded "9/16": every try leaves group K one player short, and the start lacks that player | the set-up rejects a seed text other than "1", "2", "3/4" and "5/8", so every roster player is placed exactly once | not executed | StartDraw.OtherSeedLeavesGap | StartDraw.FirstValidFromRoster |
