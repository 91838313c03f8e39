/** The 16-player knockout bracket: group positions, halves and quarters. */
module Bracket {
  import opened Common

  datatype Half = Top | Bottom
  datatype Quarter = Q1 | Q2 | Q3 | Q4

  const NGroups: nat := 11

  /** Group letters in the order A..K; group index `i` is letter `GroupLetters[i]`. */
  const GroupLetters: string := "ABCDEFGHIJK"

  /** Bracket position of each group, by group index (A=1, B=16, C=12, D=5, E=7, F=10,
      G=3, H=14, I=9, J=8, K=13). */
  const GroupPositions: seq<int> := [1, 16, 12, 5, 7, 10, 3, 14, 9, 8, 13]

  /** The optimiser's half mapping: 'top' for positions 1..8, 'bottom' for every other position. */
  function PosToHalf(pos: int): (h: Half)
    ensures h == Top <==> 1 <= pos <= 8
  {
    if 1 <= pos <= 8 then Top else Bottom
  }

  /** Quarter of a position: 1-4, 5-8, 9-12, 13-16, nothing outside 1..16. */
  function PosToQuarter(pos: int): (q: Option<Quarter>)
    ensures q == Some(Q1) <==> 1 <= pos <= 4
    ensures q == Some(Q2) <==> 5 <= pos <= 8
    ensures q == Some(Q3) <==> 9 <= pos <= 12
    ensures q == Some(Q4) <==> 13 <= pos <= 16
    ensures q == None <==> !(1 <= pos <= 16)
  {
    if 1 <= pos <= 4 then Some(Q1)
    else if 5 <= pos <= 8 then Some(Q2)
    else if 9 <= pos <= 12 then Some(Q3)
    else if 13 <= pos <= 16 then Some(Q4)
    else None
  }

  /** The club checkers' quarter mapping over a position that may be missing
      (a group without a bracket position maps to NaN, which is in no quarter). */
  function GetQuarter(pos: Option<int>): (q: Option<Quarter>)
    ensures pos.None? ==> q == None
    ensures pos.Some? ==> q == PosToQuarter(pos.value)
  {
    match pos
    case None => None
    case Some(p) =>
      if 1 <= p <= 4 then Some(Q1)
      else if 5 <= p <= 8 then Some(Q2)
      else if 9 <= p <= 12 then Some(Q3)
      else if 13 <= p <= 16 then Some(Q4)
      else None
  }

  /** The club checkers' half mapping: 'top' for 1..8, 'bottom' for 9..16, nothing otherwise. */
  function GetHalf(pos: Option<int>): (h: Option<Half>)
    ensures h == Some(Top) <==> pos.Some? && 1 <= pos.value <= 8
    ensures h == Some(Bottom) <==> pos.Some? && 9 <= pos.value <= 16
    ensures h == None <==> pos.None? || !(1 <= pos.value <= 16)
  {
    match pos
    case None => None
    case Some(p) =>
      if 1 <= p <= 8 then Some(Top)
      else if 9 <= p <= 16 then Some(Bottom)
      else None
  }

  /** Inside the bracket the checkers' half agrees with the optimiser's; outside it the
      optimiser says 'bottom' where the checkers say nothing. */
  lemma HalfMappingsAgree(pos: int)
    ensures 1 <= pos <= 16 ==> GetHalf(Some(pos)) == Some(PosToHalf(pos))
    ensures !(1 <= pos <= 16) ==> GetHalf(Some(pos)) == None && PosToHalf(pos) == Bottom
  {
  }

  /** The quarters refine the halves: Q1 and Q2 form the top half, Q3 and Q4 the bottom. */
  lemma QuartersRefineHalves(pos: int)
    requires 1 <= pos <= 16
    ensures PosToQuarter(pos) in {Some(Q1), Some(Q2)} <==> PosToHalf(pos) == Top
  {
  }

  function HalfOfGroup(gi: nat): Half
    requires gi < NGroups
  {
    PosToHalf(GroupPositions[gi])
  }

  function QuarterOfGroup(gi: nat): Option<Quarter>
    requires gi < NGroups
  {
    PosToQuarter(GroupPositions[gi])
  }

  /** Every group has a position inside the bracket, so every group has a quarter, and
      no two groups share a position. */
  lemma GroupPositionsInBracket()
    ensures |GroupPositions| == NGroups == |GroupLetters|
    ensures forall gi :: 0 <= gi < NGroups ==> 1 <= GroupPositions[gi] <= 16
    ensures forall gi :: 0 <= gi < NGroups ==> QuarterOfGroup(gi).Some?
    ensures forall i, j :: 0 <= i < j < NGroups ==> GroupPositions[i] != GroupPositions[j]
  {
  }
}
