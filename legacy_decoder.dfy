/**
 * The two pure predicates the legacy (per-base neighbour table) importer uses to find
 * segment boundaries and 3' crossovers on one strand of one virtual helix.
 *
 * A base on helix `vhNum` at `baseIdx` has a 5' neighbour (fiveVH, fiveIdx) and a
 * 3' neighbour (threeVH, threeIdx); helix number -1 means "no base there".
 * On an even helix the natural 3' step is +1 for the scaffold and -1 for the staple;
 * an odd helix runs the other way.  Python's `%` and Dafny's `%` agree for divisor 2.
 */
module LegacyDecoder {

  datatype StrandType = Scaffold | Staple

  /** Helix number the table uses for "no neighbour". */
  const NoHelix: int := -1

  /** The index step of a strand type on an even helix. */
  function Offset(t: StrandType): (o: int)
    ensures o == 1 || o == -1
    ensures o == 1 <==> t == Scaffold
  {
    if t == Scaffold then 1 else -1
  }

  /** Index of the naturally adjacent 3' base: the strand runs along the helix in the direction its parity gives. */
  function Natural3p(t: StrandType, vhNum: int, baseIdx: int): int
  {
    if vhNum % 2 == 0 then baseIdx + Offset(t) else baseIdx - Offset(t)
  }

  /** Index of the naturally adjacent 5' base: one step against the direction of travel. */
  function Natural5p(t: StrandType, vhNum: int, baseIdx: int): int
  {
    if vhNum % 2 == 0 then baseIdx - Offset(t) else baseIdx + Offset(t)
  }

  /**
   * True when the base is a breakpoint or a crossover.  The body follows the source's
   * chain of tests; the ensures gives the closed form: exactly one neighbour on this
   * helix, a same-helix neighbour that is not the natural one, or exactly one neighbour
   * missing.
   */
  predicate IsSegmentStartOrEnd(t: StrandType, vhNum: int, baseIdx: int,
                                fiveVH: int, fiveIdx: int, threeVH: int, threeIdx: int): (r: bool)
    ensures r <==>
      || ((fiveVH == vhNum) != (threeVH == vhNum))
      || (fiveVH == vhNum && fiveIdx != Natural5p(t, vhNum, baseIdx))
      || (threeVH == vhNum && threeIdx != Natural3p(t, vhNum, baseIdx))
      || ((fiveVH == NoHelix) != (threeVH == NoHelix))
  {
    var offset := Offset(t);
    if fiveVH == vhNum && threeVH != vhNum then true
    else if fiveVH != vhNum && threeVH == vhNum then true
    else if vhNum % 2 == 0 && fiveVH == vhNum && fiveIdx != baseIdx - offset then true
    else if vhNum % 2 == 0 && threeVH == vhNum && threeIdx != baseIdx + offset then true
    else if vhNum % 2 == 1 && fiveVH == vhNum && fiveIdx != baseIdx + offset then true
    else if vhNum % 2 == 1 && threeVH == vhNum && threeIdx != baseIdx - offset then true
    else if fiveVH == -1 && threeVH != -1 then true
    else if fiveVH != -1 && threeVH == -1 then true
    else false
  }

  /**
   * True when the 3' neighbour exists and is on another helix or is not the naturally
   * adjacent base on this one.
   */
  predicate Is3primeXover(t: StrandType, vhNum: int, baseIdx: int, threeVH: int, threeIdx: int): (r: bool)
    ensures r <==> threeVH != NoHelix && (threeVH != vhNum || threeIdx != Natural3p(t, vhNum, baseIdx))
  {
    if threeVH == -1 then false
    else if vhNum != threeVH then true
    else
      var offset := Offset(t);
      if vhNum % 2 == 0 && threeVH == vhNum && threeIdx != baseIdx + offset then true
      else if vhNum % 2 == 1 && threeVH == vhNum && threeIdx != baseIdx - offset then true
      else false
  }

  /** A missing 3' neighbour is never a crossover, whatever the other arguments. */
  lemma NoXoverWithout3pNeighbour(t: StrandType, vhNum: int, baseIdx: int, threeIdx: int)
    ensures !Is3primeXover(t, vhNum, baseIdx, NoHelix, threeIdx)
  {
  }

  /** A 3' neighbour on another (existing) helix is always a crossover. */
  lemma XoverToOtherHelix(t: StrandType, vhNum: int, baseIdx: int, threeVH: int, threeIdx: int)
    requires threeVH != NoHelix && threeVH != vhNum
    ensures Is3primeXover(t, vhNum, baseIdx, threeVH, threeIdx)
  {
  }

  /** Same even helix: a crossover exactly when the 3' index is not baseIdx + offset. */
  lemma XoverOnEvenHelix(t: StrandType, vhNum: int, baseIdx: int, threeIdx: int)
    requires vhNum % 2 == 0
    ensures Is3primeXover(t, vhNum, baseIdx, vhNum, threeIdx) <==> threeIdx != baseIdx + Offset(t)
  {
  }

  /** Same odd helix: the natural direction is reversed, so the test is against baseIdx - offset. */
  lemma XoverOnOddHelix(t: StrandType, vhNum: int, baseIdx: int, threeIdx: int)
    requires vhNum % 2 == 1 && vhNum != NoHelix  // -1 is odd too, but it is the sentinel
    ensures Is3primeXover(t, vhNum, baseIdx, vhNum, threeIdx) <==> threeIdx != baseIdx - Offset(t)
  {
  }

  /** Exactly one of the two neighbours on the current helix: always a boundary. */
  lemma BoundaryWhenOneNeighbourLeavesHelix(t: StrandType, vhNum: int, baseIdx: int,
                                            fiveVH: int, fiveIdx: int, threeVH: int, threeIdx: int)
    requires (fiveVH == vhNum) != (threeVH == vhNum)
    ensures IsSegmentStartOrEnd(t, vhNum, baseIdx, fiveVH, fiveIdx, threeVH, threeIdx)
  {
  }

  /** Both neighbours natural on the current helix (either parity): an interior base. */
  lemma InteriorBaseIsNotBoundary(t: StrandType, vhNum: int, baseIdx: int)
    ensures !IsSegmentStartOrEnd(t, vhNum, baseIdx,
                                 vhNum, Natural5p(t, vhNum, baseIdx),
                                 vhNum, Natural3p(t, vhNum, baseIdx))
  {
  }

  /** Interior bases spelt out per parity: even helix (baseIdx - offset, baseIdx + offset), odd helix the mirror. */
  lemma InteriorBaseByParity(t: StrandType, vhNum: int, baseIdx: int)
    ensures vhNum % 2 == 0 ==>
      !IsSegmentStartOrEnd(t, vhNum, baseIdx, vhNum, baseIdx - Offset(t), vhNum, baseIdx + Offset(t))
    ensures vhNum % 2 == 1 ==>
      !IsSegmentStartOrEnd(t, vhNum, baseIdx, vhNum, baseIdx + Offset(t), vhNum, baseIdx - Offset(t))
  {
  }

  /** Exactly one neighbour missing (a strand end bordering empty space): always a boundary. */
  lemma BoundaryAtEmptySpace(t: StrandType, vhNum: int, baseIdx: int,
                             fiveVH: int, fiveIdx: int, threeVH: int, threeIdx: int)
    requires (fiveVH == NoHelix) != (threeVH == NoHelix)
    ensures IsSegmentStartOrEnd(t, vhNum, baseIdx, fiveVH, fiveIdx, threeVH, threeIdx)
  {
  }

  /** A same-helix 3' crossover is always also a segment boundary, whatever the 5' neighbour. */
  lemma XoverIsBoundary(t: StrandType, vhNum: int, baseIdx: int, fiveVH: int, fiveIdx: int, threeIdx: int)
    requires Is3primeXover(t, vhNum, baseIdx, vhNum, threeIdx)
    ensures IsSegmentStartOrEnd(t, vhNum, baseIdx, fiveVH, fiveIdx, vhNum, threeIdx)
  {
  }

  /** Scaffold on even helix 2 at base 10: natural neighbours 9 and 11 are interior; a jump to 15 is a boundary. */
  lemma ScaffoldEvenHelixExample()
    ensures !IsSegmentStartOrEnd(Scaffold, 2, 10, 2, 9, 2, 11)
    ensures IsSegmentStartOrEnd(Scaffold, 2, 10, 2, 9, 2, 15)
    ensures Is3primeXover(Scaffold, 2, 10, 2, 15)
    ensures !Is3primeXover(Staple, 3, 10, 3, 11)
  {
  }
}
