/**
 * Round-robin choice of the source to try first, and the order in which one run
 * visits the sources.
 */
module Rotation {
  import opened Wrappers

  /** Lines 22-33: the catalog holds five sources. */
  const SourceCount: nat := 5

  /** `get_next_source_index`: one past the stored index, modulo the number of
      sources; 0 when nothing readable is stored. Python's `%` with a positive
      divisor agrees with Dafny's, also for a negative stored value. */
  function NextStart(stored: Option<int>): (r: nat)
    ensures r < SourceCount
    ensures stored.None? ==> r == 0
    ensures stored.Some? ==> (stored.value + 1 - r) % SourceCount == 0
    ensures stored.Some? && 0 <= stored.value < SourceCount ==>
              r == if stored.value + 1 < SourceCount then stored.value + 1 else 0
  {
    match stored
    case None => 0
    case Some(last) => (last + 1) % SourceCount
  }

  /** Line 175: the source tried at step `i` of a run that starts at `start`. */
  function VisitAt(start: nat, i: nat): (k: nat)
    requires start < SourceCount && i < SourceCount
    ensures k < SourceCount
    ensures k == if start + i < SourceCount then start + i else start + i - SourceCount
  {
    (start + i) % SourceCount
  }

  /** One run tries every source exactly once: different steps visit different
      sources, and every source has a step. */
  lemma VisitOrderIsPermutation(start: nat)
    requires start < SourceCount
    ensures forall i, j :: 0 <= i < j < SourceCount ==> VisitAt(start, i) != VisitAt(start, j)
    ensures forall k :: 0 <= k < SourceCount ==> VisitAt(start, StepOf(start, k)) == k
  {
  }

  /** The step at which a run that starts at `start` tries source `k`. */
  function StepOf(start: nat, k: nat): (i: nat)
    requires start < SourceCount && k < SourceCount
    ensures i < SourceCount
  {
    if start <= k then k - start else k + SourceCount - start
  }

  /** After a post from source `s` is committed, the next run starts right after
      it and tries `s` last. */
  lemma CommittedSourceTriedLast(s: nat)
    requires s < SourceCount
    ensures VisitAt(NextStart(Some(s)), SourceCount - 1) == s
  {
  }
}
