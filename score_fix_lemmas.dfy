/** Properties of the score normaliser: the literal lists are pairwise
    disjoint, so every literal gets the pair of its own list whatever the
    order of the tests; the sentinels; the diagnostic; and the agreement of
    the copies kept by the two scripts. */
module ScoreFixLemmas {
  import opened Records
  import C = CreateMMCDB
  import A = AddMMC

  /** No literal appears in two of the seven lists. */
  lemma ListsDisjoint()
    ensures forall s | s in C.WalkoverScores ::
              s !in C.OneZeroScores && s !in C.TwoZeroScores && s !in C.TwoOneScores
              && s !in C.ThreeZeroScores && s !in C.ThreeOneScores && s !in C.ThreeTwoScores
    ensures forall s | s in C.OneZeroScores ::
              s !in C.TwoZeroScores && s !in C.TwoOneScores
              && s !in C.ThreeZeroScores && s !in C.ThreeOneScores && s !in C.ThreeTwoScores
    ensures forall s | s in C.TwoZeroScores ::
              s !in C.TwoOneScores && s !in C.ThreeZeroScores && s !in C.ThreeOneScores && s !in C.ThreeTwoScores
    ensures forall s | s in C.TwoOneScores :: s !in C.ThreeZeroScores && s !in C.ThreeOneScores && s !in C.ThreeTwoScores
    ensures forall s | s in C.ThreeZeroScores :: s !in C.ThreeOneScores && s !in C.ThreeTwoScores
    ensures forall s | s in C.ThreeOneScores :: s !in C.ThreeTwoScores
  {
  }

  /** Every literal of a list is mapped to that list's pair, whatever its
      position in the chain of tests. */
  lemma ScoreFixByList(s: string)
    ensures s in C.OneZeroScores ==> C.ScoreFix(s) == (1, 0)
    ensures s in C.TwoZeroScores ==> C.ScoreFix(s) == (2, 0)
    ensures s in C.TwoOneScores ==> C.ScoreFix(s) == (2, 1)
    ensures s in C.ThreeZeroScores ==> C.ScoreFix(s) == (3, 0)
    ensures s in C.ThreeOneScores ==> C.ScoreFix(s) == (3, 1)
    ensures s in C.ThreeTwoScores ==> C.ScoreFix(s) == (3, 2)
    ensures s in C.WalkoverScores ==> C.ScoreFix(s) == C.Walkover
  {
    ListsDisjoint();
  }

  /** The empty string and every unlisted string give the skip sentinel;
      only the non-empty ones are reported, each by exactly one line: the
      string followed by the note that it is unknown. */
  lemma ScoreFixSentinel(s: string)
    ensures C.ScoreFix("") == C.Unrecognised && C.UnknownScoreReport("") == None
    ensures C.ScoreFix(s) == C.Unrecognised <==> !C.Listed(s)
    ensures C.UnknownScoreReport(s).Some? <==> s != "" && C.ScoreFix(s) == C.Unrecognised
    ensures C.UnknownScoreReport(s).Some? ==> C.UnknownScoreReport(s) == Some(s + " is unknown to the system")
  {
  }

  /** The two scripts' copies of the normaliser agree on every string, in
      the pair returned and in the diagnostic emitted. */
  lemma ScoreFixCopiesAgree(s: string)
    ensures A.ScoreFix(s) == C.ScoreFix(s)
    ensures A.UnknownScoreReport(s) == C.UnknownScoreReport(s)
  {
  }
}
