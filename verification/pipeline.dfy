/** How the detectors' candidates fare in the solver and the rectifier. The
    library leaves the chaining to its caller; these lemmas follow one
    candidate from a detector through `check_overflow`, `determine_fix_type`,
    `generate_fixed_code` and `generate_error_report`. */
module Pipeline {
  import opened Wrappers
  import opened Text
  import opened Candidates
  import Syntax
  import Analyzer
  import Frontend
  import Solver
  import Rectifier

  /** A string with no occurrence of `p`'s first character does not contain `p`. */
  lemma {:induction false} NoFirstCharNoContains(s: string, p: string)
    requires |p| > 0 && p[0] !in s
    ensures !Contains(s, p)
    decreases |s|
  {
    if |s| > 0 {
      if |p| <= |s| {
        assert s[..|p|][0] == s[0];
      }
      assert p[0] !in s[1..] by {
        assert forall i :: 0 <= i < |s[1..]| ==> s[1..][i] == s[i + 1];
      }
      NoFirstCharNoContains(s[1..], p);
    }
  }

  /** Neither detector operation mentions `unsafe`, so neither is ever classified `UnsafeToSafe`. */
  lemma DetectorOperationNotUnsafe(op: string)
    requires op == PointerOffset || op == Allocation
    ensures !Contains(op, "unsafe")
  {
    assert "unsafe"[0] == 'u';
    assert 'u' !in op;
    NoFirstCharNoContains(op, "unsafe");
  }

  /** The fix type the rectifier chooses for the solver's verdict on `c`. */
  function FixTypeOf(s: Solver.BufferSolver, c: OverflowCandidate): Rectifier.FixType {
    Rectifier.DetermineFixType(c, Solver.CheckOverflow(s, c).constraint)
  }

  /** With both values known, nonzero and representable, the fix type is decided by comparing them:
      an access below the size is left as a checked `get_mut`, one exactly at the size gets a bound
      check, one beyond it a resize. */
  lemma KnownValuesFixType(s: Solver.BufferSolver, c: OverflowCandidate)
    requires Solver.Sat(s) && !Contains(c.operation, "unsafe")
    requires c.bufferSize.Some? && 0 < c.bufferSize.value < Solver.I64Bound
    requires c.offset.Some? && 0 < c.offset.value < Solver.I64Bound
    ensures FixTypeOf(s, c) == Rectifier.SafeAccess <==> c.offset.value < c.bufferSize.value
    ensures FixTypeOf(s, c) == Rectifier.BoundCheck <==> c.offset.value == c.bufferSize.value
    ensures FixTypeOf(s, c) == Rectifier.VecResize <==> c.offset.value > c.bufferSize.value
  {
  }

  /** An unknown size with a known nonzero offset is judged an overflow past the end: a resize. */
  lemma UnknownSizeMeansResize(s: Solver.BufferSolver, c: OverflowCandidate)
    requires !Contains(c.operation, "unsafe")
    requires c.bufferSize.None? || c.bufferSize == Some(0)
    requires c.offset.Some? && c.offset.value > 0
    ensures FixTypeOf(s, c) == Rectifier.VecResize
  {
  }

  /** An unknown or zero offset is judged an overflow at index 0: a bound check guarding index 0. */
  lemma UnknownOffsetMeansGuardAtZero(s: Solver.BufferSolver, c: OverflowCandidate)
    requires !Contains(c.operation, "unsafe")
    requires c.offset.None? || c.offset == Some(0)
    ensures FixTypeOf(s, c) == Rectifier.BoundCheck
    ensures Rectifier.GenerateFixedCode(c, Solver.CheckOverflow(s, c).constraint, FixTypeOf(s, c))
            == Rectifier.GuardFix(0)
  {
  }

  /** Every candidate of the tree analyzer is judged an overflow with size and offset 0, gets a
      bound check guarding index 0, and is reported as critical. */
  lemma AnalyzerCandidatesGetGuardAtZero(file: Syntax.File, s: Solver.BufferSolver, i: nat)
    requires i < |Analyzer.FindBufferOverflows(file)|
    ensures var c := Analyzer.FindBufferOverflows(file)[i];
            var k := Solver.CheckOverflow(s, c).constraint;
            && k == Solver.BufferConstraint(0, 0, true)
            && FixTypeOf(s, c) == Rectifier.BoundCheck
            && Rectifier.GenerateFixedCode(c, k, FixTypeOf(s, c)) == Rectifier.GuardFix(0)
            && Rectifier.GenerateErrorReport(c).riskLevel == "Critical"
  {
    var c := Analyzer.FindBufferOverflows(file)[i];
    assert Analyzer.IsAnalyzerCandidate(c);
    DetectorOperationNotUnsafe(c.operation);
    UnknownOffsetMeansGuardAtZero(s, c);
  }

  /** The older visitor's pointer-offset candidates (size 10, offset 15) always get a resize to 16
      elements and a critical report; its allocation candidates get a bound check at index 0 and a
      medium report. */
  lemma FrontendCandidatesFixes(file: Syntax.File, s: Solver.BufferSolver, i: nat)
    requires Solver.Sat(s)
    requires i < |Frontend.VisitFile(file).overflowCandidates|
    ensures var c := Frontend.VisitFile(file).overflowCandidates[i];
            c.operation == PointerOffset ==>
              && FixTypeOf(s, c) == Rectifier.VecResize
              && Rectifier.GenerateFixedCode(c, Solver.CheckOverflow(s, c).constraint, FixTypeOf(s, c))
                 == Rectifier.ResizeFix(16, 15)
              && Rectifier.GenerateErrorReport(c).riskLevel == "Critical"
    ensures var c := Frontend.VisitFile(file).overflowCandidates[i];
            c.operation == Allocation ==>
              && FixTypeOf(s, c) == Rectifier.BoundCheck
              && Rectifier.GenerateFixedCode(c, Solver.CheckOverflow(s, c).constraint, FixTypeOf(s, c))
                 == Rectifier.GuardFix(0)
              && Rectifier.GenerateErrorReport(c).riskLevel == "Medium"
  {
    var c := Frontend.VisitFile(file).overflowCandidates[i];
    assert Frontend.IsLegacyCandidate(c);
    DetectorOperationNotUnsafe(c.operation);
    if c.operation == PointerOffset {
      KnownValuesFixType(s, c);
    } else {
      UnknownOffsetMeansGuardAtZero(s, c);
    }
  }

  /** A fresh solver has no assertions, so its checks on known values are exact. */
  lemma NewSolverIsSat()
    ensures Solver.Sat(Solver.NewSolver())
  {
  }
}
