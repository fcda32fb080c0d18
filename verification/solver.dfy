/** The feasibility check of `src/solver.rs`. The solver only ever receives
    the closed proposition `offset >= size` over two integer constants, so its
    satisfiability is decided here by evaluating the asserted comparisons. */
module Solver {
  import opened Wrappers
  import opened Candidates

  /** The verdict record: the values used and whether the access overflows. */
  datatype BufferConstraint = BufferConstraint(bufferSize: U64, offset: U64, isOverflow: bool)

  /** A closed proposition `lhs >= rhs` between integer constants. */
  datatype Ge = Ge(lhs: int, rhs: int)

  predicate Holds(g: Ge) {
    g.lhs >= g.rhs
  }

  /** The solver's assertion stack (`base` below every `push`) and the registered buffer sizes. */
  datatype BufferSolver = BufferSolver(bufferVars: map<string, int>, base: seq<Ge>, scopes: seq<seq<Ge>>)

  /** The result of a check: the verdict and the solver afterwards. */
  datatype Checked = Checked(constraint: BufferConstraint, solver: BufferSolver)

  /** `BufferSolver::new`: no buffers, nothing asserted. */
  function NewSolver(): BufferSolver {
    BufferSolver(map[], [], [])
  }

  const I64Bound: int := 0x8000_0000_0000_0000

  /** `x as i64` for a `u64`: values from 2^63 up wrap to negatives. */
  function AsI64(x: U64): (r: int)
    ensures -I64Bound <= r < I64Bound
    ensures (x - r) % 0x1_0000_0000_0000_0000 == 0
    ensures x < I64Bound ==> r == x
    ensures x >= I64Bound ==> r < 0
  {
    if x < I64Bound then x else x - 0x1_0000_0000_0000_0000
  }

  /** `add_buffer`: only records the size; no check reads it. */
  function AddBuffer(s: BufferSolver, name: string, size: U64): (r: BufferSolver)
    ensures r.base == s.base && r.scopes == s.scopes
    ensures name in r.bufferVars && r.bufferVars[name] == AsI64(size)
  {
    s.(bufferVars := s.bufferVars[name := AsI64(size)])
  }

  function Push(s: BufferSolver): BufferSolver {
    s.(scopes := s.scopes + [[]])
  }

  function Assert(s: BufferSolver, g: Ge): BufferSolver {
    if |s.scopes| == 0 then s.(base := s.base + [g])
    else s.(scopes := s.scopes[..|s.scopes| - 1] + [s.scopes[|s.scopes| - 1] + [g]])
  }

  function Pop(s: BufferSolver): BufferSolver
    requires |s.scopes| > 0
  {
    s.(scopes := s.scopes[..|s.scopes| - 1])
  }

  /** Everything asserted at every level holds. */
  predicate AllHold(gs: seq<Ge>) {
    forall i :: 0 <= i < |gs| ==> Holds(gs[i])
  }

  /** `check() == Sat`: every asserted comparison holds. */
  predicate Sat(s: BufferSolver) {
    AllHold(s.base) && forall i :: 0 <= i < |s.scopes| ==> AllHold(s.scopes[i])
  }

  /** `check_overflow`: unknown (`None`) or zero values are judged an overflow without asking the
      solver; otherwise `offset >= size` is asserted in a pushed scope, checked, and popped. */
  function CheckOverflow(s: BufferSolver, c: OverflowCandidate): (r: Checked)
    ensures r.solver == s
    ensures r.constraint.bufferSize == c.bufferSize.GetOr(0) && r.constraint.offset == c.offset.GetOr(0)
    ensures c.bufferSize.None? || c.offset.None? || c.bufferSize == Some(0) || c.offset == Some(0) ==>
              r.constraint.isOverflow
    ensures Sat(s) && c.bufferSize.Some? && c.offset.Some? && 0 < c.bufferSize.value < I64Bound
            && 0 < c.offset.value < I64Bound ==>
              (r.constraint.isOverflow <==> c.offset.value >= c.bufferSize.value)
  {
    var size := c.bufferSize.GetOr(0);
    var offset := c.offset.GetOr(0);
    if size == 0 || offset == 0 then
      Checked(BufferConstraint(size, offset, true), s)
    else
      var g := Ge(AsI64(offset), AsI64(size));
      var scoped := Assert(Push(s), g);
      SatInScope(s, g);
      var sat := Sat(scoped);
      Checked(BufferConstraint(size, offset, sat), Pop(scoped))
  }

  /** `check_overflow` with the comparison made on the unsigned values, as the `u64` fields intend:
      no cast, so every known nonzero pair is judged by `offset >= size`. */
  function CheckOverflowUnsigned(s: BufferSolver, c: OverflowCandidate): (r: Checked)
    ensures r.solver == s
    ensures r.constraint.bufferSize == c.bufferSize.GetOr(0) && r.constraint.offset == c.offset.GetOr(0)
    ensures c.bufferSize.None? || c.offset.None? || c.bufferSize == Some(0) || c.offset == Some(0) ==>
              r.constraint.isOverflow
    ensures Sat(s) && c.bufferSize.Some? && c.offset.Some? && c.bufferSize.value > 0 && c.offset.value > 0 ==>
              (r.constraint.isOverflow <==> c.offset.value >= c.bufferSize.value)
  {
    var size := c.bufferSize.GetOr(0);
    var offset := c.offset.GetOr(0);
    if size == 0 || offset == 0 then
      Checked(BufferConstraint(size, offset, true), s)
    else
      var g := Ge(offset, size);
      var scoped := Assert(Push(s), g);
      SatInScope(s, g);
      Checked(BufferConstraint(size, offset, Sat(scoped)), Pop(scoped))
  }

  /** Below 2^63 the cast is the identity, so the check as written and the unsigned one agree. */
  lemma CastAgreesBelowBound(s: BufferSolver, c: OverflowCandidate)
    requires c.bufferSize.GetOr(0) < I64Bound && c.offset.GetOr(0) < I64Bound
    ensures CheckOverflow(s, c) == CheckOverflowUnsigned(s, c)
  {
  }

  /** Asserting in a fresh scope adds exactly one conjunct, and popping it restores the stack. */
  lemma SatInScope(s: BufferSolver, g: Ge)
    ensures Sat(Assert(Push(s), g)) <==> Sat(s) && Holds(g)
    ensures Pop(Assert(Push(s), g)) == s
  {
    var p := Push(s);
    var t := Assert(p, g);
    assert p.scopes[..|p.scopes| - 1] == s.scopes;
    assert p.scopes[|p.scopes| - 1] + [g] == [g];
    assert t.scopes == s.scopes + [[g]];
    assert t.base == s.base;
    if Sat(s) && Holds(g) {
      forall i | 0 <= i < |t.scopes| ensures AllHold(t.scopes[i]) {
        if i < |s.scopes| { assert t.scopes[i] == s.scopes[i]; }
      }
    }
    if Sat(t) {
      assert AllHold(t.scopes[|s.scopes|]);
      assert t.scopes[|s.scopes|][0] == g;
      forall i | 0 <= i < |s.scopes| ensures AllHold(s.scopes[i]) {
        assert t.scopes[i] == s.scopes[i];
      }
    }
  }

  /** Registering buffers never changes a verdict. */
  lemma AddBufferIrrelevant(s: BufferSolver, name: string, size: U64, c: OverflowCandidate)
    ensures CheckOverflow(AddBuffer(s, name, size), c).constraint == CheckOverflow(s, c).constraint
  {
  }

  /** A fresh solver, with any buffers registered, answers exactly `offset >= size` for known nonzero values. */
  lemma RegisteredSolverDecides(names: seq<string>, sizes: seq<U64>, c: OverflowCandidate)
    requires |names| == |sizes|
    requires c.bufferSize.Some? && c.offset.Some?
    requires 0 < c.bufferSize.value < I64Bound && 0 < c.offset.value < I64Bound
    ensures CheckOverflow(Register(NewSolver(), names, sizes), c).constraint.isOverflow
            <==> c.offset.value >= c.bufferSize.value
  {
    RegisterKeepsStack(NewSolver(), names, sizes);
  }

  function Register(s: BufferSolver, names: seq<string>, sizes: seq<U64>): BufferSolver
    requires |names| == |sizes|
    decreases |names|
  {
    if |names| == 0 then s else Register(AddBuffer(s, names[0], sizes[0]), names[1..], sizes[1..])
  }

  lemma {:induction false} RegisterKeepsStack(s: BufferSolver, names: seq<string>, sizes: seq<U64>)
    requires |names| == |sizes|
    ensures Register(s, names, sizes).base == s.base && Register(s, names, sizes).scopes == s.scopes
    decreases |names|
  {
    if |names| > 0 {
      RegisterKeepsStack(AddBuffer(s, names[0], sizes[0]), names[1..], sizes[1..]);
    }
  }

  /** Successive checks are independent: an earlier check leaves nothing behind. */
  lemma ChecksIndependent(s: BufferSolver, c1: OverflowCandidate, c2: OverflowCandidate)
    ensures CheckOverflow(CheckOverflow(s, c1).solver, c2) == CheckOverflow(s, c2)
  {
  }

  /** The candidate the tests build through the older `check_overflow(name, offset)` call. */
  function TestCandidate(name: string, size: U64, offset: U64): OverflowCandidate {
    OverflowCandidate(name, name, PointerOffset, 0, 0, Some(size), Some(offset))
  }

  /** One registered buffer: the test candidate overflows exactly when the offset reaches the size. */
  lemma OneBufferVerdict(name: string, size: U64, offset: U64)
    requires 0 < size < I64Bound && 0 < offset < I64Bound
    ensures CheckOverflow(AddBuffer(NewSolver(), name, size), TestCandidate(name, size, offset)).constraint.isOverflow
            <==> offset >= size
  {
    assert Sat(AddBuffer(NewSolver(), name, size));
  }

  /** Size 10: offset 5 is safe, 15 overflows, 10 overflows (zero-indexed boundary). */
  lemma SingleBufferScenarios()
    ensures !CheckOverflow(AddBuffer(NewSolver(), "safe_buffer", 10), TestCandidate("safe_buffer", 10, 5)).constraint.isOverflow
    ensures CheckOverflow(AddBuffer(NewSolver(), "overflow_buffer", 10), TestCandidate("overflow_buffer", 10, 15)).constraint.isOverflow
    ensures CheckOverflow(AddBuffer(NewSolver(), "edge_buffer", 10), TestCandidate("edge_buffer", 10, 10)).constraint.isOverflow
  {
    OneBufferVerdict("safe_buffer", 10, 5);
    OneBufferVerdict("overflow_buffer", 10, 15);
    OneBufferVerdict("edge_buffer", 10, 10);
  }

  /** Two buffers in one session: size 5 with offset 6 overflows, size 15 with offset 6 does not. */
  lemma TwoBufferScenario()
    ensures var s := AddBuffer(AddBuffer(NewSolver(), "buffer1", 5), "buffer2", 15);
            var first := CheckOverflow(s, TestCandidate("buffer1", 5, 6));
            && first.constraint.isOverflow
            && !CheckOverflow(first.solver, TestCandidate("buffer2", 15, 6)).constraint.isOverflow
  {
    var s := AddBuffer(AddBuffer(NewSolver(), "buffer1", 5), "buffer2", 15);
    assert Sat(s);
    assert CheckOverflow(s, TestCandidate("buffer1", 5, 6)).solver == s;
  }

  /** A literal offset of 0 is reported as an overflow, even into a buffer of size 10. */
  lemma ZeroOffsetIsOverflow(s: BufferSolver)
    ensures CheckOverflow(s, TestCandidate("b", 10, 0)).constraint.isOverflow
  {
  }

  /** An offset of 2^64 - 1 wraps to -1 in the `as i64` cast and is judged in bounds of a
      10-element buffer; the unsigned comparison judges it an overflow. */
  lemma HugeOffsetWraps()
    ensures !CheckOverflow(NewSolver(), TestCandidate("b", 10, 0xFFFF_FFFF_FFFF_FFFF)).constraint.isOverflow
    ensures CheckOverflowUnsigned(NewSolver(), TestCandidate("b", 10, 0xFFFF_FFFF_FFFF_FFFF)).constraint.isOverflow
  {
    SatInScope(NewSolver(), Ge(AsI64(0xFFFF_FFFF_FFFF_FFFF), AsI64(10)));
    assert Sat(NewSolver());
  }
}
