/** The legacy visitor of `src/frontend.rs`: a shallow walk over function
    bodies that records unsafe blocks and `vec!` allocations and writes fixed
    candidates for the `.add(..)` statements directly inside an unsafe block. */
module Frontend {
  import opened Wrappers
  import opened Syntax
  import opened Candidates

  /** What the visitor collected; the block and allocation entries are rendered node text. */
  datatype AnalysisResult = AnalysisResult(
    unsafeBlocks: seq<string>,
    allocations: seq<string>,
    overflowCandidates: seq<OverflowCandidate>)

  const Empty := AnalysisResult([], [], [])

  predicate IsVecMacro(p: seq<string>) {
    p == ["vec"]
  }

  /** A statement that is itself a method call named `add`. */
  predicate IsDirectAdd(s: Stmt) {
    s.ExprStmt? && s.expr.MethodCall? && s.expr.name == "add"
  }

  /** The candidate written for a direct `.add(..)`, whatever the code says. */
  function AddCandidate(call: Expr): OverflowCandidate
    requires call.MethodCall?
  {
    OverflowCandidate(RenderExpr(call), "buffer", PointerOffset, call.pos.line, call.pos.column, Some(10), Some(15))
  }

  /** The candidate written for a `vec!` expression. */
  function AllocationCandidate(m: Expr): OverflowCandidate
    requires m.Macro?
  {
    OverflowCandidate(RenderExpr(m), "vec", Allocation, m.pos.line, m.pos.column, None, None)
  }

  /** Every candidate of this visitor has one of its two fixed shapes. */
  predicate IsLegacyCandidate(c: OverflowCandidate) {
    || (c.operation == PointerOffset && c.bufferName == "buffer" && c.bufferSize == Some(10) && c.offset == Some(15))
    || (c.operation == Allocation && c.bufferName == "vec" && c.bufferSize.None? && c.offset.None?)
  }

  predicate AllLegacy(cs: seq<OverflowCandidate>) {
    forall i :: 0 <= i < |cs| ==> IsLegacyCandidate(cs[i])
  }

  /** `w` is `r` with entries appended to its three lists. */
  ghost predicate Extends(r: AnalysisResult, w: AnalysisResult) {
    && r.unsafeBlocks <= w.unsafeBlocks
    && r.allocations <= w.allocations
    && r.overflowCandidates <= w.overflowCandidates
  }

  function DirectAdds(ss: seq<Stmt>): nat
    decreases ss
  {
    if |ss| == 0 then 0 else (if IsDirectAdd(ss[0]) then 1 else 0) + DirectAdds(ss[1..])
  }

  /** The loop over an unsafe block's own statements (nested blocks are not entered). */
  function ScanUnsafeStmts(ss: seq<Stmt>, st: AnalysisResult): (r: AnalysisResult)
    ensures r.unsafeBlocks == st.unsafeBlocks && r.allocations == st.allocations
    ensures st.overflowCandidates <= r.overflowCandidates
    ensures |r.overflowCandidates| == |st.overflowCandidates| + DirectAdds(ss)
    ensures forall i :: |st.overflowCandidates| <= i < |r.overflowCandidates| ==>
              r.overflowCandidates[i].operation == PointerOffset && IsLegacyCandidate(r.overflowCandidates[i])
    decreases ss
  {
    if |ss| == 0 then st
    else
      var st1 := if IsDirectAdd(ss[0])
                 then st.(overflowCandidates := st.overflowCandidates + [AddCandidate(ss[0].expr)])
                 else st;
      ScanUnsafeStmts(ss[1..], st1)
  }

  /** `visit_expr`: only unsafe blocks and `vec!` macros are looked at, and neither is descended into. */
  function VisitExpr(e: Expr, st: AnalysisResult): (r: AnalysisResult)
    ensures Extends(st, r)
    ensures AllLegacy(st.overflowCandidates) ==> AllLegacy(r.overflowCandidates)
    ensures !e.Unsafe? && !(e.Macro? && IsVecMacro(e.macroPath)) ==> r == st
    ensures |r.unsafeBlocks| == |st.unsafeBlocks| + (if e.Unsafe? then 1 else 0)
    ensures e.Unsafe? ==> r.allocations == st.allocations
                          && |r.overflowCandidates| == |st.overflowCandidates| + DirectAdds(e.stmts)
    ensures e.Macro? && IsVecMacro(e.macroPath) ==>
              && r.allocations == st.allocations + [RenderExpr(e)]
              && r.overflowCandidates == st.overflowCandidates + [AllocationCandidate(e)]
  {
    match e
    case Unsafe(ss, _) =>
      ScanUnsafeStmts(ss, st.(unsafeBlocks := st.unsafeBlocks + [RenderExpr(e)]))
    case Macro(p, _, _) =>
      if IsVecMacro(p) then
        st.(allocations := st.allocations + [RenderExpr(e)],
            overflowCandidates := st.overflowCandidates + [AllocationCandidate(e)])
      else st
    case _ => st
  }

  /** `visit_stmt`: a `vec!` statement is recorded as an allocation but gets no candidate. */
  function VisitStmt(s: Stmt, st: AnalysisResult): (r: AnalysisResult)
    ensures Extends(st, r)
    ensures AllLegacy(st.overflowCandidates) ==> AllLegacy(r.overflowCandidates)
    ensures s.Local? && s.init.None? ==> r == st
    ensures s.MacroStmt? ==> && r.overflowCandidates == st.overflowCandidates
                             && r.unsafeBlocks == st.unsafeBlocks
                             && |r.allocations| == |st.allocations| + (if IsVecMacro(s.macroPath) then 1 else 0)
    decreases s
  {
    match s
    case ItemStmt(it) => VisitItem(it, st)
    case ExprStmt(e, _) => VisitExpr(e, st)
    case Local(_, init) => if init.Some? then VisitExpr(init.value, st) else st
    case MacroStmt(p, _, _) =>
      if IsVecMacro(p) then st.(allocations := st.allocations + [RenderStmt(s)]) else st
  }

  function VisitStmts(ss: seq<Stmt>, st: AnalysisResult): (r: AnalysisResult)
    ensures Extends(st, r)
    ensures AllLegacy(st.overflowCandidates) ==> AllLegacy(r.overflowCandidates)
    decreases ss
  {
    if |ss| == 0 then st else VisitStmts(ss[1..], VisitStmt(ss[0], st))
  }

  /** `visit_item`: only function items are walked. */
  function VisitItem(it: Item, st: AnalysisResult): (r: AnalysisResult)
    ensures Extends(st, r)
    ensures AllLegacy(st.overflowCandidates) ==> AllLegacy(r.overflowCandidates)
    ensures !it.Fn? ==> r == st
    decreases it
  {
    match it
    case Fn(_, body) => VisitStmts(body, st)
    case OtherItem(_, _) => st
  }

  function VisitItems(items: seq<Item>, st: AnalysisResult): (r: AnalysisResult)
    ensures Extends(st, r)
    ensures AllLegacy(st.overflowCandidates) ==> AllLegacy(r.overflowCandidates)
    decreases items
  {
    if |items| == 0 then st else VisitItems(items[1..], VisitItem(items[0], st))
  }

  /** `visit_file` from an empty result (the analysis part of `Frontend::analyze`). */
  function VisitFile(file: File): (r: AnalysisResult)
    ensures AllLegacy(r.overflowCandidates)
    ensures var t := ItemsTally(file);
            |r.unsafeBlocks| == t.unsafeBlocks && |r.allocations| == t.allocations
            && |r.overflowCandidates| == t.candidates
  {
    ItemsCounted(file, Empty);
    VisitItems(file, Empty)
  }

  /** Items are visited left to right. */
  lemma {:induction false} VisitItemsAppend(a: seq<Item>, b: seq<Item>, st: AnalysisResult)
    ensures VisitItems(a + b, st) == VisitItems(b, VisitItems(a, st))
    decreases |a|
  {
    if |a| > 0 {
      assert (a + b)[0] == a[0];
      assert (a + b)[1..] == a[1..] + b;
      VisitItemsAppend(a[1..], b, VisitItem(a[0], st));
    } else {
      assert a + b == b;
    }
  }

  /** How many entries a walk adds to each of the three lists. */
  datatype Tally = Tally(unsafeBlocks: nat, allocations: nat, candidates: nat)

  const NoTally := Tally(0, 0, 0)

  function Plus(a: Tally, b: Tally): Tally {
    Tally(a.unsafeBlocks + b.unsafeBlocks, a.allocations + b.allocations, a.candidates + b.candidates)
  }

  /** `w` has exactly `t` more entries than `r` in each list. */
  predicate Grew(r: AnalysisResult, w: AnalysisResult, t: Tally) {
    && |w.unsafeBlocks| == |r.unsafeBlocks| + t.unsafeBlocks
    && |w.allocations| == |r.allocations| + t.allocations
    && |w.overflowCandidates| == |r.overflowCandidates| + t.candidates
  }

  /** What the visitor should record for an expression it reaches: an unsafe block and its
      direct `add` statements, or a `vec!` allocation with its candidate. */
  function ExprTally(e: Expr): Tally {
    if e.Unsafe? then Tally(1, 0, DirectAdds(e.stmts))
    else if e.Macro? && IsVecMacro(e.macroPath) then Tally(0, 1, 1)
    else NoTally
  }

  /** What a statement should contribute: the expression of an expression statement or of a
      `let` initializer, the body of a function declared as a statement, and one allocation
      for a `vec!` statement. */
  function StmtTally(s: Stmt): Tally
    decreases s
  {
    match s
    case ExprStmt(e, _) => ExprTally(e)
    case Local(_, init) => if init.Some? then ExprTally(init.value) else NoTally
    case ItemStmt(it) => ItemTally(it)
    case MacroStmt(p, _, _) => if IsVecMacro(p) then Tally(0, 1, 0) else NoTally
  }

  function StmtsTally(ss: seq<Stmt>): Tally
    decreases ss
  {
    if |ss| == 0 then NoTally else Plus(StmtTally(ss[0]), StmtsTally(ss[1..]))
  }

  function ItemTally(it: Item): Tally
    decreases it
  {
    if it.Fn? then StmtsTally(it.body) else NoTally
  }

  function ItemsTally(items: seq<Item>): Tally
    decreases items
  {
    if |items| == 0 then NoTally else Plus(ItemTally(items[0]), ItemsTally(items[1..]))
  }

  /** The walk adds exactly the expected entries: `let` initializers and functions declared
      inside a body are walked too. */
  lemma {:induction false} StmtCounted(s: Stmt, st: AnalysisResult)
    ensures Grew(st, VisitStmt(s, st), StmtTally(s))
    decreases s
  {
    match s
    case ExprStmt(e, _) =>
    case Local(_, init) =>
    case ItemStmt(it) => ItemCounted(it, st);
    case MacroStmt(_, _, _) =>
  }

  lemma {:induction false} StmtsCounted(ss: seq<Stmt>, st: AnalysisResult)
    ensures Grew(st, VisitStmts(ss, st), StmtsTally(ss))
    decreases ss
  {
    if |ss| > 0 {
      StmtCounted(ss[0], st);
      StmtsCounted(ss[1..], VisitStmt(ss[0], st));
    }
  }

  lemma {:induction false} ItemCounted(it: Item, st: AnalysisResult)
    ensures Grew(st, VisitItem(it, st), ItemTally(it))
    decreases it
  {
    if it.Fn? {
      StmtsCounted(it.body, st);
    }
  }

  lemma {:induction false} ItemsCounted(items: seq<Item>, st: AnalysisResult)
    ensures Grew(st, VisitItems(items, st), ItemsTally(items))
    decreases items
  {
    if |items| > 0 {
      ItemCounted(items[0], st);
      ItemsCounted(items[1..], VisitItem(items[0], st));
    }
  }

  /** An unsafe block reached only through an `if`, a loop or an assignment is never seen. */
  lemma NestedUnsafeUnseen(e: Expr, st: AnalysisResult)
    requires e.If? || e.Loop? || e.Block? || e.Other?
    ensures VisitStmt(ExprStmt(e, true), st) == st
  {
  }
}
