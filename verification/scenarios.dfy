/** The detectors on small concrete programs. */
module Scenarios {
  import opened Wrappers
  import opened Text
  import opened Syntax
  import opened Candidates
  import Analyzer
  import Frontend

  /** `let <x> = vec![0u8; 10];` */
  function LetVec(x: string, line: nat): Stmt {
    Local(IdentPat(x), Some(Macro(["vec"], "0u8 ; 10", Pos(line, 22))))
  }

  /** `let <p> = <b>.as_mut_ptr();` */
  function LetPtr(p: string, b: string, line: nat): Stmt {
    Local(IdentPat(p), Some(MethodCall(Path([b]), "as_mut_ptr", Pos(line, 25), [], Pos(line, 18))))
  }

  /** `*<p>.add(<k>) = 42;` */
  function WriteAt(p: string, k: string, line: nat): Stmt {
    ExprStmt(Other("assign", [Unary("*", MethodCall(Path([p]), "add", Pos(line, 13), [Lit(k)], Pos(line, 9))),
                              Lit("42")]), true)
  }

  /** `<p>.add(<k>);` as a statement of its own. */
  function BareAdd(p: string, k: string, line: nat): Stmt {
    ExprStmt(MethodCall(Path([p]), "add", Pos(line, 12), [Lit(k)], Pos(line, 8)), true)
  }

  // One step of the analyzer's walk for each statement shape above.

  lemma AnalyzerLetVec(x: string, line: nat, v: Analyzer.OverflowVisitor)
    ensures Analyzer.VisitStmt(LetVec(x, line), v) == v.(pointers := v.pointers[x := Analyzer.PointerInfo(x, false)])
  {
    assert Analyzer.IsVecPath(["vec"]) by { assert ["vec"][0] == "vec"; }
  }

  lemma AnalyzerLetPtr(p: string, b: string, line: nat, v: Analyzer.OverflowVisitor)
    ensures Analyzer.VisitStmt(LetPtr(p, b, line), v) == v.(pointers := v.pointers[p := Analyzer.PointerInfo(b, true)])
  {
    var init := MethodCall(Path([b]), "as_mut_ptr", Pos(line, 25), [], Pos(line, 18));
    var bound := v.(pointers := v.pointers[p := Analyzer.PointerInfo(b, true)]);
    assert !Analyzer.IsBufferInit(init);
    assert Analyzer.PointerOrigin(init) == Some(b);
    assert Analyzer.OnMethodCall(bound, init) == bound;
    assert Analyzer.VisitExpr(Path([b]), bound) == bound;
    assert Analyzer.VisitExprs([], bound) == bound;
  }

  lemma AnalyzerWriteAt(p: string, k: string, line: nat, v: Analyzer.OverflowVisitor)
    ensures p in v.pointers ==>
              Analyzer.VisitStmt(WriteAt(p, k, line), v)
              == v.(candidates := v.candidates + [OverflowCandidate(v.currentFunction + ":" + NatToString(line),
                                                                   v.pointers[p].bufferName, PointerOffset, line, 13, None, None)])
    ensures p !in v.pointers ==> Analyzer.VisitStmt(WriteAt(p, k, line), v) == v
  {
    var call := MethodCall(Path([p]), "add", Pos(line, 13), [Lit(k)], Pos(line, 9));
    var v0 := Analyzer.OnMethodCall(v, call);
    assert Analyzer.VisitExpr(Path([p]), v0) == v0;
    assert Analyzer.VisitExprs([Lit(k)], v0) == v0 by {
      assert Analyzer.VisitExpr(Lit(k), v0) == v0;
      assert [Lit(k)][1..] == [];
    }
    assert Analyzer.VisitExpr(call, v) == v0;
    assert Analyzer.VisitExpr(Unary("*", call), v) == v0;
    var ops := [Unary("*", call), Lit("42")];
    assert ops[1..] == [Lit("42")] && [Lit("42")][1..] == [];
    assert Analyzer.VisitExprs(ops, v) == v0;
  }

  lemma AnalyzerOne(a: Stmt, v: Analyzer.OverflowVisitor)
    ensures Analyzer.VisitStmts([a], v) == Analyzer.VisitStmt(a, v)
  {
    var ss := [a];
    assert ss[0] == a && ss[1..] == [];
    var w := Analyzer.VisitStmt(a, v);
    assert Analyzer.VisitStmts(ss, v) == Analyzer.VisitStmts([], w);
  }

  lemma AnalyzerTwo(a: Stmt, b: Stmt, v: Analyzer.OverflowVisitor)
    ensures Analyzer.VisitStmts([a, b], v) == Analyzer.VisitStmt(b, Analyzer.VisitStmt(a, v))
  {
    var ss := [a, b];
    assert ss[0] == a && ss[1..] == [b];
    var w := Analyzer.VisitStmt(a, v);
    assert Analyzer.VisitStmts(ss, v) == Analyzer.VisitStmts([b], w);
    AnalyzerOne(b, w);
  }

  lemma AnalyzerThree(a: Stmt, b: Stmt, c: Stmt, v: Analyzer.OverflowVisitor)
    ensures Analyzer.VisitStmts([a, b, c], v) == Analyzer.VisitStmt(c, Analyzer.VisitStmt(b, Analyzer.VisitStmt(a, v)))
  {
    var ss := [a, b, c];
    assert ss[0] == a && ss[1..] == [b, c];
    var w := Analyzer.VisitStmt(a, v);
    assert Analyzer.VisitStmts(ss, v) == Analyzer.VisitStmts([b, c], w);
    AnalyzerTwo(b, c, w);
  }

  lemma AnalyzerOneFn(name: string, body: seq<Stmt>)
    ensures Analyzer.FindBufferOverflows([Fn(name, body)])
            == Analyzer.VisitStmts(body, Analyzer.Fresh.(currentFunction := name)).candidates
  {
    var file := [Fn(name, body)];
    assert file[0] == Fn(name, body) && file[1..] == [];
    assert Analyzer.VisitItems(file, Analyzer.Fresh) == Analyzer.VisitItems([], Analyzer.VisitItem(Fn(name, body), Analyzer.Fresh));
  }

  /** The program of the validator's own test, for any names: a vector, a pointer into it inside
      an unsafe block, one write through the pointer. The write is reported against the vector. */
  lemma AnalyzerFindsWriteThroughPointer(f: string, buf: string, ptr: string, k: string, l1: nat, l2: nat, l3: nat, at: Pos)
    ensures Analyzer.FindBufferOverflows([Fn(f, [LetVec(buf, l1),
                                                 ExprStmt(Unsafe([LetPtr(ptr, buf, l2), WriteAt(ptr, k, l3)], at), false)])])
            == [OverflowCandidate(f + ":" + NatToString(l3), buf, PointerOffset, l3, 13, None, None)]
  {
    var block := Unsafe([LetPtr(ptr, buf, l2), WriteAt(ptr, k, l3)], at);
    var v0 := Analyzer.Fresh.(currentFunction := f);
    AnalyzerOneFn(f, [LetVec(buf, l1), ExprStmt(block, false)]);
    AnalyzerTwo(LetVec(buf, l1), ExprStmt(block, false), v0);
    AnalyzerLetVec(buf, l1, v0);
    var v1 := Analyzer.VisitStmt(LetVec(buf, l1), v0);
    AnalyzerTwo(LetPtr(ptr, buf, l2), WriteAt(ptr, k, l3), v1);
    AnalyzerLetPtr(ptr, buf, l2, v1);
    var v2 := Analyzer.VisitStmt(LetPtr(ptr, buf, l2), v1);
    AnalyzerWriteAt(ptr, k, l3, v2);
  }

  /** A use before its `let` finds no binding. */
  lemma UseBeforeLetFindsNothing(f: string, buf: string, ptr: string, k: string, l1: nat, l2: nat, l3: nat)
    ensures Analyzer.FindBufferOverflows([Fn(f, [WriteAt(ptr, k, l1), LetVec(buf, l2), LetPtr(ptr, buf, l3)])]) == []
  {
    var v0 := Analyzer.Fresh.(currentFunction := f);
    AnalyzerOneFn(f, [WriteAt(ptr, k, l1), LetVec(buf, l2), LetPtr(ptr, buf, l3)]);
    AnalyzerThree(WriteAt(ptr, k, l1), LetVec(buf, l2), LetPtr(ptr, buf, l3), v0);
    AnalyzerWriteAt(ptr, k, l1, v0);
    AnalyzerLetVec(buf, l2, v0);
    AnalyzerLetPtr(ptr, buf, l3, Analyzer.VisitStmt(LetVec(buf, l2), v0));
  }

  /** Bindings outlive the function that made them: a pointer bound in `f` is still known in `g`,
      and the candidate is located in `g`. */
  lemma BindingsOutliveFunctions(f: string, g: string, buf: string, ptr: string, k: string, l1: nat, l2: nat, l3: nat)
    ensures Analyzer.FindBufferOverflows([Fn(f, [LetVec(buf, l1), LetPtr(ptr, buf, l2)]),
                                          Fn(g, [WriteAt(ptr, k, l3)])])
            == [OverflowCandidate(g + ":" + NatToString(l3), buf, PointerOffset, l3, 13, None, None)]
  {
    var fi := Fn(f, [LetVec(buf, l1), LetPtr(ptr, buf, l2)]);
    var gi := Fn(g, [WriteAt(ptr, k, l3)]);
    var file := [fi, gi];
    assert file[0] == fi && file[1..] == [gi] && [gi][0] == gi && [gi][1..] == [];
    var v0 := Analyzer.Fresh.(currentFunction := f);
    AnalyzerTwo(LetVec(buf, l1), LetPtr(ptr, buf, l2), v0);
    AnalyzerLetVec(buf, l1, v0);
    AnalyzerLetPtr(ptr, buf, l2, Analyzer.VisitStmt(LetVec(buf, l1), v0));
    var v1 := Analyzer.VisitItem(fi, Analyzer.Fresh);
    assert v1.candidates == [] && ptr in v1.pointers && v1.pointers[ptr] == Analyzer.PointerInfo(buf, true);
    var w := v1.(currentFunction := g);
    AnalyzerWriteAt(ptr, k, l3, w);
    AnalyzerOne(WriteAt(ptr, k, l3), w);
    assert Analyzer.VisitItem(gi, v1) == Analyzer.VisitStmt(WriteAt(ptr, k, l3), w);
    assert Analyzer.VisitItems(file, Analyzer.Fresh) == Analyzer.VisitItems([], Analyzer.VisitItem(gi, v1));
  }

  /** The older visitor on `fn main() { unsafe { <ss> } }`: the block is recorded and its own
      statements scanned. */
  lemma FrontendOneUnsafe(ss: seq<Stmt>, at: Pos)
    ensures Frontend.VisitFile([Fn("main", [ExprStmt(Unsafe(ss, at), false)])])
            == Frontend.ScanUnsafeStmts(ss, Frontend.Empty.(unsafeBlocks := [RenderExpr(Unsafe(ss, at))]))
  {
    var body := [ExprStmt(Unsafe(ss, at), false)];
    var r := Frontend.VisitExpr(Unsafe(ss, at), Frontend.Empty);
    assert Frontend.Empty.unsafeBlocks + [RenderExpr(Unsafe(ss, at))] == [RenderExpr(Unsafe(ss, at))];
    assert r == Frontend.ScanUnsafeStmts(ss, Frontend.Empty.(unsafeBlocks := [RenderExpr(Unsafe(ss, at))]));
    assert Frontend.VisitStmt(body[0], Frontend.Empty) == r;
    assert body[1..] == [];
    assert [Fn("main", body)][1..] == [];
    assert Frontend.VisitStmts(body, Frontend.Empty) == Frontend.VisitStmts([], r);
    assert Frontend.VisitItems([Fn("main", body)], Frontend.Empty) == Frontend.VisitItems([], r);
  }

  /** The older visitor sees only `.add` calls that are whole statements of an unsafe block:
      `*ptr.add(8) = 42;` is an assignment and yields no candidate, `ptr.add(8);` yields the fixed one. */
  lemma FrontendSeesOnlyBareAdds()
    ensures Frontend.VisitFile([Fn("main", [ExprStmt(Unsafe([WriteAt("ptr", "8", 3)], Pos(2, 4)), false)])])
              .overflowCandidates == []
    ensures var r := Frontend.VisitFile([Fn("main", [ExprStmt(Unsafe([BareAdd("ptr", "8", 3)], Pos(2, 4)), false)])]);
            |r.overflowCandidates| == 1
            && r.overflowCandidates[0].bufferSize == Some(10) && r.overflowCandidates[0].offset == Some(15)
            && r.overflowCandidates[0].line == 3 && r.overflowCandidates[0].column == 8
            && |r.unsafeBlocks| == 1
  {
    FrontendOneUnsafe([WriteAt("ptr", "8", 3)], Pos(2, 4));
    FrontendOneUnsafe([BareAdd("ptr", "8", 3)], Pos(2, 4));
    assert [BareAdd("ptr", "8", 3)][1..] == [];
    assert [WriteAt("ptr", "8", 3)][1..] == [];
  }

  /** The statement `loop { unsafe { *<p>.add(<k>) = 42; } }`. */
  function LoopedWrite(p: string, k: string, line: nat, at: Pos): Stmt {
    ExprStmt(Loop("loop", [], [ExprStmt(Unsafe([WriteAt(p, k, line)], at), false)]), false)
  }

  lemma AnalyzerLoopedWrite(p: string, k: string, line: nat, at: Pos, v: Analyzer.OverflowVisitor)
    ensures Analyzer.VisitStmt(LoopedWrite(p, k, line, at), v) == Analyzer.VisitStmt(WriteAt(p, k, line), v)
  {
    var inner := ExprStmt(Unsafe([WriteAt(p, k, line)], at), false);
    var w := Analyzer.VisitStmt(WriteAt(p, k, line), v);
    AnalyzerOne(WriteAt(p, k, line), v);
    assert Analyzer.VisitExpr(Unsafe([WriteAt(p, k, line)], at), v) == w;
    AnalyzerOne(inner, v);
    assert Analyzer.VisitExprs([], v) == v;
  }

  /** An unsafe block inside a loop is not seen by the older visitor, but the write in it is by the analyzer. */
  lemma NestedUnsafeSeenOnlyByAnalyzer(f: string, buf: string, ptr: string, k: string, l1: nat, l2: nat, l3: nat, at: Pos)
    ensures var file := [Fn(f, [LetVec(buf, l1), LetPtr(ptr, buf, l2), LoopedWrite(ptr, k, l3, at)])];
            && Frontend.VisitFile(file).unsafeBlocks == []
            && Analyzer.FindBufferOverflows(file)
               == [OverflowCandidate(f + ":" + NatToString(l3), buf, PointerOffset, l3, 13, None, None)]
  {
    NestedUnsafeUnseen(f, buf, ptr, k, l1, l2, l3, at);
    var body := [LetVec(buf, l1), LetPtr(ptr, buf, l2), LoopedWrite(ptr, k, l3, at)];
    var v0 := Analyzer.Fresh.(currentFunction := f);
    AnalyzerOneFn(f, body);
    AnalyzerThree(LetVec(buf, l1), LetPtr(ptr, buf, l2), LoopedWrite(ptr, k, l3, at), v0);
    AnalyzerLetVec(buf, l1, v0);
    var v1 := Analyzer.VisitStmt(LetVec(buf, l1), v0);
    AnalyzerLetPtr(ptr, buf, l2, v1);
    var v2 := Analyzer.VisitStmt(LetPtr(ptr, buf, l2), v1);
    AnalyzerWriteAt(ptr, k, l3, v2);
    AnalyzerLoopedWrite(ptr, k, l3, at, v2);
  }

  lemma NestedUnsafeUnseen(f: string, buf: string, ptr: string, k: string, l1: nat, l2: nat, l3: nat, at: Pos)
    ensures Frontend.VisitFile([Fn(f, [LetVec(buf, l1), LetPtr(ptr, buf, l2), LoopedWrite(ptr, k, l3, at)])]).unsafeBlocks == []
  {
    var body := [LetVec(buf, l1), LetPtr(ptr, buf, l2), LoopedWrite(ptr, k, l3, at)];
    FrontendThree(LetVec(buf, l1), LetPtr(ptr, buf, l2), LoopedWrite(ptr, k, l3, at));
    var file := [Fn(f, body)];
    assert file[0] == Fn(f, body) && file[1..] == [];
    var r := Frontend.VisitItem(Fn(f, body), Frontend.Empty);
    assert r == Frontend.VisitStmts(body, Frontend.Empty);
    assert Frontend.VisitItems(file, Frontend.Empty) == Frontend.VisitItems([], r);
  }

  lemma FrontendThree(a: Stmt, b: Stmt, c: Stmt)
    requires a.Local? && a.init.Some? && !a.init.value.Unsafe?
    requires b.Local? && b.init.Some? && !b.init.value.Unsafe?
    requires c.ExprStmt? && c.expr.Loop?
    ensures Frontend.VisitStmts([a, b, c], Frontend.Empty).unsafeBlocks == []
  {
    var e0 := Frontend.Empty;
    var e1 := Frontend.VisitStmt(a, e0);
    var e2 := Frontend.VisitStmt(b, e1);
    assert e2.unsafeBlocks == [];
    assert Frontend.VisitStmt(c, e2) == e2;
    var ss := [a, b, c];
    assert ss[0] == a && ss[1..] == [b, c];
    assert Frontend.VisitStmts(ss, e0) == Frontend.VisitStmts([b, c], e1);
    assert [b, c][0] == b && [b, c][1..] == [c];
    assert Frontend.VisitStmts([b, c], e1) == Frontend.VisitStmts([c], e2);
    assert [c][0] == c && [c][1..] == [];
    assert Frontend.VisitStmts([c], e2) == Frontend.VisitStmts([], e2);
  }
}
