/** The tree analyzer of `src/analyzer.rs`: one pre-order walk over the
    whole file that keeps a name-to-origin map and reports every `.add(..)`
    called on a name in that map. */
module Analyzer {
  import opened Wrappers
  import opened Text
  import opened Syntax
  import opened Candidates

  /** What a recorded name stands for: the buffer it came from, and whether it is a raw pointer. */
  datatype PointerInfo = PointerInfo(bufferName: string, isPtr: bool)

  /** The visitor's state, threaded through the walk. The map is never cleared. */
  datatype OverflowVisitor = OverflowVisitor(
    candidates: seq<OverflowCandidate>,
    pointers: map<string, PointerInfo>,
    currentFunction: string)

  const Fresh := OverflowVisitor([], map[], "")

  /** Some segment of the path is `vec` or `Vec` (`Vec::new`, `Vec::with_capacity`, `vec::from_elem`, ...). */
  predicate IsVecPath(segs: seq<string>) {
    exists i :: 0 <= i < |segs| && (segs[i] == "vec" || segs[i] == "Vec")
  }

  /** An initializer that makes the bound name a buffer: `vec![..]`, or a call through a `vec`/`Vec` path. */
  predicate IsBufferInit(e: Expr) {
    || (e.Macro? && e.macroPath == ["vec"])
    || (e.Call? && e.func.Path? && IsVecPath(e.func.segments))
  }

  /** The receiver name of `b.as_ptr()` / `b.as_mut_ptr()`, when `b` is a plain identifier. */
  function PointerOrigin(e: Expr): (r: Option<string>)
    ensures r.Some? ==> && e.MethodCall? && (e.name == "as_ptr" || e.name == "as_mut_ptr")
                        && e.receiver.Path? && |e.receiver.segments| == 1
    ensures e.MethodCall? && (e.name == "as_ptr" || e.name == "as_mut_ptr")
            && e.receiver.Path? && |e.receiver.segments| == 1 ==>
              r == Some(e.receiver.segments[0])
  {
    if e.MethodCall? && (e.name == "as_mut_ptr" || e.name == "as_ptr") then PathIdent(e.receiver) else None
  }

  /** Every entry that is not a pointer names itself as its buffer. */
  ghost predicate BuffersNameThemselves(m: map<string, PointerInfo>) {
    forall k :: k in m && !m[k].isPtr ==> m[k].bufferName == k
  }

  /** The map agrees with `m` everywhere except perhaps at `x`. */
  ghost predicate SameExcept(m: map<string, PointerInfo>, r: map<string, PointerInfo>, x: string) {
    && (forall k :: k in m && k != x ==> k in r && r[k] == m[k])
    && (forall k :: k in r && k != x ==> k in m)
  }

  function BoundName(p: Pat): string {
    if p.IdentPat? then p.name else ""
  }

  /** The recording half of `visit_local`: what a `let` adds to the map. */
  function BindLocal(m: map<string, PointerInfo>, pat: Pat, init: Option<Expr>): (r: map<string, PointerInfo>)
    ensures SameExcept(m, r, BoundName(pat))
    ensures m.Keys <= r.Keys
    ensures r != m ==> pat.IdentPat? && init.Some? && (IsBufferInit(init.value) || PointerOrigin(init.value).Some?)
    ensures pat.IdentPat? && init.Some? && IsBufferInit(init.value) ==>
              pat.name in r && r[pat.name] == PointerInfo(pat.name, false)
    ensures pat.IdentPat? && init.Some? && PointerOrigin(init.value).Some? ==>
              pat.name in r && r[pat.name] == PointerInfo(PointerOrigin(init.value).value, true)
    ensures BuffersNameThemselves(m) ==> BuffersNameThemselves(r)
  {
    match pat
    case IdentPat(x) =>
      if init.None? then m
      else if IsBufferInit(init.value) then m[x := PointerInfo(x, false)]
      else if PointerOrigin(init.value).Some? then m[x := PointerInfo(PointerOrigin(init.value).value, true)]
      else m
    case _ => m
  }

  /** A candidate as the tree analyzer writes it: a pointer offset with no size or offset known. */
  predicate IsAnalyzerCandidate(c: OverflowCandidate) {
    c.operation == PointerOffset && c.bufferSize.None? && c.offset.None?
  }

  predicate AllAnalyzerCandidates(cs: seq<OverflowCandidate>) {
    forall i :: 0 <= i < |cs| ==> IsAnalyzerCandidate(cs[i])
  }

  /** `w` is `v` after more of the walk: candidates only appended, map keys only added. */
  ghost predicate Extends(v: OverflowVisitor, w: OverflowVisitor) {
    && v.candidates <= w.candidates
    && v.pointers.Keys <= w.pointers.Keys
  }

  /** The invariant every visited state keeps. */
  ghost predicate Good(v: OverflowVisitor) {
    BuffersNameThemselves(v.pointers) && AllAnalyzerCandidates(v.candidates)
  }

  /** The check half of `visit_expr_method_call`, done before receiver and arguments are walked. */
  function OnMethodCall(v: OverflowVisitor, e: Expr): (r: OverflowVisitor)
    requires e.MethodCall?
    ensures r.pointers == v.pointers && r.currentFunction == v.currentFunction
    ensures Extends(v, r) && |r.candidates| <= |v.candidates| + 1
    ensures |r.candidates| == |v.candidates| + 1 <==>
              e.name == "add" && PathIdent(e.receiver).Some? && PathIdent(e.receiver).value in v.pointers
    ensures |r.candidates| == |v.candidates| + 1 ==>
              r.candidates[|v.candidates|] == OverflowCandidate(
                v.currentFunction + ":" + NatToString(e.methodPos.line),
                v.pointers[e.receiver.segments[0]].bufferName,
                PointerOffset, e.methodPos.line, e.methodPos.column, None, None)
    ensures Good(v) ==> Good(r)
  {
    if e.name == "add" && PathIdent(e.receiver).Some? && PathIdent(e.receiver).value in v.pointers then
      var info := v.pointers[PathIdent(e.receiver).value];
      var c := OverflowCandidate(
        v.currentFunction + ":" + NatToString(e.methodPos.line),
        info.bufferName, PointerOffset, e.methodPos.line, e.methodPos.column, None, None);
      v.(candidates := v.candidates + [c])
    else v
  }

  // Number of `.add(..)` method calls anywhere in a node, whatever their receiver.

  function AddCallsExpr(e: Expr): nat
    decreases e
  {
    match e
    case Lit(_) => 0
    case Path(_) => 0
    case Macro(_, _, _) => 0
    case Call(f, args) => AddCallsExpr(f) + AddCallsExprs(args)
    case MethodCall(r, m, _, args, _) => (if m == "add" then 1 else 0) + AddCallsExpr(r) + AddCallsExprs(args)
    case Binary(l, _, r) => AddCallsExpr(l) + AddCallsExpr(r)
    case Unary(_, x) => AddCallsExpr(x)
    case Field(x, _) => AddCallsExpr(x)
    case Try(x) => AddCallsExpr(x)
    case Unsafe(ss, _) => AddCallsStmts(ss)
    case Block(ss) => AddCallsStmts(ss)
    case If(c, t, els) => AddCallsExpr(c) + AddCallsStmts(t) + AddCallsExprs(els)
    case Loop(_, h, b) => AddCallsExprs(h) + AddCallsStmts(b)
    case Other(_, ops) => AddCallsExprs(ops)
  }

  function AddCallsExprs(es: seq<Expr>): nat
    decreases es
  {
    if |es| == 0 then 0 else AddCallsExpr(es[0]) + AddCallsExprs(es[1..])
  }

  function AddCallsStmt(s: Stmt): nat
    decreases s
  {
    match s
    case Local(_, init) => if init.Some? then AddCallsExpr(init.value) else 0
    case ExprStmt(e, _) => AddCallsExpr(e)
    case ItemStmt(it) => AddCallsItem(it)
    case MacroStmt(_, _, _) => 0
  }

  function AddCallsStmts(ss: seq<Stmt>): nat
    decreases ss
  {
    if |ss| == 0 then 0 else AddCallsStmt(ss[0]) + AddCallsStmts(ss[1..])
  }

  function AddCallsItem(it: Item): nat
    decreases it
  {
    AddCallsStmts(it.body)
  }

  function AddCallsItems(items: seq<Item>): nat
    decreases items
  {
    if |items| == 0 then 0 else AddCallsItem(items[0]) + AddCallsItems(items[1..])
  }

  // The walk. Each function returns the visitor after the node, in `syn`'s visiting order.

  function VisitExpr(e: Expr, v: OverflowVisitor): (r: OverflowVisitor)
    ensures Extends(v, r)
    ensures Good(v) ==> Good(r)
    decreases e
  {
    match e
    case Lit(_) => v
    case Path(_) => v
    case Macro(_, _, _) => v
    case Call(f, args) =>
      var v1 := VisitExpr(f, v);
      VisitExprs(args, v1)
    case MethodCall(recv, _, _, args, _) =>
      var v0 := OnMethodCall(v, e);
      var v1 := VisitExpr(recv, v0);
      VisitExprs(args, v1)
    case Binary(l, _, rt) =>
      var v1 := VisitExpr(l, v);
      VisitExpr(rt, v1)
    case Unary(_, x) => VisitExpr(x, v)
    case Field(x, _) => VisitExpr(x, v)
    case Try(x) => VisitExpr(x, v)
    case Unsafe(ss, _) => VisitStmts(ss, v)
    case Block(ss) => VisitStmts(ss, v)
    case If(c, t, els) =>
      var v1 := VisitExpr(c, v);
      var v2 := VisitStmts(t, v1);
      VisitExprs(els, v2)
    case Loop(_, h, b) =>
      var v1 := VisitExprs(h, v);
      VisitStmts(b, v1)
    case Other(_, ops) => VisitExprs(ops, v)
  }

  function VisitExprs(es: seq<Expr>, v: OverflowVisitor): (r: OverflowVisitor)
    ensures Extends(v, r)
    ensures Good(v) ==> Good(r)
    decreases es
  {
    if |es| == 0 then v else VisitExprs(es[1..], VisitExpr(es[0], v))
  }

  /** `visit_local` records the binding first, then walks the initializer. */
  function VisitStmt(s: Stmt, v: OverflowVisitor): (r: OverflowVisitor)
    ensures Extends(v, r)
    ensures Good(v) ==> Good(r)
    decreases s
  {
    match s
    case Local(p, init) =>
      var bound := v.(pointers := BindLocal(v.pointers, p, init));
      if init.Some? then VisitExpr(init.value, bound) else bound
    case ExprStmt(e, _) => VisitExpr(e, v)
    case ItemStmt(it) => VisitItem(it, v)
    case MacroStmt(_, _, _) => v
  }

  function VisitStmts(ss: seq<Stmt>, v: OverflowVisitor): (r: OverflowVisitor)
    ensures Extends(v, r)
    ensures Good(v) ==> Good(r)
    decreases ss
  {
    if |ss| == 0 then v else VisitStmts(ss[1..], VisitStmt(ss[0], v))
  }

  /** `visit_item_fn` overwrites the current function name and never restores it. */
  function VisitItem(it: Item, v: OverflowVisitor): (r: OverflowVisitor)
    ensures Extends(v, r)
    ensures Good(v) ==> Good(r)
    decreases it
  {
    match it
    case Fn(name, body) => VisitStmts(body, v.(currentFunction := name))
    case OtherItem(_, body) => VisitStmts(body, v)
  }

  function VisitItems(items: seq<Item>, v: OverflowVisitor): (r: OverflowVisitor)
    ensures Extends(v, r)
    ensures Good(v) ==> Good(r)
    decreases items
  {
    if |items| == 0 then v else VisitItems(items[1..], VisitItem(items[0], v))
  }

  /** `find_buffer_overflows`: every candidate is a pointer offset with unknown size and offset,
      and there are at most as many as there are `.add(..)` calls in the file. When the items
      after the first `k` call `.add(..)` only on names the first `k` items bound, every one of
      those calls is reported. */
  function FindBufferOverflows(file: File): (r: seq<OverflowCandidate>)
    ensures AllAnalyzerCandidates(r)
    ensures |r| <= AddCallsItems(file)
    ensures forall k :: 0 <= k <= |file| && AddsOnItems(file[k..], VisitItems(file[..k], Fresh).pointers.Keys) ==>
              |r| == |VisitItems(file[..k], Fresh).candidates| + AddCallsItems(file[k..])
  {
    ItemsBound(file, Fresh);
    BoundAddsReported(file);
    VisitItems(file, Fresh).candidates
  }

  lemma BoundAddsReported(file: File)
    ensures forall k :: 0 <= k <= |file| && AddsOnItems(file[k..], VisitItems(file[..k], Fresh).pointers.Keys) ==>
              |VisitItems(file, Fresh).candidates| == |VisitItems(file[..k], Fresh).candidates| + AddCallsItems(file[k..])
  {
    forall k | 0 <= k <= |file| && AddsOnItems(file[k..], VisitItems(file[..k], Fresh).pointers.Keys)
      ensures |VisitItems(file, Fresh).candidates| == |VisitItems(file[..k], Fresh).candidates| + AddCallsItems(file[k..])
    {
      var v := VisitItems(file[..k], Fresh);
      VisitItemsAppend(file[..k], file[k..], Fresh);
      assert file[..k] + file[k..] == file;
      ItemsExact(file[k..], v, v.pointers.Keys);
    }
  }

  // Every `.add(..)` call in a node is made on a plain identifier from `keys`.

  predicate AddsOnExpr(e: Expr, keys: set<string>)
    decreases e
  {
    match e
    case Lit(_) => true
    case Path(_) => true
    case Macro(_, _, _) => true
    case Call(f, args) => AddsOnExpr(f, keys) && AddsOnExprs(args, keys)
    case MethodCall(r, m, _, args, _) =>
      && (m == "add" ==> r.Path? && |r.segments| == 1 && r.segments[0] in keys)
      && AddsOnExpr(r, keys) && AddsOnExprs(args, keys)
    case Binary(l, _, r) => AddsOnExpr(l, keys) && AddsOnExpr(r, keys)
    case Unary(_, x) => AddsOnExpr(x, keys)
    case Field(x, _) => AddsOnExpr(x, keys)
    case Try(x) => AddsOnExpr(x, keys)
    case Unsafe(ss, _) => AddsOnStmts(ss, keys)
    case Block(ss) => AddsOnStmts(ss, keys)
    case If(c, t, els) => AddsOnExpr(c, keys) && AddsOnStmts(t, keys) && AddsOnExprs(els, keys)
    case Loop(_, h, b) => AddsOnExprs(h, keys) && AddsOnStmts(b, keys)
    case Other(_, ops) => AddsOnExprs(ops, keys)
  }

  predicate AddsOnExprs(es: seq<Expr>, keys: set<string>)
    decreases es
  {
    |es| == 0 || (AddsOnExpr(es[0], keys) && AddsOnExprs(es[1..], keys))
  }

  predicate AddsOnStmt(s: Stmt, keys: set<string>)
    decreases s
  {
    match s
    case Local(_, init) => init.None? || AddsOnExpr(init.value, keys)
    case ExprStmt(e, _) => AddsOnExpr(e, keys)
    case ItemStmt(it) => AddsOnItem(it, keys)
    case MacroStmt(_, _, _) => true
  }

  predicate AddsOnStmts(ss: seq<Stmt>, keys: set<string>)
    decreases ss
  {
    |ss| == 0 || (AddsOnStmt(ss[0], keys) && AddsOnStmts(ss[1..], keys))
  }

  predicate AddsOnItem(it: Item, keys: set<string>)
    decreases it
  {
    AddsOnStmts(it.body, keys)
  }

  predicate AddsOnItems(items: seq<Item>, keys: set<string>)
    decreases items
  {
    |items| == 0 || (AddsOnItem(items[0], keys) && AddsOnItems(items[1..], keys))
  }

  // Map keys are never removed, so an `.add(..)` on a name already in the map is reported
  // wherever it sits: a node whose `.add(..)` calls all use such names adds exactly one
  // candidate per call.

  lemma {:induction false} ExprExact(e: Expr, v: OverflowVisitor, keys: set<string>)
    requires keys <= v.pointers.Keys && AddsOnExpr(e, keys)
    ensures |VisitExpr(e, v).candidates| == |v.candidates| + AddCallsExpr(e)
    decreases e
  {
    match e
    case Lit(_) =>
    case Path(_) =>
    case Macro(_, _, _) =>
    case Call(f, args) =>
      ExprExact(f, v, keys);
      ExprsExact(args, VisitExpr(f, v), keys);
    case MethodCall(recv, _, _, args, _) =>
      var v0 := OnMethodCall(v, e);
      ExprExact(recv, v0, keys);
      ExprsExact(args, VisitExpr(recv, v0), keys);
    case Binary(l, _, rt) =>
      ExprExact(l, v, keys);
      ExprExact(rt, VisitExpr(l, v), keys);
    case Unary(_, x) => ExprExact(x, v, keys);
    case Field(x, _) => ExprExact(x, v, keys);
    case Try(x) => ExprExact(x, v, keys);
    case Unsafe(ss, _) => StmtsExact(ss, v, keys);
    case Block(ss) => StmtsExact(ss, v, keys);
    case If(c, t, els) =>
      ExprExact(c, v, keys);
      var v1 := VisitExpr(c, v);
      StmtsExact(t, v1, keys);
      ExprsExact(els, VisitStmts(t, v1), keys);
    case Loop(_, h, b) =>
      ExprsExact(h, v, keys);
      StmtsExact(b, VisitExprs(h, v), keys);
    case Other(_, ops) => ExprsExact(ops, v, keys);
  }

  lemma {:induction false} ExprsExact(es: seq<Expr>, v: OverflowVisitor, keys: set<string>)
    requires keys <= v.pointers.Keys && AddsOnExprs(es, keys)
    ensures |VisitExprs(es, v).candidates| == |v.candidates| + AddCallsExprs(es)
    decreases es
  {
    if |es| > 0 {
      ExprExact(es[0], v, keys);
      ExprsExact(es[1..], VisitExpr(es[0], v), keys);
    }
  }

  lemma {:induction false} StmtExact(s: Stmt, v: OverflowVisitor, keys: set<string>)
    requires keys <= v.pointers.Keys && AddsOnStmt(s, keys)
    ensures |VisitStmt(s, v).candidates| == |v.candidates| + AddCallsStmt(s)
    decreases s
  {
    match s
    case Local(p, init) =>
      if init.Some? {
        ExprExact(init.value, v.(pointers := BindLocal(v.pointers, p, init)), keys);
      }
    case ExprStmt(e, _) => ExprExact(e, v, keys);
    case ItemStmt(it) => ItemExact(it, v, keys);
    case MacroStmt(_, _, _) =>
  }

  lemma {:induction false} StmtsExact(ss: seq<Stmt>, v: OverflowVisitor, keys: set<string>)
    requires keys <= v.pointers.Keys && AddsOnStmts(ss, keys)
    ensures |VisitStmts(ss, v).candidates| == |v.candidates| + AddCallsStmts(ss)
    decreases ss
  {
    if |ss| > 0 {
      StmtExact(ss[0], v, keys);
      StmtsExact(ss[1..], VisitStmt(ss[0], v), keys);
    }
  }

  lemma {:induction false} ItemExact(it: Item, v: OverflowVisitor, keys: set<string>)
    requires keys <= v.pointers.Keys && AddsOnItem(it, keys)
    ensures |VisitItem(it, v).candidates| == |v.candidates| + AddCallsItem(it)
    decreases it
  {
    match it
    case Fn(name, body) => StmtsExact(body, v.(currentFunction := name), keys);
    case OtherItem(_, body) => StmtsExact(body, v, keys);
  }

  lemma {:induction false} ItemsExact(items: seq<Item>, v: OverflowVisitor, keys: set<string>)
    requires keys <= v.pointers.Keys && AddsOnItems(items, keys)
    ensures |VisitItems(items, v).candidates| == |v.candidates| + AddCallsItems(items)
    decreases items
  {
    if |items| > 0 {
      ItemExact(items[0], v, keys);
      ItemsExact(items[1..], VisitItem(items[0], v), keys);
    }
  }

  /** Inside one body: statements `b` after `a` that call `.add(..)` only on names bound by
      the walk so far have every such call reported. */
  lemma LaterAddsReported(a: seq<Stmt>, b: seq<Stmt>, v: OverflowVisitor)
    requires AddsOnStmts(b, VisitStmts(a, v).pointers.Keys)
    ensures |VisitStmts(a + b, v).candidates| == |VisitStmts(a, v).candidates| + AddCallsStmts(b)
  {
    VisitStmtsAppend(a, b, v);
    StmtsExact(b, VisitStmts(a, v), VisitStmts(a, v).pointers.Keys);
  }

  // Each `.add(..)` call yields at most one candidate, so a node adds at most as many
  // candidates as it has `.add(..)` calls.

  lemma {:induction false} ExprBound(e: Expr, v: OverflowVisitor)
    ensures |VisitExpr(e, v).candidates| <= |v.candidates| + AddCallsExpr(e)
    decreases e
  {
    match e
    case Lit(_) =>
    case Path(_) =>
    case Macro(_, _, _) =>
    case Call(f, args) =>
      ExprBound(f, v);
      ExprsBound(args, VisitExpr(f, v));
    case MethodCall(recv, _, _, args, _) =>
      var v0 := OnMethodCall(v, e);
      ExprBound(recv, v0);
      ExprsBound(args, VisitExpr(recv, v0));
    case Binary(l, _, rt) =>
      ExprBound(l, v);
      ExprBound(rt, VisitExpr(l, v));
    case Unary(_, x) => ExprBound(x, v);
    case Field(x, _) => ExprBound(x, v);
    case Try(x) => ExprBound(x, v);
    case Unsafe(ss, _) => StmtsBound(ss, v);
    case Block(ss) => StmtsBound(ss, v);
    case If(c, t, els) =>
      ExprBound(c, v);
      var v1 := VisitExpr(c, v);
      StmtsBound(t, v1);
      ExprsBound(els, VisitStmts(t, v1));
    case Loop(_, h, b) =>
      ExprsBound(h, v);
      StmtsBound(b, VisitExprs(h, v));
    case Other(_, ops) => ExprsBound(ops, v);
  }

  lemma {:induction false} ExprsBound(es: seq<Expr>, v: OverflowVisitor)
    ensures |VisitExprs(es, v).candidates| <= |v.candidates| + AddCallsExprs(es)
    decreases es
  {
    if |es| > 0 {
      ExprBound(es[0], v);
      ExprsBound(es[1..], VisitExpr(es[0], v));
    }
  }

  lemma {:induction false} StmtBound(s: Stmt, v: OverflowVisitor)
    ensures |VisitStmt(s, v).candidates| <= |v.candidates| + AddCallsStmt(s)
    decreases s
  {
    match s
    case Local(p, init) =>
      if init.Some? {
        ExprBound(init.value, v.(pointers := BindLocal(v.pointers, p, init)));
      }
    case ExprStmt(e, _) => ExprBound(e, v);
    case ItemStmt(it) => ItemBound(it, v);
    case MacroStmt(_, _, _) =>
  }

  lemma {:induction false} StmtsBound(ss: seq<Stmt>, v: OverflowVisitor)
    ensures |VisitStmts(ss, v).candidates| <= |v.candidates| + AddCallsStmts(ss)
    decreases ss
  {
    if |ss| > 0 {
      StmtBound(ss[0], v);
      StmtsBound(ss[1..], VisitStmt(ss[0], v));
    }
  }

  lemma {:induction false} ItemBound(it: Item, v: OverflowVisitor)
    ensures |VisitItem(it, v).candidates| <= |v.candidates| + AddCallsItem(it)
    decreases it
  {
    match it
    case Fn(name, body) => StmtsBound(body, v.(currentFunction := name));
    case OtherItem(_, body) => StmtsBound(body, v);
  }

  lemma {:induction false} ItemsBound(items: seq<Item>, v: OverflowVisitor)
    ensures |VisitItems(items, v).candidates| <= |v.candidates| + AddCallsItems(items)
    decreases items
  {
    if |items| > 0 {
      ItemBound(items[0], v);
      ItemsBound(items[1..], VisitItem(items[0], v));
    }
  }

  /** The walk is a left-to-right pass: walking `a + b` is walking `a` and then `b`. */
  lemma {:induction false} VisitStmtsAppend(a: seq<Stmt>, b: seq<Stmt>, v: OverflowVisitor)
    ensures VisitStmts(a + b, v) == VisitStmts(b, VisitStmts(a, v))
    decreases |a|
  {
    if |a| > 0 {
      assert (a + b)[0] == a[0];
      assert (a + b)[1..] == a[1..] + b;
      VisitStmtsAppend(a[1..], b, VisitStmt(a[0], v));
    } else {
      assert a + b == b;
    }
  }

  /** The same for the items of a file. */
  lemma {:induction false} VisitItemsAppend(a: seq<Item>, b: seq<Item>, v: OverflowVisitor)
    ensures VisitItems(a + b, v) == VisitItems(b, VisitItems(a, v))
    decreases |a|
  {
    if |a| > 0 {
      assert (a + b)[0] == a[0];
      assert (a + b)[1..] == a[1..] + b;
      VisitItemsAppend(a[1..], b, VisitItem(a[0], v));
    } else {
      assert a + b == b;
    }
  }

  /** A node without any `.add(..)` call emits nothing. */
  lemma NoAddNoCandidate(ss: seq<Stmt>, v: OverflowVisitor)
    requires AddCallsStmts(ss) == 0
    ensures VisitStmts(ss, v).candidates == v.candidates
  {
    StmtsBound(ss, v);
  }
}
