/** The tree-level half of `src/rectifier.rs`: `lift_and_guard_expr` moves
    every arithmetic node of an expression statement into a fresh `let` that
    uses the checked operation, and `rectify` applies that to the top-level
    statements of every top-level function.

    `RectifyStmts` and `FixOverflow` are the rewrite as it is meant to work.
    `RectifyStmtsAsWritten` and `FixOverflowAsWritten` follow the code's
    re-parsing of the generated tokens, which fails for every block that has
    an expression statement that is not block-like. */
module TreeRewrite {
  import opened Wrappers
  import opened Text
  import opened Syntax
  import opened Candidates

  /** The generated name `x<k>` or `y<k>`. */
  function TempName(letter: char, k: nat): string {
    [letter] + NatToString(k)
  }

  /** `s` is a generated `let` whose name carries the number `k`. */
  predicate BindsTemp(s: Stmt, k: nat) {
    && s.Local? && s.pat.IdentPat? && s.init.Some?
    && (s.pat.name == TempName('x', k) || s.pat.name == TempName('y', k))
  }

  /** The name a plain `let x = ..` binds. */
  function LetName(s: Stmt): string {
    if s.Local? && s.pat.IdentPat? then s.pat.name else ""
  }

  function Let(name: string, init: Expr): Stmt {
    Local(IdentPat(name), Some(init))
  }

  function Var(name: string): Expr {
    Path([name])
  }

  /** The checked method standing in for an operator; operators other than `+ - * /` use `checked_add`. */
  function CheckedMethod(op: BinOp): string {
    match op
    case Add => "checked_add"
    case Sub => "checked_sub"
    case Mul => "checked_mul"
    case Div => "checked_div"
    case OtherOp(_) => "checked_add"
  }

  /** `a.checked_op(b).on_flow(Error::new("Overflow for operation"))?` */
  function CheckedCall(a: string, op: BinOp, b: string): Expr {
    Try(MethodCall(
      MethodCall(Var(a), CheckedMethod(op), CallSite, [Var(b)], CallSite),
      "on_flow", CallSite,
      [Call(Path(["Error", "new"]), [Lit("\"Overflow for operation\"")])], CallSite))
  }

  /** Number of arithmetic nodes the rewrite reaches: through binary operands and call arguments. */
  function Lifted(e: Expr): nat
    decreases e
  {
    if e.Binary? then 1 + Lifted(e.left) + Lifted(e.right)
    else if e.Call? then LiftedArgs(e.args)
    else 0
  }

  function LiftedArgs(es: seq<Expr>): nat
    decreases es
  {
    if |es| == 0 then 0 else Lifted(es[0]) + LiftedArgs(es[1..])
  }

  /** The temporaries an expression produced, its guarded replacement, and the counter afterwards. */
  datatype Guarded = Guarded(temps: seq<Stmt>, expr: Expr, next: nat)

  datatype GuardedArgs = GuardedArgs(temps: seq<Stmt>, args: seq<Expr>, next: nat)

  /** The temporaries numbered `n+1, n+2, ...` in order. */
  predicate NumberedFrom(temps: seq<Stmt>, n: nat)
    decreases |temps|
  {
    |temps| == 0 || (BindsTemp(temps[0], n + 1) && NumberedFrom(temps[1..], n + 1))
  }

  lemma {:induction false} NumberedAppend(a: seq<Stmt>, b: seq<Stmt>, n: nat)
    requires NumberedFrom(a, n) && NumberedFrom(b, n + |a|)
    ensures NumberedFrom(a + b, n)
    decreases |a|
  {
    if |a| > 0 {
      assert (a + b)[0] == a[0];
      assert (a + b)[1..] == a[1..] + b;
      NumberedAppend(a[1..], b, n + 1);
    } else {
      assert a + b == b;
    }
  }

  /** The `j`-th temporary carries the number `n + j + 1`. */
  lemma {:induction false} NumberedAt(temps: seq<Stmt>, n: nat, j: nat)
    requires NumberedFrom(temps, n) && j < |temps|
    ensures BindsTemp(temps[j], n + j + 1)
    decreases j
  {
    if j > 0 {
      NumberedAt(temps[1..], n + 1, j - 1);
    }
  }

  /** The three `let`s generated for one binary node, numbered `m+1, m+2, m+3`. */
  function BinaryLets(m: nat, op: BinOp, left: Expr, right: Expr): (lets: seq<Stmt>)
    ensures |lets| == 3 && NumberedFrom(lets, m)
  {
    var lets := [ Let(TempName('x', m + 1), left),
                  Let(TempName('x', m + 2), right),
                  Let(TempName('y', m + 3), CheckedCall(TempName('x', m + 1), op, TempName('x', m + 2))) ];
    assert NumberedFrom(lets[2..], m + 2);
    assert lets[1..][1..] == lets[2..];
    lets
  }

  /** The result for a binary node whose sides were lifted to `l` and then `rt`: their
      temporaries, then `let x{m+1} = left; let x{m+2} = right;
      let y{m+3} = x{m+1}.checked_op(x{m+2})...?;` with `m = rt.next`, replaced by `y{m+3}`. */
  function BinaryStep(l: Guarded, op: BinOp, rt: Guarded, n: nat): (r: Guarded)
    requires NumberedFrom(l.temps, n) && l.next == n + |l.temps|
    requires NumberedFrom(rt.temps, l.next) && rt.next == l.next + |rt.temps|
    ensures r.next == rt.next + 3 && |r.temps| == |l.temps| + |rt.temps| + 3
    ensures NumberedFrom(r.temps, n)
    ensures r.expr == Var(TempName('y', r.next))
    ensures r.temps[..|r.temps| - 3] == l.temps + rt.temps
    ensures r.temps[|r.temps| - 3] == Let(TempName('x', r.next - 2), l.expr)
    ensures r.temps[|r.temps| - 2] == Let(TempName('x', r.next - 1), rt.expr)
    ensures r.temps[|r.temps| - 1] == Let(TempName('y', r.next),
              CheckedCall(TempName('x', r.next - 2), op, TempName('x', r.next - 1)))
  {
    var m := rt.next;
    var lets := BinaryLets(m, op, l.expr, rt.expr);
    NumberedAppend(l.temps, rt.temps, n);
    NumberedAppend(l.temps + rt.temps, lets, n);
    var t := l.temps + rt.temps;
    assert (t + lets)[..|t|] == t;
    assert (t + lets)[|t|] == lets[0];
    assert (t + lets)[|t| + 1] == lets[1];
    assert (t + lets)[|t| + 2] == lets[2];
    Guarded(t + lets, Var(TempName('y', m + 3)), m + 3)
  }

  /** `lift_and_guard_expr`. A binary node lifts its left side, then its right side, then itself
      (`BinaryStep`). Call arguments are lifted left to right. Anything else is kept. */
  function LiftAndGuard(e: Expr, n: nat): (r: Guarded)
    ensures r.next == n + 3 * Lifted(e) && |r.temps| == 3 * Lifted(e)
    ensures NumberedFrom(r.temps, n)
    ensures Lifted(r.expr) == 0
    ensures Lifted(e) == 0 ==> r == Guarded([], e, n)
    ensures e.Call? ==> r.expr == Call(e.func, LiftArgs(e.args, n).args)
    decreases e
  {
    if e.Binary? then
      var l := LiftAndGuard(e.left, n);
      BinaryStep(l, e.op, LiftAndGuard(e.right, l.next), n)
    else if e.Call? then
      var a := LiftArgs(e.args, n);
      Guarded(a.temps, Call(e.func, a.args), a.next)
    else Guarded([], e, n)
  }

  /** A binary node is replaced by the last temporary, `y{next}`, whose `let` applies the
      checked method for the node's operator to the two `x` temporaries just before it; the
      temporaries before those three are the left side's followed by the right side's. */
  lemma LiftBinary(left: Expr, op: BinOp, right: Expr, n: nat)
    ensures var l := LiftAndGuard(left, n);
            LiftAndGuard(Binary(left, op, right), n) == BinaryStep(l, op, LiftAndGuard(right, l.next), n)
  {
  }

  /** A call keeps its callee and gets its lifted arguments, after their temporaries. */
  lemma LiftCall(f: Expr, args: seq<Expr>, n: nat)
    ensures var a := LiftArgs(args, n);
            LiftAndGuard(Call(f, args), n) == Guarded(a.temps, Call(f, a.args), a.next)
  {
  }

  lemma BinaryBecomesLastTemp(left: Expr, op: BinOp, right: Expr, n: nat)
    ensures var r := LiftAndGuard(Binary(left, op, right), n);
            && r.expr == Var(TempName('y', r.next))
            && |r.temps| >= 3
            && r.temps[|r.temps| - 1] == Let(TempName('y', r.next),
                 CheckedCall(TempName('x', r.next - 2), op, TempName('x', r.next - 1)))
            && r.temps[..|r.temps| - 3] == LiftAndGuard(left, n).temps + LiftAndGuard(right, LiftAndGuard(left, n).next).temps
            && r.temps[|r.temps| - 3] == Let(TempName('x', r.next - 2), LiftAndGuard(left, n).expr)
            && r.temps[|r.temps| - 2] == Let(TempName('x', r.next - 1), LiftAndGuard(right, LiftAndGuard(left, n).next).expr)
  {
    LiftBinary(left, op, right, n);
  }

  function LiftArgs(es: seq<Expr>, n: nat): (r: GuardedArgs)
    ensures r.next == n + 3 * LiftedArgs(es) && |r.temps| == 3 * LiftedArgs(es)
    ensures NumberedFrom(r.temps, n)
    ensures |r.args| == |es| && LiftedArgs(r.args) == 0
    ensures LiftedArgs(es) == 0 ==> r == GuardedArgs([], es, n)
    ensures |es| > 0 ==> && r.args[0] == LiftAndGuard(es[0], n).expr
                         && r.temps[..|LiftAndGuard(es[0], n).temps|] == LiftAndGuard(es[0], n).temps
    decreases es
  {
    if |es| == 0 then GuardedArgs([], [], n)
    else
      var h := LiftAndGuard(es[0], n);
      var t := LiftArgs(es[1..], h.next);
      NumberedAppend(h.temps, t.temps, n);
      assert ([h.expr] + t.args)[1..] == t.args;
      assert (h.temps + t.temps)[..|h.temps|] == h.temps;
      GuardedArgs(h.temps + t.temps, [h.expr] + t.args, t.next)
  }

  /** Arguments are lifted left to right with one counter: lifting `a + b` is lifting `a`, then
      `b` from the counter `a` left. */
  lemma {:induction false} LiftArgsAppend(a: seq<Expr>, b: seq<Expr>, n: nat)
    ensures var la := LiftArgs(a, n);
            var lb := LiftArgs(b, la.next);
            LiftArgs(a + b, n) == GuardedArgs(la.temps + lb.temps, la.args + lb.args, lb.next)
    decreases |a|
  {
    if |a| == 0 {
      assert a + b == b;
    } else {
      var h := LiftAndGuard(a[0], n);
      var la' := LiftArgs(a[1..], h.next);
      var lb := LiftArgs(b, la'.next);
      assert LiftArgs(a + b, n)
          == GuardedArgs(h.temps + (la'.temps + lb.temps), [h.expr] + (la'.args + lb.args), lb.next) by {
        var ab := a + b;
        TailOfAppend(a, b);
        LiftArgsCons(ab, n);
        LiftArgsAppend(a[1..], b, h.next);
      }
      assert LiftArgs(a, n) == GuardedArgs(h.temps + la'.temps, [h.expr] + la'.args, la'.next) by {
        LiftArgsCons(a, n);
      }
      ConcatAssoc(h.temps, la'.temps, lb.temps);
      ConcatAssoc([h.expr], la'.args, lb.args);
    }
  }

  lemma TailOfAppend<T>(a: seq<T>, b: seq<T>)
    requires |a| > 0
    ensures (a + b)[0] == a[0] && (a + b)[1..] == a[1..] + b
  { }

  lemma ConcatAssoc<T>(a: seq<T>, b: seq<T>, c: seq<T>)
    ensures a + (b + c) == (a + b) + c
  { }

  /** One step of the left-to-right lift: the first argument, then the rest from its counter. */
  lemma LiftArgsCons(es: seq<Expr>, n: nat)
    requires |es| > 0
    ensures var h := LiftAndGuard(es[0], n);
            var t := LiftArgs(es[1..], h.next);
            LiftArgs(es, n) == GuardedArgs(h.temps + t.temps, [h.expr] + t.args, t.next)
  { }

  /** One argument is lifted on its own: its temporaries, then its guarded form. */
  lemma LiftArgsOne(e: Expr, n: nat)
    ensures var g := LiftAndGuard(e, n);
            LiftArgs([e], n) == GuardedArgs(g.temps, [g.expr], g.next)
  {
    assert [e][1..] == [];
    var g := LiftAndGuard(e, n);
    assert g.temps + [] == g.temps;
  }

  /** A rewritten block, the temporaries generated for it in order, and the counter afterwards. */
  datatype Rewritten = Rewritten(stmts: seq<Stmt>, generated: seq<Stmt>, next: nat)

  function LiftedStmts(ss: seq<Stmt>): nat
    decreases ss
  {
    if |ss| == 0 then 0 else (if ss[0].ExprStmt? then Lifted(ss[0].expr) else 0) + LiftedStmts(ss[1..])
  }

  /** Every expression statement is a guarded one: no arithmetic left to lift. */
  predicate IsGuardedBlock(ss: seq<Stmt>) {
    forall j :: 0 <= j < |ss| && ss[j].ExprStmt? ==> Lifted(ss[j].expr) == 0
  }

  lemma GuardedAppend(a: seq<Stmt>, b: seq<Stmt>)
    requires IsGuardedBlock(a) && IsGuardedBlock(b)
    ensures IsGuardedBlock(a + b)
  {
    forall j | 0 <= j < |a + b| && (a + b)[j].ExprStmt?
      ensures Lifted((a + b)[j].expr) == 0
    {
      if j >= |a| {
        assert (a + b)[j] == b[j - |a|];
      }
    }
  }

  /** Generated temporaries are `let`s, so they leave a block guarded. */
  lemma {:induction false} NumberedIsGuarded(temps: seq<Stmt>, n: nat)
    requires NumberedFrom(temps, n)
    ensures IsGuardedBlock(temps)
    decreases |temps|
  {
    if |temps| > 0 {
      NumberedIsGuarded(temps[1..], n + 1);
      assert temps == [temps[0]] + temps[1..];
      GuardedAppend([temps[0]], temps[1..]);
    }
  }

  /** The loop of `rectify_block` from counter `n`: other statements are kept in order, each
      expression statement becomes its temporaries followed by its guarded expression, with
      the statement's own semicolon. */
  function RectifyStmts(ss: seq<Stmt>, n: nat): (r: Rewritten)
    ensures r.next == n + |r.generated| && |r.generated| == 3 * LiftedStmts(ss)
    ensures |r.stmts| == |ss| + |r.generated|
    ensures NumberedFrom(r.generated, n)
    ensures IsGuardedBlock(r.stmts)
    decreases ss
  {
    if |ss| == 0 then Rewritten([], [], n)
    else
      var rest := RectifyStmts(ss[1..], if ss[0].ExprStmt? then LiftAndGuard(ss[0].expr, n).next else n);
      if ss[0].ExprStmt? then
        var g := LiftAndGuard(ss[0].expr, n);
        NumberedAppend(g.temps, rest.generated, n);
        NumberedIsGuarded(g.temps, n);
        var guarded := ExprStmt(g.expr, ss[0].semi);
        GuardedAppend(g.temps, [guarded]);
        GuardedAppend(g.temps + [guarded], rest.stmts);
        Rewritten(g.temps + [guarded] + rest.stmts, g.temps + rest.generated, rest.next)
      else
        GuardedAppend([ss[0]], rest.stmts);
        Rewritten([ss[0]] + rest.stmts, rest.generated, rest.next)
  }

  /** Number of expression statements in a block. */
  function ExprStmtCount(ss: seq<Stmt>): nat
    decreases |ss|
  {
    if |ss| == 0 then 0 else (if ss[0].ExprStmt? then 1 else 0) + ExprStmtCount(ss[1..])
  }

  lemma {:induction false} ExprStmtCountAppend(a: seq<Stmt>, b: seq<Stmt>)
    ensures ExprStmtCount(a + b) == ExprStmtCount(a) + ExprStmtCount(b)
    decreases |a|
  {
    if |a| > 0 {
      assert (a + b)[0] == a[0];
      assert (a + b)[1..] == a[1..] + b;
      ExprStmtCountAppend(a[1..], b);
    } else {
      assert a + b == b;
    }
  }

  lemma {:induction false} TempsAreNotExprStmts(temps: seq<Stmt>, n: nat)
    requires NumberedFrom(temps, n)
    ensures ExprStmtCount(temps) == 0
    decreases |temps|
  {
    if |temps| > 0 {
      TempsAreNotExprStmts(temps[1..], n + 1);
    }
  }

  /** Each expression statement becomes exactly one (guarded) expression statement, and every
      other statement of the result is either an original non-expression statement or a temporary. */
  lemma {:induction false} RectifyKeepsExpressionStatements(ss: seq<Stmt>, n: nat)
    ensures var r := RectifyStmts(ss, n);
            && ExprStmtCount(r.stmts) == ExprStmtCount(ss)
            && |r.stmts| - ExprStmtCount(r.stmts) == (|ss| - ExprStmtCount(ss)) + |r.generated|
    decreases |ss|
  {
    if |ss| > 0 {
      if ss[0].ExprStmt? {
        var g := LiftAndGuard(ss[0].expr, n);
        var rest := RectifyStmts(ss[1..], g.next);
        RectifyKeepsExpressionStatements(ss[1..], g.next);
        var guarded := ExprStmt(g.expr, ss[0].semi);
        assert RectifyStmts(ss, n).stmts == g.temps + [guarded] + rest.stmts;
        ExprStmtCountAppend(g.temps, [guarded]);
        ExprStmtCountAppend(g.temps + [guarded], rest.stmts);
        TempsAreNotExprStmts(g.temps, n);
        assert ExprStmtCount([guarded]) == 1;
      } else {
        var rest := RectifyStmts(ss[1..], n);
        RectifyKeepsExpressionStatements(ss[1..], n);
        assert RectifyStmts(ss, n).stmts == [ss[0]] + rest.stmts;
        ExprStmtCountAppend([ss[0]], rest.stmts);
        assert ExprStmtCount([ss[0]]) == 0;
      }
    }
  }

  /** The block loop is a left-to-right pass with one counter: rewriting `a + b` is rewriting
      `a`, then `b` from the counter `a` left. */
  lemma {:induction false} RectifyStmtsAppend(a: seq<Stmt>, b: seq<Stmt>, n: nat)
    ensures var ra := RectifyStmts(a, n);
            var rb := RectifyStmts(b, ra.next);
            RectifyStmts(a + b, n) == Rewritten(ra.stmts + rb.stmts, ra.generated + rb.generated, rb.next)
    decreases |a|
  {
    if |a| == 0 {
      assert a + b == b;
    } else {
      var m := if a[0].ExprStmt? then LiftAndGuard(a[0].expr, n).next else n;
      var head := StmtHead(a[0], n);
      var temps := StmtTemps(a[0], n);
      var ra' := RectifyStmts(a[1..], m);
      var rb := RectifyStmts(b, ra'.next);
      assert RectifyStmts(a + b, n)
          == Rewritten(head + (ra'.stmts + rb.stmts), temps + (ra'.generated + rb.generated), rb.next) by {
        var ab := a + b;
        TailOfAppend(a, b);
        RectifyStmtsCons(ab, n);
        RectifyStmtsAppend(a[1..], b, m);
      }
      assert RectifyStmts(a, n) == Rewritten(head + ra'.stmts, temps + ra'.generated, ra'.next) by {
        RectifyStmtsCons(a, n);
      }
      ConcatAssoc(head, ra'.stmts, rb.stmts);
      ConcatAssoc(temps, ra'.generated, rb.generated);
    }
  }

  /** What one statement becomes: its temporaries and its guarded form, or itself. */
  function StmtHead(s: Stmt, n: nat): seq<Stmt> {
    if s.ExprStmt? then LiftAndGuard(s.expr, n).temps + [ExprStmt(LiftAndGuard(s.expr, n).expr, s.semi)] else [s]
  }

  /** The temporaries one statement introduces. */
  function StmtTemps(s: Stmt, n: nat): seq<Stmt> {
    if s.ExprStmt? then LiftAndGuard(s.expr, n).temps else []
  }

  /** One step of the rewrite: the first statement's head, then the rest from its counter. */
  lemma RectifyStmtsCons(ss: seq<Stmt>, n: nat)
    requires |ss| > 0
    ensures var m := if ss[0].ExprStmt? then LiftAndGuard(ss[0].expr, n).next else n;
            var t := RectifyStmts(ss[1..], m);
            RectifyStmts(ss, n) == Rewritten(StmtHead(ss[0], n) + t.stmts, StmtTemps(ss[0], n) + t.generated, t.next)
  { }

  /** One statement: anything but an expression statement is kept; an expression statement
      becomes its temporaries, then its guarded expression with the statement's own semicolon. */
  lemma RectifyOne(s: Stmt, n: nat)
    ensures !s.ExprStmt? ==> RectifyStmts([s], n).stmts == [s]
    ensures s.ExprStmt? ==> var g := LiftAndGuard(s.expr, n);
              RectifyStmts([s], n).stmts == g.temps + [ExprStmt(g.expr, s.semi)]
  {
    assert [s][1..] == [];
    if s.ExprStmt? {
      var g := LiftAndGuard(s.expr, n);
      assert g.temps + [ExprStmt(g.expr, s.semi)] + [] == g.temps + [ExprStmt(g.expr, s.semi)];
    } else {
      assert [s] + [] == [s];
    }
  }

  /** `rectify_block`: the counter starts at 0 for each block. */
  function RectifyBlock(ss: seq<Stmt>): seq<Stmt> {
    RectifyStmts(ss, 0).stmts
  }

  /** All temporaries generated in one block have distinct names. */
  lemma GeneratedNamesDistinct(ss: seq<Stmt>)
    ensures var g := RectifyStmts(ss, 0).generated;
            forall i, j :: 0 <= i < j < |g| ==> LetName(g[i]) != LetName(g[j])
  {
    NumberedNamesDistinct(RectifyStmts(ss, 0).generated, 0);
  }

  lemma NumberedNamesDistinct(g: seq<Stmt>, n: nat)
    requires NumberedFrom(g, n)
    ensures forall i, j :: 0 <= i < j < |g| ==> LetName(g[i]) != LetName(g[j])
  {
    forall i, j | 0 <= i < j < |g| ensures LetName(g[i]) != LetName(g[j]) {
      NumberedAt(g, n, i);
      NumberedAt(g, n, j);
      NatToStringInjective(n + i + 1, n + j + 1);
      assert g[i].pat.name[1..] == NatToString(n + i + 1);
      assert g[j].pat.name[1..] == NatToString(n + j + 1);
    }
  }

  /** A block that is already guarded is left as it is. */
  lemma {:induction false} GuardedBlockFixed(ss: seq<Stmt>, n: nat)
    requires IsGuardedBlock(ss)
    ensures RectifyStmts(ss, n).stmts == ss
    decreases |ss|
  {
    if |ss| > 0 {
      assert IsGuardedBlock(ss[1..]) by {
        assert forall j :: 0 <= j < |ss[1..]| ==> ss[1..][j] == ss[j + 1];
      }
      GuardedBlockFixed(ss[1..], n);
      if ss[0].ExprStmt? {
        assert Lifted(ss[0].expr) == 0;
        assert ss == [ss[0]] + ss[1..];
      }
    }
  }

  /** `rectify_block` is idempotent. */
  lemma RectifyBlockIdempotent(ss: seq<Stmt>)
    ensures RectifyBlock(RectifyBlock(ss)) == RectifyBlock(ss)
  {
    GuardedBlockFixed(RectifyBlock(ss), 0);
  }

  // `rectify_block` as written re-parses every generated token stream with
  // `syn::parse2(..).unwrap()`, and two of those parses fail:
  //   - the third `let` of a lifted node interpolates the method name, a `&str`, so it reads
  //     `x1 . "checked_add" (x2)`: a string literal after the dot is not an expression;
  //   - the guarded expression is parsed as a `Stmt` without the `;` it had, which `syn`
  //     accepts only for block-like expressions.

  /** `syn`'s `requires_terminator`: whether an expression needs a `;` to stand as a
      statement. `if`, loops, blocks, `unsafe` blocks and `match` do not. */
  predicate RequiresTerminator(e: Expr) {
    !(e.If? || e.Loop? || e.Block? || e.Unsafe? || (e.Other? && e.kind == "match"))
  }

  /** Every expression statement of the block is block-like. */
  predicate BlockLikeOnly(ss: seq<Stmt>) {
    forall j :: 0 <= j < |ss| && ss[j].ExprStmt? ==> !RequiresTerminator(ss[j].expr)
  }

  /** What the re-parse of `quote!{#expr}` makes of an expression statement: the same expression
      with no semicolon. */
  function Unterminated(s: Stmt): Stmt {
    if s.ExprStmt? then ExprStmt(s.expr, false) else s
  }

  /** The loop of `rectify_block` as written, from counter `n`; `None` is the panic of an
      `unwrap`. It gets through exactly the blocks whose expression statements are all
      block-like, and then only drops their semicolons. */
  function RectifyStmtsAsWritten(ss: seq<Stmt>, n: nat): (r: Option<seq<Stmt>>)
    ensures r.Some? <==> BlockLikeOnly(ss)
    ensures r.Some? ==> |r.value| == |ss| && forall j :: 0 <= j < |ss| ==> r.value[j] == Unterminated(ss[j])
    decreases ss
  {
    if |ss| == 0 then Some([])
    else
      var g := if ss[0].ExprStmt? then LiftAndGuard(ss[0].expr, n) else Guarded([], Lit(""), n);
      if ss[0].ExprStmt? && |g.temps| > 0 then
        // A lifted node: its checked-call `let` does not parse.
        assert RequiresTerminator(ss[0].expr);
        None
      else if ss[0].ExprStmt? && RequiresTerminator(g.expr) then
        None
      else
        var rest := RectifyStmtsAsWritten(ss[1..], g.next);
        assert BlockLikeOnly(ss) <==> BlockLikeOnly(ss[1..]) by {
          assert forall j :: 0 <= j < |ss[1..]| ==> ss[1..][j] == ss[j + 1];
        }
        if rest.None? then None else Some([Unterminated(ss[0])] + rest.value)
  }

  function RectifyBlockAsWritten(ss: seq<Stmt>): Option<seq<Stmt>> {
    RectifyStmtsAsWritten(ss, 0)
  }

  /** Where the code as written gets through, it agrees with the intended rewrite up to the
      semicolons it drops: such a block has nothing to lift. */
  lemma AsWrittenAgreesWhereDefined(ss: seq<Stmt>)
    requires RectifyBlockAsWritten(ss).Some?
    ensures var v := RectifyBlockAsWritten(ss).value;
            var c := RectifyBlock(ss);
            |v| == |c| && forall j :: 0 <= j < |c| ==> v[j] == Unterminated(c[j])
  {
    assert IsGuardedBlock(ss);
    GuardedBlockFixed(ss, 0);
  }

  /** An arithmetic statement such as `a + b;` makes the code as written panic, while the
      intended rewrite gives three temporaries and the guarded statement. */
  lemma ArithmeticStatementPanics(a: Expr, op: BinOp, b: Expr, semi: bool)
    ensures RectifyBlockAsWritten([ExprStmt(Binary(a, op, b), semi)]).None?
    ensures |RectifyBlock([ExprStmt(Binary(a, op, b), semi)])| == 3 * Lifted(Binary(a, op, b)) + 1
  {
    assert !BlockLikeOnly([ExprStmt(Binary(a, op, b), semi)]);
  }

  /** So does a plain call statement such as `f();`, which the intended rewrite keeps as it is
      when its arguments hold no arithmetic. */
  lemma CallStatementPanics(f: Expr, args: seq<Expr>, semi: bool)
    ensures RectifyBlockAsWritten([ExprStmt(Call(f, args), semi)]).None?
    ensures LiftedArgs(args) == 0 ==> RectifyBlock([ExprStmt(Call(f, args), semi)]) == [ExprStmt(Call(f, args), semi)]
  {
    assert !BlockLikeOnly([ExprStmt(Call(f, args), semi)]);
    if LiftedArgs(args) == 0 {
      GuardedBlockFixed([ExprStmt(Call(f, args), semi)], 0);
    }
  }

  /** `fix_overflow`: every top-level function body is rectified; nested functions and
      other items are untouched. The candidate is not consulted. */
  function FixOverflow(file: File, c: OverflowCandidate): (r: File)
    ensures |r| == |file|
    ensures forall i :: 0 <= i < |file| ==>
              (file[i].Fn? ==> r[i] == Fn(file[i].name, RectifyBlock(file[i].body)))
              && (!file[i].Fn? ==> r[i] == file[i])
  {
    seq(|file|, i requires 0 <= i < |file| =>
      match file[i]
      case Fn(name, body) => Fn(name, RectifyBlock(body))
      case OtherItem(_, _) => file[i])
  }

  /** Rectifying a rectified file again changes nothing. */
  lemma FixOverflowIdempotent(file: File, c1: OverflowCandidate, c2: OverflowCandidate)
    ensures FixOverflow(FixOverflow(file, c1), c2) == FixOverflow(file, c1)
  {
    var once := FixOverflow(file, c1);
    forall i | 0 <= i < |file| && file[i].Fn?
      ensures FixOverflow(once, c2)[i] == once[i]
    {
      RectifyBlockIdempotent(file[i].body);
    }
  }

  /** `fix_overflow` as written: it panics as soon as one top-level function body does, and
      otherwise only drops the semicolons of those bodies' expression statements. */
  function FixOverflowAsWritten(file: File, c: OverflowCandidate): (r: Option<File>)
    ensures r.Some? <==> forall i :: 0 <= i < |file| && file[i].Fn? ==> BlockLikeOnly(file[i].body)
    ensures r.Some? ==> |r.value| == |file| && forall i :: 0 <= i < |file| ==>
              (file[i].Fn? ==> r.value[i] == Fn(file[i].name, RectifyBlockAsWritten(file[i].body).value))
              && (!file[i].Fn? ==> r.value[i] == file[i])
    decreases |file|
  {
    if |file| == 0 then Some([])
    else
      var rest := FixOverflowAsWritten(file[1..], c);
      assert forall i :: 0 <= i < |file[1..]| ==> file[1..][i] == file[i + 1];
      if file[0].Fn? then
        var body := RectifyBlockAsWritten(file[0].body);
        if body.None? || rest.None? then None
        else Some([Fn(file[0].name, body.value)] + rest.value)
      else if rest.None? then None
      else Some([file[0]] + rest.value)
  }

  /** Applies `fix_overflow` once per candidate, in order. */
  function FixEach(file: File, cs: seq<OverflowCandidate>): File
    decreases |cs|
  {
    if |cs| == 0 then file else FixEach(FixOverflow(file, cs[0]), cs[1..])
  }

  /** `rectify` (the rewritten tree, before it is printed back to text). */
  function Rectify(file: File, cs: seq<OverflowCandidate>): File {
    if |cs| == 0 then file else FixEach(file, cs)
  }

  /** However many candidates there are, `rectify` is one rewriting pass; with none it is the identity. */
  lemma RectifyIsOnePass(file: File, cs: seq<OverflowCandidate>)
    ensures |cs| == 0 ==> Rectify(file, cs) == file
    ensures |cs| > 0 ==> Rectify(file, cs) == FixOverflow(file, cs[0])
  {
    if |cs| > 0 {
      FixEachAfterFix(FixOverflow(file, cs[0]), cs[1..], cs[0]);
    }
  }

  lemma {:induction false} FixEachAfterFix(fixed: File, cs: seq<OverflowCandidate>, c: OverflowCandidate)
    requires exists f :: fixed == FixOverflow(f, c)
    ensures FixEach(fixed, cs) == fixed
    decreases |cs|
  {
    if |cs| > 0 {
      var f :| fixed == FixOverflow(f, c);
      FixOverflowIdempotent(f, c, cs[0]);
      FixEachAfterFix(FixOverflow(fixed, cs[0]), cs[1..], c);
    }
  }

  /** Which candidates are given does not matter, only whether there are any. */
  lemma RectifyIgnoresCandidates(file: File, a: seq<OverflowCandidate>, b: seq<OverflowCandidate>)
    requires |a| > 0 && |b| > 0
    ensures Rectify(file, a) == Rectify(file, b)
  {
    RectifyIsOnePass(file, a);
    RectifyIsOnePass(file, b);
  }
}
