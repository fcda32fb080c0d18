/** The slice of the Rust syntax tree (as `syn` presents it) that the
    detectors and the rewriter look at. Every node keeps the order in which
    `syn`'s default visitor walks its children. */
module Syntax {
  import opened Wrappers
  import opened Text

  /** A token position: 1-based line, 0-based column. */
  datatype Pos = Pos(line: nat, column: nat)

  /** The position `proc_macro2` gives to tokens made with `Span::call_site()`. */
  const CallSite := Pos(0, 0)

  datatype BinOp = Add | Sub | Mul | Div | OtherOp(symbol: string)

  datatype Pat =
    | IdentPat(name: string)          // `x`, `mut x`
    | TypedPat(inner: Pat, ty: string) // `x: T`
    | TuplePat(elems: seq<Pat>)       // `(a, b)`
    | WildPat                         // `_`

  datatype Expr =
    | Lit(text: string)
    | Path(segments: seq<string>)
      /** A macro invocation; its tokens are opaque to `syn`, so nothing inside is walked. */
    | Macro(macroPath: seq<string>, tokens: string, pos: Pos)
    | Call(func: Expr, args: seq<Expr>)
      /** `receiver.method(args)`; `methodPos` is the method name's token, `pos` the start of the whole call. */
    | MethodCall(receiver: Expr, name: string, methodPos: Pos, args: seq<Expr>, pos: Pos)
    | Binary(left: Expr, op: BinOp, right: Expr)
    | Unary(unop: string, operand: Expr)      // `*e`, `-e`, `!e`
    | Field(base: Expr, member: string)
    | Try(operand: Expr)                      // `e?`
    | Unsafe(stmts: seq<Stmt>, pos: Pos)
    | Block(stmts: seq<Stmt>)
    | If(cond: Expr, thenBranch: seq<Stmt>, elseBranch: seq<Expr>)
      /** `while c {..}` (head `[c]`), `for p in e {..}` (head `[e]`), `loop {..}` (head `[]`). */
    | Loop(kind: string, head: seq<Expr>, body: seq<Stmt>)
      /** Any other compound expression (assignment, index, reference, cast, tuple, ...)
          with its operand expressions in source order. */
    | Other(kind: string, operands: seq<Expr>)

  datatype Stmt =
    | Local(pat: Pat, init: Option<Expr>)
    | ExprStmt(expr: Expr, semi: bool)
    | ItemStmt(item: Item)
    | MacroStmt(macroPath: seq<string>, tokens: string, pos: Pos)

  /** A function item, or any other item (impl block, const, mod, ...) with the statements nested in it. */
  datatype Item =
    | Fn(name: string, body: seq<Stmt>)
    | OtherItem(kind: string, body: seq<Stmt>)

  type File = seq<Item>

  /** `Path::get_ident`: the identifier of a one-segment path. */
  function PathIdent(e: Expr): (r: Option<string>)
    ensures r.Some? <==> e.Path? && |e.segments| == 1
    ensures r.Some? ==> r.value == e.segments[0]
  {
    if e.Path? && |e.segments| == 1 then Some(e.segments[0]) else None
  }

  function JoinPath(segs: seq<string>): string {
    if |segs| == 0 then ""
    else if |segs| == 1 then segs[0]
    else segs[0] + "::" + JoinPath(segs[1..])
  }

  function OpSymbol(op: BinOp): string {
    match op
    case Add => "+"
    case Sub => "-"
    case Mul => "*"
    case Div => "/"
    case OtherOp(s) => s
  }

  /** A readable rendering of a node, standing in for `to_token_stream().to_string()`. */
  function RenderExpr(e: Expr): string
    decreases e
  {
    match e
    case Lit(t) => t
    case Path(segs) => JoinPath(segs)
    case Macro(p, toks, _) => JoinPath(p) + "!" + toks
    case Call(f, args) => RenderExpr(f) + "(" + RenderExprs(args) + ")"
    case MethodCall(r, m, _, args, _) => RenderExpr(r) + "." + m + "(" + RenderExprs(args) + ")"
    case Binary(l, op, r) => RenderExpr(l) + " " + OpSymbol(op) + " " + RenderExpr(r)
    case Unary(op, x) => op + RenderExpr(x)
    case Field(b, m) => RenderExpr(b) + "." + m
    case Try(x) => RenderExpr(x) + "?"
    case Unsafe(ss, _) => "unsafe { " + RenderStmts(ss) + "}"
    case Block(ss) => "{ " + RenderStmts(ss) + "}"
    case If(c, t, els) => "if " + RenderExpr(c) + " { " + RenderStmts(t) + "}"
                          + (if |els| == 0 then "" else " else " + RenderExprs(els))
    case Loop(k, h, b) => k + " " + RenderExprs(h) + " { " + RenderStmts(b) + "}"
    case Other(k, ops) => k + "(" + RenderExprs(ops) + ")"
  }

  function RenderExprs(es: seq<Expr>): string
    decreases es
  {
    if |es| == 0 then ""
    else if |es| == 1 then RenderExpr(es[0])
    else RenderExpr(es[0]) + ", " + RenderExprs(es[1..])
  }

  function RenderPat(p: Pat): string {
    match p
    case IdentPat(n) => n
    case TypedPat(q, ty) => RenderPat(q) + ": " + ty
    case TuplePat(ps) => "(" + RenderPats(ps) + ")"
    case WildPat => "_"
  }

  function RenderPats(ps: seq<Pat>): string
    decreases ps
  {
    if |ps| == 0 then "" else RenderPat(ps[0]) + (if |ps| == 1 then "" else ", " + RenderPats(ps[1..]))
  }

  function RenderStmt(s: Stmt): string
    decreases s
  {
    match s
    case Local(p, init) => "let " + RenderPat(p) + (if init.Some? then " = " + RenderExpr(init.value) else "") + "; "
    case ExprStmt(e, semi) => RenderExpr(e) + (if semi then "; " else " ")
    case ItemStmt(it) => RenderItem(it)
    case MacroStmt(p, toks, _) => JoinPath(p) + "!" + toks + "; "
  }

  function RenderStmts(ss: seq<Stmt>): string
    decreases ss
  {
    if |ss| == 0 then "" else RenderStmt(ss[0]) + RenderStmts(ss[1..])
  }

  function RenderItem(it: Item): string
    decreases it
  {
    match it
    case Fn(n, body) => "fn " + n + "() { " + RenderStmts(body) + "} "
    case OtherItem(k, body) => k + " { " + RenderStmts(body) + "} "
  }
}
