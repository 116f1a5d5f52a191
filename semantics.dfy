/**
 * A reference meaning for the expressions the aggregate bridge builds, used
 * only to state what those expressions compute: integer and boolean
 * evaluation of scalar expressions, the simplification of a member access
 * on a struct literal, and the run of a statement block by the model
 * checker (which assertions it reports and whether the path stays feasible).
 */
module Semantics {
  import opened GotoProgram

  /** The value of an integer expression; `None` when it is not a scalar
      integer expression this model evaluates. `env` gives the value of each
      variable (pointers as their addresses). */
  function EvalInt(e: Expr, env: map<string, int>): Option<int>
  {
    match e.value
    case Symbol(x) => if x in env then Some(env[x]) else None
    case IntConstant(i) => Some(i)
    case Typecast(op) =>
      if e.typ.SizeT? then
        (match EvalInt(op, env)
         case None => None
         case Some(n) => Some(n % SizeTModulus))
      else None
    case BinOp(Rem, l, r) =>
      if e.typ.SizeT? then
        (match (EvalInt(l, env), EvalInt(r, env))
         case (Some(a), Some(b)) => if b == 0 then None else Some(a % b)
         case _ => None)
      else None
    case _ => None
  }

  /** The value of a boolean expression. */
  function EvalBool(e: Expr, env: map<string, int>): Option<bool>
  {
    match e.value
    case BoolConstant(b) => Some(b)
    case BinOp(Equal, l, r) =>
      (match (EvalInt(l, env), EvalInt(r, env))
       case (Some(a), Some(b)) => Some(a == b)
       case _ => None)
    case _ => None
  }

  /** Field `f` of a struct literal, if `e` is one that has that field. */
  function Select(e: Expr, f: string, st: SymbolTable): Option<Expr>
  {
    if e.value.Struct? && e.typ.StructTag? && e.typ.tag in st then
      match FieldIndex(st[e.typ.tag], f)
      case None => None
      case Some(i) => if i < |e.value.values| then Some(e.value.values[i]) else None
    else None
  }

  /** Simplifies every chain of member accesses whose base is a struct
      literal to the field value it denotes. */
  function Reduce(e: Expr, st: SymbolTable): Expr
  {
    match e.value
    case Member(lhs, f) =>
      var l := Reduce(lhs, st);
      (match Select(l, f, st)
       case Some(v) => v
       case None => Expr(Member(l, f), e.typ, e.loc))
    case _ => e
  }

  /** What the model checker has seen so far along one path: the messages
      of the assertions that fail, whether the path is still feasible, and
      the value of the last expression statement on a feasible path. */
  datatype Trace = Trace(violations: seq<string>, feasible: bool, result: Option<Expr>)

  const Start: Trace := Trace([], true, None)

  function Step(tr: Trace, s: Stmt, env: map<string, int>): Trace
  {
    match s
    case Assert(c, _, msg, _) =>
      if tr.feasible && EvalBool(c, env) != Some(true) then tr.(violations := tr.violations + [msg]) else tr
    case Assume(c, _) => tr.(feasible := tr.feasible && EvalBool(c, env) == Some(true))
    case Expression(v, _) => tr.(result := if tr.feasible then Some(v) else None)
  }

  function Run(stmts: seq<Stmt>, tr: Trace, env: map<string, int>): Trace
    decreases |stmts|
  {
    if stmts == [] then tr else Run(stmts[1..], Step(tr, stmts[0], env), env)
  }
}
