/** Linear constraints over the variables of the numeric domain (src/arith/linear_constraint.rs). */
module Constraints {

  datatype Variable = Variable(id: nat)

  /** The expressions the comparison code builds: one variable or one constant. */
  datatype Expr = Var(v: Variable) | Const(n: int)

  datatype Relation = EqualTo | NotEqualTo | LessThan | AtMost | GreaterThan | AtLeast

  datatype Constraint = Compare(rel: Relation, left: Expr, right: Expr) | True | False

  /** A concrete state of the numeric variables. */
  type Env = map<Variable, int>

  ghost predicate Defined(e: Expr, env: Env) {
    e.Var? ==> e.v in env
  }

  ghost function Value(e: Expr, env: Env): int
    requires Defined(e, env)
  {
    match e
    case Var(v) => env[v]
    case Const(n) => n
  }

  ghost predicate Satisfied(c: Constraint, env: Env) {
    match c
    case True => true
    case False => false
    case Compare(rel, l, r) =>
      && Defined(l, env) && Defined(r, env)
      && (match rel
          case EqualTo => Value(l, env) == Value(r, env)
          case NotEqualTo => Value(l, env) != Value(r, env)
          case LessThan => Value(l, env) < Value(r, env)
          case AtMost => Value(l, env) <= Value(r, env)
          case GreaterThan => Value(l, env) > Value(r, env)
          case AtLeast => Value(l, env) >= Value(r, env))
  }

  ghost predicate AllSatisfied(cs: seq<Constraint>, env: Env) {
    forall i :: 0 <= i < |cs| ==> Satisfied(cs[i], env)
  }

  /** A strict or non-strict comparison (src/crab/finite_domain.rs:117-129). */
  function StrictCmp(strict: bool, isLt: bool, left: Expr, right: Expr): Constraint {
    Compare(if isLt then if strict then LessThan else AtMost else if strict then GreaterThan else AtLeast, left, right)
  }
}
