/** Scalar expressions over columns, and what they mean. */
module Exprs {
  import opened Base

  type ColId = nat

  datatype Op = Add | Sub | Mul | Div | Eq | Neq | Gt | Ge | Lt | Le | And | Or

  /** An expression; `CaseOrQuery` stands for the CASE and subquery forms, which are not executable. */
  datatype Expr =
    | ColRef(id: ColId)
    | Lit(val: Field)
    | Binary(op: Op, left: Expr, right: Expr)
    | CaseOrQuery

  // ------------------------------------------------------------------ operators

  const MAX64 := 0x7fff_ffff_ffff_ffff

  /** A 64-bit result, or overflow. */
  function Fit(x: int): (r: Option<int>)
    ensures r.Some? ==> r.value == x
  {
    if -MAX64 - 1 <= x <= MAX64 then Some(x) else None
  }

  function Pow10(n: nat): (p: nat)
    ensures p >= 1
  {
    if n == 0 then 1 else 10 * Pow10(n - 1)
  }

  /** `x` at a scale larger by `n`. */
  function Rescale(x: int, n: nat): (r: Option<int>)
    ensures r.Some? ==> r.value == x * Pow10(n)
  {
    if Fit(Pow10(n)).None? then None else Fit(x * Pow10(n))
  }

  function BothFit(a: Option<int>, b: Option<int>, f: (int, int) -> int): (r: Option<int>)
    ensures r.Some? ==> a.Some? && b.Some? && r.value == f(a.value, b.value)
  {
    if a.Some? && b.Some? then Fit(f(a.value, b.value)) else None
  }

  /** Addition and subtraction align decimals to the larger scale. */
  function AddSub(f: (int, int) -> int, a: Field, b: Field): (r: Option<Field>) {
    match (a, b)
    case (BigInt(x), BigInt(y)) =>
      var z := BothFit(Some(x), Some(y), f);
      if z.Some? then Some(BigInt(z.value)) else None
    case (Decimal(x, s), Decimal(y, t)) =>
      var scale := if s > t then s else t;
      var z := BothFit(Rescale(x, scale - s), Rescale(y, scale - t), f);
      if z.Some? then Some(Decimal(z.value, scale)) else None
    case (BigInt(x), Decimal(y, t)) =>
      var z := BothFit(Rescale(x, t), Some(y), f);
      if z.Some? then Some(Decimal(z.value, t)) else None
    case (Decimal(x, s), BigInt(y)) =>
      var z := BothFit(Some(x), Rescale(y, s), f);
      if z.Some? then Some(Decimal(z.value, s)) else None
    case _ => None
  }

  /** Division that truncates toward zero. */
  function Quotient(a: int, b: int): (q: int)
    requires b != 0
  {
    if (a >= 0) == (b > 0) then Abs(a) / Abs(b) else -(Abs(a) / Abs(b))
  }

  function Abs(a: int): (n: nat) {
    if a < 0 then -a else a
  }

  /** The inexact operations on two decimals, and division involving one. */
  type Rounded = (Op, Field, Field) -> Option<Field>

  /** The value of an operator; nothing when it panics or fails, which aborts the query. */
  function Apply(fp: Rounded, op: Op, a: Field, b: Field): (r: Option<Field>) {
    match op
    case Add => AddSub((x, y) => x + y, a, b)
    case Sub => AddSub((x, y) => x - y, a, b)
    case Mul =>
      (match (a, b)
       case (BigInt(x), BigInt(y)) => if Fit(x * y).Some? then Some(BigInt(x * y)) else None
       case (BigInt(x), Decimal(y, t)) => if Fit(x * y).Some? then Some(Decimal(x * y, t)) else None
       case (Decimal(x, s), BigInt(y)) => if Fit(x * y).Some? then Some(Decimal(x * y, s)) else None
       case (Decimal(_, _), Decimal(_, _)) => fp(op, a, b)
       case _ => None)
    case Div =>
      (match (a, b)
       case (BigInt(x), BigInt(y)) =>
         if y == 0 || Fit(Quotient(x, y)).None? then None else Some(BigInt(Quotient(x, y)))
       case (Decimal(_, _), Decimal(_, _)) => fp(op, a, b)
       case (BigInt(_), Decimal(_, _)) => fp(op, a, b)
       case (Decimal(_, _), BigInt(_)) => fp(op, a, b)
       case _ => None)
    case Eq => Some(Bool(a == b))
    case Neq => Some(Bool(a != b))
    case Gt => Some(Bool(!FieldLe(a, b)))
    case Ge => Some(Bool(FieldLe(b, a)))
    case Lt => Some(Bool(!FieldLe(b, a)))
    case Le => Some(Bool(FieldLe(a, b)))
    case And => if a.Bool? && b.Bool? then Some(Bool(a.b && b.b)) else None
    case Or => if a.Bool? && b.Bool? then Some(Bool(a.b || b.b)) else None
  }

  /** The comparison a join makes; nothing when the operator does not compare, which panics. */
  function CompareFields(op: Op, a: Field, b: Field): (r: Option<bool>) {
    match op
    case Eq => Some(a == b)
    case Neq => Some(a != b)
    case Gt => Some(!FieldLe(a, b))
    case Ge => Some(FieldLe(b, a))
    case Lt => Some(!FieldLe(b, a))
    case Le => Some(FieldLe(a, b))
    case And => if a.Bool? && b.Bool? then Some(a.b && b.b) else None
    case Or => if a.Bool? && b.Bool? then Some(a.b || b.b) else None
    case _ => None
  }

  /** Where a join compares, it decides as the expression would. */
  lemma CompareIsApply(fp: Rounded, op: Op, a: Field, b: Field)
    requires op.Eq? || op.Neq? || op.Gt? || op.Ge? || op.Lt? || op.Le? || op.And? || op.Or?
    ensures CompareFields(op, a, b) == Some(true) <==> Apply(fp, op, a, b) == Some(Bool(true))
  {
  }

  // ------------------------------------------------------------------ meaning

  type Env = ColId -> Option<Field>

  predicate Supported(e: Expr) {
    match e
    case ColRef(_) => true
    case Lit(_) => true
    case Binary(_, l, r) => Supported(l) && Supported(r)
    case CaseOrQuery => false
  }

  /** The value of an expression where `env` gives the columns. */
  function Value(fp: Rounded, e: Expr, env: Env): (v: Option<Field>) {
    match e
    case ColRef(id) => env(id)
    case Lit(val) => Some(val)
    case Binary(op, l, r) =>
      var a, b := Value(fp, l, env), Value(fp, r, env);
      if a.Some? && b.Some? then Apply(fp, op, a.value, b.value) else None
    case CaseOrQuery => None
  }

  predicate Holds(fp: Rounded, e: Expr, env: Env) {
    Value(fp, e, env) == Some(Bool(true))
  }

  function Free(e: Expr): (ids: set<ColId>) {
    match e
    case ColRef(id) => {id}
    case Lit(_) => {}
    case Binary(_, l, r) => Free(l) + Free(r)
    case CaseOrQuery => {}
  }

  lemma {:induction false} ValueLocal(fp: Rounded, e: Expr, a: Env, b: Env)
    requires forall id | id in Free(e) :: a(id) == b(id)
    ensures Value(fp, e, a) == Value(fp, e, b)
  {
    if e.Binary? {
      ValueLocal(fp, e.left, a, b);
      ValueLocal(fp, e.right, a, b);
    }
  }

  // ------------------------------------------------------------------ substitution

  /** Column ids without an entry are left as they are. */
  function Replace(e: Expr, m: map<ColId, ColId>): (r: Expr) {
    match e
    case ColRef(id) => if id in m then ColRef(m[id]) else e
    case Lit(_) => e
    case Binary(op, l, r) => Binary(op, Replace(l, m), Replace(r, m))
    case CaseOrQuery => e
  }

  function Through(m: map<ColId, ColId>, env: Env): (r: Env) {
    (id: ColId) => env(if id in m then m[id] else id)
  }

  /** Substituting columns in the expression is substituting them in the environment. */
  lemma {:induction false} ReplaceValue(fp: Rounded, e: Expr, m: map<ColId, ColId>, env: Env)
    ensures Value(fp, Replace(e, m), env) == Value(fp, e, Through(m, env))
    ensures Supported(Replace(e, m)) == Supported(e)
  {
    if e.Binary? {
      ReplaceValue(fp, e.left, m, env);
      ReplaceValue(fp, e.right, m, env);
    }
  }

  // ------------------------------------------------------------------ conjunctions

  function Split(e: Expr): (cs: seq<Expr>) {
    if e.Binary? && e.op == And then Split(e.left) + Split(e.right) else [e]
  }

  function Combine(cs: seq<Expr>): (e: Expr) {
    if |cs| == 1 then cs[0]
    else if cs == [] then Binary(Eq, Lit(BigInt(1)), Lit(BigInt(1)))
    else Binary(And, cs[0], Combine(cs[1..]))
  }

  predicate AllHold(fp: Rounded, cs: seq<Expr>, env: Env) {
    forall i | 0 <= i < |cs| :: Holds(fp, cs[i], env)
  }

  lemma OneHolds(fp: Rounded, e: Expr, env: Env)
    ensures AllHold(fp, [e], env) <==> Holds(fp, e, env)
  {
    assert [e][0] == e;
  }

  lemma AllHoldCat(fp: Rounded, a: seq<Expr>, b: seq<Expr>, env: Env)
    ensures AllHold(fp, a + b, env) <==> AllHold(fp, a, env) && AllHold(fp, b, env)
  {
    if AllHold(fp, a + b, env) {
      forall i | 0 <= i < |a| ensures Holds(fp, a[i], env) {
        assert (a + b)[i] == a[i];
      }
      forall i | 0 <= i < |b| ensures Holds(fp, b[i], env) {
        assert (a + b)[|a| + i] == b[i];
      }
    }
  }

  /** A predicate holds exactly when each of its conjuncts does. */
  lemma {:induction false} SplitHolds(fp: Rounded, e: Expr, env: Env)
    ensures Holds(fp, e, env) <==> AllHold(fp, Split(e), env)
  {
    if e.Binary? && e.op == And {
      SplitHolds(fp, e.left, env);
      SplitHolds(fp, e.right, env);
      AllHoldCat(fp, Split(e.left), Split(e.right), env);
    } else {
      assert Split(e)[0] == e;
    }
  }

  /** Combining predicates is their conjunction. */
  lemma {:induction false} CombineHolds(fp: Rounded, cs: seq<Expr>, env: Env)
    ensures Holds(fp, Combine(cs), env) <==> AllHold(fp, cs, env)
  {
    if |cs| > 1 {
      CombineHolds(fp, cs[1..], env);
      AllHoldCat(fp, [cs[0]], cs[1..], env);
      assert [cs[0]] + cs[1..] == cs && [cs[0]][0] == cs[0];
    }
  }
}
