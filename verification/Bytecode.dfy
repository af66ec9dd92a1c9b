/** Expressions compiled to a stack machine. */
module Bytecode {
  import opened Base
  import opened Exprs

  const PUSH_LIT := 0
  const PUSH_FIELD := 1

  /** The opcode of an operator: its place in the dispatch table. */
  function Code(op: Op): (n: nat) {
    match op
    case Add => 2
    case Sub => 3
    case Mul => 4
    case Div => 5
    case Eq => 6
    case Neq => 7
    case Lt => 8
    case Gt => 9
    case Le => 10
    case Ge => 11
    case And => 12
    case Or => 13
  }

  /** What the dispatch table does for an opcode past the two pushes. */
  function OpOf(n: nat): (op: Option<Op>) {
    match n
    case 2 => Some(Add)
    case 3 => Some(Sub)
    case 4 => Some(Mul)
    case 5 => Some(Div)
    case 6 => Some(Eq)
    case 7 => Some(Neq)
    case 8 => Some(Lt)
    case 9 => Some(Gt)
    case 10 => Some(Le)
    case 11 => Some(Ge)
    case 12 => Some(And)
    case 13 => Some(Or)
    case _ => None
  }

  /** Compiled code and its literal table. */
  datatype Program = Program(codes: seq<nat>, lits: seq<Field>)

  // ------------------------------------------------------------------ the machine

  /** One dispatch: the program counter and the stack afterwards, or a panic. */
  function Dispatch(fp: Rounded, p: Program, i: nat, stack: seq<Field>, row: Row): (r: Option<(nat, seq<Field>)>)
    requires i < |p.codes|
    ensures r.Some? ==> r.value.0 > i
  {
    var code := p.codes[i];
    if code == PUSH_LIT || code == PUSH_FIELD then
      if i + 1 >= |p.codes| then None
      else
        var source := if code == PUSH_LIT then p.lits else row;
        if p.codes[i + 1] < |source| then Some((i + 2, stack + [source[p.codes[i + 1]]])) else None
    else
      var op := OpOf(code);
      if op.None? || |stack| < 2 then None
      else
        var n := |stack| - 2;
        var v := Apply(fp, op.value, stack[n], stack[n + 1]);
        if v.Some? then Some((i + 1, stack[..n] + [v.value])) else None
  }

  /** The stack after the program has run from `i` to its end. */
  function Run(fp: Rounded, p: Program, i: nat, stack: seq<Field>, row: Row): (r: Option<seq<Field>>)
    decreases |p.codes| - i
  {
    if i >= |p.codes| then Some(stack)
    else
      var next := Dispatch(fp, p, i, stack, row);
      if next.Some? then Run(fp, p, next.value.0, next.value.1, row) else None
  }

  /** The value on top of the stack at the end; an empty program panics. */
  function Eval(fp: Rounded, p: Program, row: Row): (v: Option<Field>) {
    if p.codes == [] then None
    else
      var r := Run(fp, p, 0, [], row);
      if r.Some? && r.value != [] then Some(r.value[|r.value| - 1]) else None
  }

  /** The evaluation loop. */
  method Execute(fp: Rounded, p: Program, row: Row) returns (v: Option<Field>)
    ensures v == Eval(fp, p, row)
  {
    if p.codes == [] {
      return None;
    }
    var stack: seq<Field> := [];
    var i := 0;
    while i < |p.codes|
      invariant Run(fp, p, i, stack, row) == Run(fp, p, 0, [], row)
      decreases |p.codes| - i
    {
      var next := Dispatch(fp, p, i, stack, row);
      if next.None? {
        return None;
      }
      i, stack := next.value.0, next.value.1;
    }
    return if stack == [] then None else Some(stack[|stack| - 1]);
  }

  // ------------------------------------------------------------------ the compiler

  /** The code of an expression whose literals start at `base`, and those literals. */
  function Codes(e: Expr, base: nat): (codes: seq<nat>)
    requires Supported(e)
    ensures |codes| > 0
  {
    match e
    case ColRef(id) => [PUSH_FIELD, id]
    case Lit(_) => [PUSH_LIT, base]
    case Binary(op, l, r) => Codes(l, base) + Codes(r, base + |Lits(l)|) + [Code(op)]
  }

  function Lits(e: Expr): (lits: seq<Field>) {
    match e
    case Lit(val) => [val]
    case Binary(_, l, r) => Lits(l) + Lits(r)
    case _ => []
  }

  lemma CatAssoc<T>(o: seq<T>, a: seq<T>, b: seq<T>, c: seq<T>)
    ensures o + a + b + c == o + (a + b + c)
    ensures c == [] ==> o + a + b == o + (a + b)
  {
  }

  class ByteCodeExpr {
    var codes: seq<nat>
    var lits: seq<Field>

    constructor ()
      ensures codes == [] && lits == []
    {
      codes, lits := [], [];
    }

    method AddCode(code: nat)
      modifies this
      ensures codes == old(codes) + [code] && lits == old(lits)
    {
      codes := codes + [code];
    }

    method AddLiteral(f: Field) returns (i: nat)
      modifies this
      ensures codes == old(codes) && lits == old(lits) + [f] && i == |old(lits)|
    {
      i := |lits|;
      lits := lits + [f];
    }

    /** Append the code of `e`; fails on the forms that are not executable. */
    method Append(e: Expr) returns (ok: bool)
      modifies this
      ensures ok <==> Supported(e)
      ensures ok ==> codes == old(codes) + Codes(e, |old(lits)|) && lits == old(lits) + Lits(e)
      decreases e
    {
      match e
      case Lit(val) =>
        var i := AddLiteral(val);
        AddCode(PUSH_LIT);
        AddCode(i);
        ok := true;
      case Binary(op, l, r) =>
        ok := Append(l);
        if ok {
          ok := Append(r);
        }
        if ok {
          AddCode(Code(op));
          ghost var n := |old(lits)|;
          CatAssoc(old(codes), Codes(l, n), Codes(r, n + |Lits(l)|), [Code(op)]);
          CatAssoc(old(lits), Lits(l), Lits(r), []);
        }
      case ColRef(id) =>
        AddCode(PUSH_FIELD);
        AddCode(id);
        ok := true;
      case CaseOrQuery =>
        ok := false;
    }
  }

  /** The program of an expression, its columns first replaced by offsets. */
  function Compiled(e: Expr, m: map<ColId, nat>): (p: Program)
    requires Supported(e)
  {
    var id := (i: ColId) => None;
    ReplaceValue((op, a, b) => None, e, m, id);
    Program(Codes(Replace(e, m), 0), Lits(Replace(e, m)))
  }

  method Convert(e: Expr, m: map<ColId, nat>) returns (p: Option<Program>)
    ensures p.Some? <==> Supported(e)
    ensures p.Some? ==> p.value == Compiled(e, m)
  {
    ghost var id := (i: ColId) => None;
    ReplaceValue((op, a, b) => None, e, m, id);
    var code := new ByteCodeExpr();
    var ok := code.Append(Replace(e, m));
    p := if ok then Some(Program(code.codes, code.lits)) else None;
  }

  // ------------------------------------------------------------------ the machine computes the value

  function RowEnv(row: Row): (env: Env) {
    (i: ColId) => if i < |row| then Some(row[i]) else None
  }

  ghost predicate SliceIs<T>(s: seq<T>, i: nat, x: seq<T>) {
    i + |x| <= |s| && s[i..i + |x|] == x
  }

  /** The code of `e` stands in `p` at `i`, and its literals in the table at `base`. */
  ghost predicate Placed(p: Program, i: nat, e: Expr, base: nat)
    requires Supported(e)
  {
    SliceIs(p.codes, i, Codes(e, base)) && SliceIs(p.lits, base, Lits(e))
  }

  lemma CodeOp(op: Op)
    ensures OpOf(Code(op)) == Some(op) && Code(op) != PUSH_LIT && Code(op) != PUSH_FIELD
  {
  }

  lemma PlacedParts(p: Program, i: nat, e: Expr, base: nat)
    requires Supported(e) && e.Binary? && Placed(p, i, e, base)
    ensures Placed(p, i, e.left, base)
    ensures Placed(p, i + |Codes(e.left, base)|, e.right, base + |Lits(e.left)|)
    ensures i + |Codes(e, base)| <= |p.codes| && p.codes[i + |Codes(e, base)| - 1] == Code(e.op)
  {
    hide SliceIs;
    var a, b := Codes(e.left, base), Codes(e.right, base + |Lits(e.left)|);
    SlicesCat(p.codes, i, a + b, [Code(e.op)]);
    SlicesCat(p.codes, i, a, b);
    SlicesCat(p.lits, base, Lits(e.left), Lits(e.right));
    SliceLast(p.codes, i + |a + b|, Code(e.op));
  }

  lemma SliceLast<T>(s: seq<T>, i: nat, x: T)
    requires SliceIs(s, i, [x])
    ensures i < |s| && s[i] == x
  {
    assert s[i..i + 1][0] == x;
  }

  lemma SlicesCat<T>(s: seq<T>, i: nat, x: seq<T>, y: seq<T>)
    requires SliceIs(s, i, x + y)
    ensures SliceIs(s, i, x) && SliceIs(s, i + |x|, y)
  {
    assert (x + y)[..|x|] == x && (x + y)[|x|..] == y;
  }

  /** Running the code of `e` pushes its value and goes on, or panics exactly when `e` has no value. */
  lemma {:induction false} RunsCode(fp: Rounded, p: Program, i: nat, e: Expr, base: nat, stack: seq<Field>, row: Row)
    requires Supported(e) && Placed(p, i, e, base)
    ensures Run(fp, p, i, stack, row) ==
      match Value(fp, e, RowEnv(row))
      case Some(v) => Run(fp, p, i + |Codes(e, base)|, stack + [v], row)
      case None => None
    decreases e
  {
    hide Dispatch, Apply, Code, Placed;
    match e
    case ColRef(id) => RunsPush(fp, p, i, e, base, stack, row);
    case Lit(val) => RunsPush(fp, p, i, e, base, stack, row);
    case Binary(op, l, r) =>
      PlacedParts(p, i, e, base);
      RunsCode(fp, p, i, l, base, stack, row);
      var a, b := Value(fp, l, RowEnv(row)), Value(fp, r, RowEnv(row));
      if a.Some? {
        var j := i + |Codes(l, base)|;
        RunsCode(fp, p, j, r, base + |Lits(l)|, stack + [a.value], row);
        if b.Some? {
          RunsOp(fp, p, i + |Codes(e, base)| - 1, op, stack, a.value, b.value, row);
        }
      }
  }

  lemma RunsPush(fp: Rounded, p: Program, i: nat, e: Expr, base: nat, stack: seq<Field>, row: Row)
    requires Supported(e) && Placed(p, i, e, base) && !e.Binary?
    ensures Run(fp, p, i, stack, row) ==
      match Value(fp, e, RowEnv(row))
      case Some(v) => Run(fp, p, i + |Codes(e, base)|, stack + [v], row)
      case None => None
  {
    hide Apply;
    assert p.codes[i..i + 2][0] == p.codes[i] && p.codes[i..i + 2][1] == p.codes[i + 1];
    if e.Lit? {
      assert p.lits[base..base + 1][0] == e.val;
    }
  }

  lemma RunsOp(fp: Rounded, p: Program, i: nat, op: Op, stack: seq<Field>, a: Field, b: Field, row: Row)
    requires i < |p.codes| && p.codes[i] == Code(op)
    ensures Run(fp, p, i, stack + [a] + [b], row) ==
      match Apply(fp, op, a, b)
      case Some(v) => Run(fp, p, i + 1, stack + [v], row)
      case None => None
  {
    hide Apply, Code, OpOf;
    CodeOp(op);
    var s := stack + [a] + [b];
    assert s[|s| - 2] == a && s[|s| - 1] == b && s[..|s| - 2] == stack;
  }

  /**
   * Compiling an expression and running it yields its value under the substituted columns; the
   * stack never underflows and ends with exactly one value.
   */
  lemma CompileCorrect(fp: Rounded, e: Expr, m: map<ColId, nat>, row: Row)
    requires Supported(e)
    ensures Eval(fp, Compiled(e, m), row) == Value(fp, e, Through(m, RowEnv(row)))
    ensures var r := Run(fp, Compiled(e, m), 0, [], row);
      r.Some? ==> |r.value| == 1
  {
    var p, e' := Compiled(e, m), Replace(e, m);
    ReplaceValue(fp, e, m, RowEnv(row));
    assert p.codes[0..|p.codes|] == p.codes && p.lits[0..|p.lits|] == p.lits;
    RunsCode(fp, p, 0, e', 0, [], row);
  }
}
