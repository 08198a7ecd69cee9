/** The AST of components/ast/statement.py and what its nodes mean: `evaluate` of the
    expression classes and `run` of the statement classes, stated as functions over the
    variable store. The class `Memory.Memory` runs statements step by step against these
    functions. */
module Ast {
  import opened Values
  import opened Store

  /** `Operations` */
  datatype Op = Plus | Minus | Times | Divide | Greater | Less | Equals | NotEquals

  /** The expression classes: `Expression_string`, `Expression_number`,
      `Expression_boolean`, `VariableExpression` and `Expression_math`. */
  datatype Expr =
    | StringLit(s: string)
    | NumberLit(n: Value)
    | BooleanLit(b: bool)
    | Var(name: string)
    | Binary(op: Op, left: Expr, right: Expr)

  /** The statement classes: `PrintStatement`, `AssignmentStatement`, `IfStatement` (whose
      false block may be absent), `WhileStatement` and `CompoundStatement`. */
  datatype Stmt =
    | Print(e: Expr)
    | Assign(name: string, e: Expr)
    | If(cond: Expr, thenBlock: Stmt, elseBlock: Option<Stmt>)
    | While(cond: Expr, body: Stmt)
    | Compound(stmts: seq<Stmt>)

  /** Why an evaluation stops: `Variable '<name>' not defined`, an operator applied to
      operands of the wrong kinds, a division by zero, or an addition with a bool operand
      (`Addition operation between boolean and numeric values is not allowed.`). */
  datatype Error =
    | UndefinedVariable(name: string)
    | TypeError(op: Op, left: DataType, right: DataType)
    | ZeroDivision
    | BooleanAddition

  /** Python's `s * n` for a string and an int: `n` copies of `s`, none when `n <= 0`. */
  function Repeat(s: string, n: int): string
    decreases n
  {
    if n <= 0 then [] else s + Repeat(s, n - 1)
  }

  /** Python's `==` on two values: ints and floats compare by number, strings by content,
      bools with bools; values of other kinds differ. */
  predicate ValuesEqual(a: Value, b: Value): (r: bool)
    ensures a == b ==> r
    ensures r && !(IsNumeric(a) && IsNumeric(b)) ==> a == b
    ensures a.Int? && b.Real? ==> (r <==> a.i as real == b.r)
    ensures a.Bool? != b.Bool? ==> !r
  {
    if IsNumeric(a) && IsNumeric(b) then AsReal(a) == AsReal(b)
    else
      match (a, b)
      case (Str(x), Str(y)) => x == y
      case (Bool(x), Bool(y)) => x == y
      case _ => false
  }

  /** Python's `<` on strings: lexicographic by code point. */
  predicate StrLess(a: string, b: string) {
    if a == [] then b != []
    else if b == [] then false
    else if a[0] != b[0] then a[0] < b[0]
    else StrLess(a[1..], b[1..])
  }

  /** `+`, `-`, `*` and `/` on evaluated operands: numbers give an int when both are ints
      (except for `/`, which always gives a float), strings concatenate with `+` and repeat
      with `*` by an int; a zero divisor and every other combination are errors. */
  function Arithmetic(op: Op, a: Value, b: Value): (r: Result<Value, Error>)
    requires op in {Plus, Minus, Times, Divide}
    ensures r.Ok? <==>
              || (IsNumeric(a) && IsNumeric(b) && !(op == Divide && AsReal(b) == 0.0))
              || (op == Plus && a.Str? && b.Str?)
              || (op == Times && ((a.Str? && b.Int?) || (a.Int? && b.Str?)))
    ensures r.Err? ==>
              r.error == if op == Divide && IsNumeric(a) && IsNumeric(b) then ZeroDivision
                         else TypeError(op, TypeOf(a), TypeOf(b))
    ensures r.Ok? && IsNumeric(a) && IsNumeric(b) ==>
              IsNumeric(r.value) && (r.value.Int? <==> a.Int? && b.Int? && op != Divide)
    ensures r.Ok? && !(IsNumeric(a) && IsNumeric(b)) ==> r.value.Str?
  {
    if op == Divide then
      if IsNumeric(a) && IsNumeric(b) then
        if AsReal(b) == 0.0 then Err(ZeroDivision) else Ok(Real(AsReal(a) / AsReal(b)))
      else Err(TypeError(op, TypeOf(a), TypeOf(b)))
    else if a.Int? && b.Int? then
      Ok(Int(if op == Plus then a.i + b.i else if op == Minus then a.i - b.i else a.i * b.i))
    else if IsNumeric(a) && IsNumeric(b) then
      var x, y := AsReal(a), AsReal(b);
      Ok(Real(if op == Plus then x + y else if op == Minus then x - y else x * y))
    else if op == Plus && a.Str? && b.Str? then Ok(Str(a.s + b.s))
    else if op == Times && a.Str? && b.Int? then Ok(Str(Repeat(a.s, b.i)))
    else if op == Times && a.Int? && b.Str? then Ok(Str(Repeat(b.s, a.i)))
    else Err(TypeError(op, TypeOf(a), TypeOf(b)))
  }

  /** On numbers the int result and the float result both equal the exact real-number
      result: ints never overflow and floats are exact reals in this model. */
  lemma ArithmeticIsExact(op: Op, a: Value, b: Value)
    requires op in {Plus, Minus, Times, Divide} && IsNumeric(a) && IsNumeric(b)
    requires Arithmetic(op, a, b).Ok?
    ensures AsReal(Arithmetic(op, a, b).value)
              == if op == Plus then AsReal(a) + AsReal(b)
                 else if op == Minus then AsReal(a) - AsReal(b)
                 else if op == Times then AsReal(a) * AsReal(b)
                 else AsReal(a) / AsReal(b)
  {
  }

  /** `<` and `>` on evaluated operands: numbers by value, strings lexicographically; any
      other pair is a type error. */
  function Compare(op: Op, a: Value, b: Value): (r: Result<Value, Error>)
    requires op in {Less, Greater}
    ensures r.Ok? <==> (IsNumeric(a) && IsNumeric(b)) || (a.Str? && b.Str?)
    ensures r.Ok? ==> r.value.Bool? && (r.value.b ==> !ValuesEqual(a, b))
    ensures r.Err? ==> r.error == TypeError(op, TypeOf(a), TypeOf(b))
  {
    if IsNumeric(a) && IsNumeric(b) then
      Ok(Bool(if op == Less then AsReal(a) < AsReal(b) else AsReal(a) > AsReal(b)))
    else if a.Str? && b.Str? then
      StrLessTrichotomy(a.s, b.s);
      Ok(Bool(if op == Less then StrLess(a.s, b.s) else StrLess(b.s, a.s)))
    else Err(TypeError(op, TypeOf(a), TypeOf(b)))
  }

  /** `Expression_math.evaluate` once both operands are evaluated. */
  function Apply(op: Op, a: Value, b: Value): (r: Result<Value, Error>)
    ensures op == Plus && (a.Bool? || b.Bool?) ==> r == Err(BooleanAddition)
    ensures op == Divide && r.Ok? ==> r.value.Real?
    ensures op in {Less, Greater, Equals, NotEquals} && r.Ok? ==> r.value.Bool?
    ensures op in {Equals, NotEquals} ==> r.Ok?
    ensures a.Int? && b.Int? && op in {Plus, Minus, Times} ==> r.Ok? && r.value.Int?
    ensures IsNumeric(a) && IsNumeric(b) && op != Divide ==> r.Ok?
  {
    if op == Plus && (a.Bool? || b.Bool?) then Err(BooleanAddition)
    else
      match op
      case Equals => Ok(Bool(ValuesEqual(a, b)))
      case NotEquals => Ok(Bool(!ValuesEqual(a, b)))
      case Less => Compare(op, a, b)
      case Greater => Compare(op, a, b)
      case _ => Arithmetic(op, a, b)
  }

  /** `evaluate`: literals give their constant, a variable its stored value, and a binary
      node evaluates its left operand, then its right one, then applies the operator. */
  function Eval(e: Expr, vars: Vars): (r: Result<Value, Error>)
    ensures r.Ok? ==> FreeVars(e) <= vars.Keys
    ensures r.Err? && r.error.UndefinedVariable? ==> r.error.name in FreeVars(e) - vars.Keys
    ensures e.Var? ==> (r.Ok? <==> e.name in vars)
    ensures r.Ok? && e.Binary? && e.op in {Equals, NotEquals, Less, Greater} ==> r.value.Bool?
    ensures r.Ok? && e.Binary? && e.op == Divide ==> r.value.Real?
  {
    match e
    case StringLit(s) => Ok(Str(s))
    case NumberLit(n) => Ok(n)
    case BooleanLit(b) => Ok(Bool(b))
    case Var(name) =>
      (match Get(vars, name)
       case Some(v) => Ok(v)
       case None => Err(UndefinedVariable(name)))
    case Binary(op, l, r) =>
      match Eval(l, vars)
      case Err(x) => Err(x)
      case Ok(a) =>
        match Eval(r, vars)
        case Err(x) => Err(x)
        case Ok(b) => Apply(op, a, b)
  }

  /** How a run ends: normally, with an error, or by using up its loop budget. */
  datatype Status = Normal | Failed(error: Error) | OutOfFuel

  /** The store after a run, the values it printed in order, and how it ended. */
  datatype Outcome = Outcome(vars: Vars, printed: seq<Value>, status: Status)

  /** An outcome preceded by values printed earlier. */
  function Then(printed: seq<Value>, o: Outcome): Outcome {
    Outcome(o.vars, printed + o.printed, o.status)
  }

  /** `run`. Every `while` loop may perform at most `fuel` iterations, and each iteration's
      body runs with one unit less; a run that needs more ends with `OutOfFuel`. No
      statement removes a variable. */
  function Exec(s: Stmt, vars: Vars, fuel: nat): (r: Outcome)
    ensures vars.Keys <= r.vars.Keys
    decreases fuel, s
  {
    match s
    case Print(e) =>
      (match Eval(e, vars)
       case Ok(v) => Outcome(vars, [v], Normal)
       case Err(x) => Outcome(vars, [], Failed(x)))
    case Assign(name, e) =>
      (match Eval(e, vars)
       case Ok(v) => Outcome(Set(vars, name, v, TypeOf(v)), [], Normal)
       case Err(x) => Outcome(vars, [], Failed(x)))
    case If(c, t, f) =>
      (match Eval(c, vars)
       case Err(x) => Outcome(vars, [], Failed(x))
       case Ok(v) =>
         if Truthy(v) then Exec(t, vars, fuel)
         else if f.Some? then Exec(f.value, vars, fuel)
         else Outcome(vars, [], Normal))
    case While(c, body) =>
      if fuel == 0 then Outcome(vars, [], OutOfFuel)
      else
        (match Eval(c, vars)
         case Err(x) => Outcome(vars, [], Failed(x))
         case Ok(v) =>
           if !Truthy(v) then Outcome(vars, [], Normal)
           else
             var first := Exec(body, vars, fuel - 1);
             if first.status != Normal then first
             else Then(first.printed, Exec(s, first.vars, fuel - 1)))
    case Compound(ss) => ExecSeq(ss, vars, fuel)
  }

  /** `CompoundStatement.run`: the statements in order on one shared store, stopping at the
      first one that does not end normally. */
  function ExecSeq(ss: seq<Stmt>, vars: Vars, fuel: nat): (r: Outcome)
    ensures vars.Keys <= r.vars.Keys
    decreases fuel, ss
  {
    if ss == [] then Outcome(vars, [], Normal)
    else
      var first := Exec(ss[0], vars, fuel);
      if first.status != Normal then first
      else Then(first.printed, ExecSeq(ss[1..], first.vars, fuel))
  }

  // ---------------------------------------------------------------------------------------
  // Evaluation

  /** The names an expression reads from the store. */
  function FreeVars(e: Expr): set<string> {
    match e
    case Var(name) => {name}
    case Binary(_, l, r) => FreeVars(l) + FreeVars(r)
    case _ => {}
  }

  /** Evaluation reads the store only at the expression's own names: two stores that agree
      there give the same result. In particular a literal evaluates to its constant in every
      store. */
  lemma {:induction false} EvalFrame(e: Expr, v1: Vars, v2: Vars)
    requires forall n :: n in FreeVars(e) ==> Get(v1, n) == Get(v2, n)
    ensures Eval(e, v1) == Eval(e, v2)
  {
    match e
    case Binary(_, l, r) =>
      EvalFrame(l, v1, v2);
      EvalFrame(r, v1, v2);
    case _ =>
  }

  /** The literal nodes evaluate to their stored constant. */
  lemma LiteralValues(vars: Vars, s: string, n: Value, b: bool)
    ensures Eval(StringLit(s), vars) == Ok(Str(s))
    ensures Eval(NumberLit(n), vars) == Ok(n)
    ensures Eval(BooleanLit(b), vars) == Ok(Bool(b))
  {
  }

  /** A binary node evaluates both operands, left first: an error in the left operand is
      the result, then an error in the right one; otherwise the operator is applied to both
      values. */
  lemma BinaryEvaluatesLeftThenRight(op: Op, l: Expr, r: Expr, vars: Vars)
    ensures Eval(l, vars).Err? ==> Eval(Binary(op, l, r), vars) == Eval(l, vars)
    ensures Eval(l, vars).Ok? && Eval(r, vars).Err? ==>
              Eval(Binary(op, l, r), vars) == Eval(r, vars)
    ensures Eval(l, vars).Ok? && Eval(r, vars).Ok? ==>
              Eval(Binary(op, l, r), vars) == Apply(op, Eval(l, vars).value, Eval(r, vars).value)
  {
  }

  /** An expression that reads an unbound name fails, and the only names an
      `UndefinedVariable` error can carry are unbound names the expression reads. */
  lemma {:induction false} UndefinedVariableFails(e: Expr, vars: Vars)
    ensures (exists n :: n in FreeVars(e) && n !in vars) ==> Eval(e, vars).Err?
    ensures Eval(e, vars).Err? && Eval(e, vars).error.UndefinedVariable? ==>
              Eval(e, vars).error.name in FreeVars(e) && Eval(e, vars).error.name !in vars
    ensures e.Var? && e.name !in vars ==> Eval(e, vars) == Err(UndefinedVariable(e.name))
  {
    match e
    case Binary(_, l, r) =>
      UndefinedVariableFails(l, vars);
      UndefinedVariableFails(r, vars);
      if n :| n in FreeVars(e) && n !in vars {
        assert n in FreeVars(l) || n in FreeVars(r);
      }
    case _ =>
  }

  /** `!=` gives the negation of `==` on the same operands, and neither fails once its
      operands evaluate. */
  lemma NotEqualsNegatesEquals(l: Expr, r: Expr, vars: Vars)
    ensures Eval(Binary(NotEquals, l, r), vars).Ok? <==> Eval(Binary(Equals, l, r), vars).Ok?
    ensures Eval(Binary(Equals, l, r), vars).Ok? ==>
              Eval(Binary(Equals, l, r), vars).value.Bool? &&
              Eval(Binary(NotEquals, l, r), vars) == Ok(Bool(!Eval(Binary(Equals, l, r), vars).value.b))
  {
  }

  /** Value equality is reflexive, symmetric and transitive. */
  lemma ValuesEqualIsEquivalence(a: Value, b: Value, c: Value)
    ensures ValuesEqual(a, a)
    ensures ValuesEqual(a, b) ==> ValuesEqual(b, a)
    ensures ValuesEqual(a, b) && ValuesEqual(b, c) ==> ValuesEqual(a, c)
  {
  }

  /** Exactly one of `a < b`, `a == b` and `b < a` holds of two strings. */
  lemma {:induction false} StrLessTrichotomy(a: string, b: string)
    ensures StrLess(a, b) || a == b || StrLess(b, a)
    ensures !(StrLess(a, b) && StrLess(b, a))
    ensures StrLess(a, b) ==> a != b
  {
    if a != [] && b != [] && a[0] == b[0] {
      StrLessTrichotomy(a[1..], b[1..]);
      if a[1..] == b[1..] {
        assert a == [a[0]] + a[1..] && b == [b[0]] + b[1..];
      }
    }
  }

  /** String `<` is transitive, so with `StrLessTrichotomy` it is a strict total order. */
  lemma {:induction false} StrLessTransitive(a: string, b: string, c: string)
    ensures StrLess(a, b) && StrLess(b, c) ==> StrLess(a, c)
    decreases |a|
  {
    if a != [] && b != [] && c != [] && a[0] == b[0] && b[0] == c[0] {
      StrLessTransitive(a[1..], b[1..], c[1..]);
    }
  }

  /** `a < b` and `b > a` agree on every pair of values. */
  lemma LessIsFlippedGreater(a: Value, b: Value)
    ensures Apply(Less, a, b).Ok? <==> Apply(Greater, b, a).Ok?
    ensures Apply(Less, a, b).Ok? ==> Apply(Less, a, b) == Apply(Greater, b, a)
  {
  }

  /** A string repeated `n` times is `n` times as long, and empty when `n <= 0`. */
  lemma {:induction false} RepeatLength(s: string, n: int)
    ensures |Repeat(s, n)| == if n <= 0 then 0 else n * |s|
    decreases n
  {
    if n > 0 {
      RepeatLength(s, n - 1);
      assert |Repeat(s, n)| == |s| + (n - 1) * |s|;
    }
  }

  /** `/` is true division: an int divided by a non-zero int is their exact quotient as a
      float, and a zero divisor is an error. */
  lemma DivisionIsTrueDivision(l: Expr, r: Expr, vars: Vars, a: int, b: int)
    requires Eval(l, vars) == Ok(Int(a)) && Eval(r, vars) == Ok(Int(b))
    ensures b == 0 ==> Eval(Binary(Divide, l, r), vars) == Err(ZeroDivision)
    ensures b != 0 ==> Eval(Binary(Divide, l, r), vars) == Ok(Real(a as real / b as real))
  {
  }

  /** Integer arithmetic over int literals, an independent reference for `Eval`. */
  predicate IsIntArith(e: Expr) {
    match e
    case NumberLit(n) => n.Int?
    case Binary(op, l, r) => (op == Plus || op == Minus || op == Times) && IsIntArith(l) && IsIntArith(r)
    case _ => false
  }

  function IntDenote(e: Expr): int
    requires IsIntArith(e)
  {
    match e
    case NumberLit(n) => n.i
    case Binary(op, l, r) =>
      if op == Plus then IntDenote(l) + IntDenote(r)
      else if op == Minus then IntDenote(l) - IntDenote(r)
      else IntDenote(l) * IntDenote(r)
  }

  /** `+`, `-` and `*` over int literals never fail and give the exact mathematical integer,
      in any store; `10 + 5` is 15 and `2 * 3` is 6. */
  lemma {:induction false} IntArithmeticIsExact(e: Expr, vars: Vars)
    requires IsIntArith(e)
    ensures Eval(e, vars) == Ok(Int(IntDenote(e)))
  {
    match e
    case NumberLit(_) =>
    case Binary(_, l, r) =>
      IntArithmeticIsExact(l, vars);
      IntArithmeticIsExact(r, vars);
  }

  /** The expression values asserted by the module's own test function. */
  lemma ExpressionExamples(vars: Vars)
    ensures Eval(NumberLit(Int(42)), vars) == Ok(Int(42))
    ensures Eval(BooleanLit(true), vars) == Ok(Bool(true))
    ensures Eval(Binary(Plus, NumberLit(Int(10)), NumberLit(Int(5))), vars) == Ok(Int(15))
    ensures Eval(Binary(Times, NumberLit(Int(2)), NumberLit(Int(3))), vars) == Ok(Int(6))
  {
  }

  // ---------------------------------------------------------------------------------------
  // Execution

  /** A run that finishes within some loop budget gives the same outcome with any larger
      budget, so the budget only decides whether a run is cut short, never what it does. */
  lemma {:induction false} ExecFuelMonotone(s: Stmt, vars: Vars, fuel: nat, more: nat)
    requires fuel <= more
    requires Exec(s, vars, fuel).status != OutOfFuel
    ensures Exec(s, vars, more) == Exec(s, vars, fuel)
    decreases fuel, s
  {
    match s
    case Print(_) =>
    case Assign(_, _) =>
    case If(c, t, f) =>
      if Eval(c, vars).Ok? {
        if Truthy(Eval(c, vars).value) {
          ExecFuelMonotone(t, vars, fuel, more);
        } else if f.Some? {
          ExecFuelMonotone(f.value, vars, fuel, more);
        }
      }
    case While(c, body) =>
      if Eval(c, vars).Ok? && Truthy(Eval(c, vars).value) {
        var first := Exec(body, vars, fuel - 1);
        ExecFuelMonotone(body, vars, fuel - 1, more - 1);
        if first.status == Normal {
          ExecFuelMonotone(s, first.vars, fuel - 1, more - 1);
        }
      }
    case Compound(ss) =>
      ExecSeqFuelMonotone(ss, vars, fuel, more);
  }

  lemma {:induction false} ExecSeqFuelMonotone(ss: seq<Stmt>, vars: Vars, fuel: nat, more: nat)
    requires fuel <= more
    requires ExecSeq(ss, vars, fuel).status != OutOfFuel
    ensures ExecSeq(ss, vars, more) == ExecSeq(ss, vars, fuel)
    decreases fuel, ss
  {
    if ss != [] {
      var first := Exec(ss[0], vars, fuel);
      ExecFuelMonotone(ss[0], vars, fuel, more);
      if first.status == Normal {
        ExecSeqFuelMonotone(ss[1..], first.vars, fuel, more);
      }
    }
  }

  /** `print` outputs the value of its expression and changes nothing; an assignment stores
      the value with its runtime type under the name, so reading the name gives the value
      back. A failing expression leaves the store as it was. */
  lemma PrintAndAssign(e: Expr, name: string, vars: Vars, fuel: nat)
    ensures Eval(e, vars).Ok? ==>
              Exec(Print(e), vars, fuel) == Outcome(vars, [Eval(e, vars).value], Normal)
    ensures Eval(e, vars).Ok? ==>
              var r := Exec(Assign(name, e), vars, fuel);
              r.status == Normal && r.printed == [] &&
              r.vars == Set(vars, name, Eval(e, vars).value, TypeOf(Eval(e, vars).value)) &&
              Get(r.vars, name) == Some(Eval(e, vars).value)
    ensures Eval(e, vars).Err? ==>
              Exec(Print(e), vars, fuel) == Outcome(vars, [], Failed(Eval(e, vars).error)) &&
              Exec(Assign(name, e), vars, fuel) == Outcome(vars, [], Failed(Eval(e, vars).error))
  {
  }

  /** An `if` runs its true block when the condition is truthy, otherwise its false block if
      there is one, otherwise nothing. */
  lemma IfRunsOneBranch(c: Expr, t: Stmt, f: Option<Stmt>, vars: Vars, fuel: nat)
    requires Eval(c, vars).Ok?
    ensures Truthy(Eval(c, vars).value) ==> Exec(If(c, t, f), vars, fuel) == Exec(t, vars, fuel)
    ensures !Truthy(Eval(c, vars).value) && f.Some? ==>
              Exec(If(c, t, f), vars, fuel) == Exec(f.value, vars, fuel)
    ensures !Truthy(Eval(c, vars).value) && f.None? ==>
              Exec(If(c, t, f), vars, fuel) == Outcome(vars, [], Normal)
  {
  }

  /** A `while` whose condition is falsy at the start runs its body zero times. */
  lemma WhileZeroIterations(c: Expr, body: Stmt, vars: Vars, fuel: nat)
    requires fuel > 0 && Eval(c, vars).Ok? && !Truthy(Eval(c, vars).value)
    ensures Exec(While(c, body), vars, fuel) == Outcome(vars, [], Normal)
  {
  }

  /** A sequence of one statement runs as that statement. */
  lemma ExecSeqSingle(s: Stmt, vars: Vars, fuel: nat)
    ensures ExecSeq([s], vars, fuel) == Exec(s, vars, fuel)
  {
    var first := Exec(s, vars, fuel);
    if first.status == Normal {
      assert [s][1..] == [];
      assert first.printed + [] == first.printed;
    }
  }

  /** A `while` whose condition is truthy runs its body and then the whole loop again,
      re-evaluating the condition in the store the body left. */
  lemma WhileUnrolls(c: Expr, body: Stmt, vars: Vars, fuel: nat)
    requires fuel > 0 && Eval(c, vars).Ok? && Truthy(Eval(c, vars).value)
    ensures Exec(While(c, body), vars, fuel) == ExecSeq([body, While(c, body)], vars, fuel - 1)
  {
    var first := Exec(body, vars, fuel - 1);
    if first.status == Normal {
      assert [body, While(c, body)][1..] == [While(c, body)];
      ExecSeqSingle(While(c, body), first.vars, fuel - 1);
    }
  }

  /** Output printed before an outcome that itself follows earlier output. */
  lemma ThenThen(p: seq<Value>, q: seq<Value>, o: Outcome)
    ensures Then(p, Then(q, o)) == Then(p + q, o)
  {
    assert p + (q + o.printed) == (p + q) + o.printed;
  }

  /** A suffix of a statement list runs its first statement, then the rest if that one
      ended normally. */
  lemma ExecSeqFrom(ss: seq<Stmt>, i: nat, vars: Vars, fuel: nat)
    requires i < |ss|
    ensures var first := Exec(ss[i], vars, fuel);
            ExecSeq(ss[i..], vars, fuel) ==
              if first.status != Normal then first else Then(first.printed, ExecSeq(ss[i + 1..], first.vars, fuel))
  {
    assert ss[i..][0] == ss[i] && ss[i..][1..] == ss[i + 1..];
  }

  /** One iteration of a `while` whose condition is truthy. */
  lemma WhileStep(c: Expr, body: Stmt, vars: Vars, fuel: nat)
    requires fuel > 0 && Eval(c, vars).Ok? && Truthy(Eval(c, vars).value)
    ensures var first := Exec(body, vars, fuel - 1);
            Exec(While(c, body), vars, fuel) ==
              if first.status != Normal then first else Then(first.printed, Exec(While(c, body), first.vars, fuel - 1))
  {
  }

  /** Running `a + b` runs `a`, then, if `a` ended normally, `b` in the store `a` left, with
      the output of `b` after that of `a`. */
  lemma {:induction false} ExecSeqAppend(a: seq<Stmt>, b: seq<Stmt>, vars: Vars, fuel: nat)
    ensures var o := ExecSeq(a, vars, fuel);
            ExecSeq(a + b, vars, fuel) ==
              if o.status != Normal then o else Then(o.printed, ExecSeq(b, o.vars, fuel))
    decreases a
  {
    if a == [] {
      assert a + b == b;
    } else {
      assert (a + b)[0] == a[0] && (a + b)[1..] == a[1..] + b;
      var first := Exec(a[0], vars, fuel);
      if first.status == Normal {
        ExecSeqAppend(a[1..], b, first.vars, fuel);
        var o := ExecSeq(a[1..], first.vars, fuel);
        if o.status == Normal {
          assert first.printed + (o.printed + ExecSeq(b, o.vars, fuel).printed)
              == (first.printed + o.printed) + ExecSeq(b, o.vars, fuel).printed;
        }
      }
    }
  }

  // ---------------------------------------------------------------------------------------
  // The countdown of the module's own tests

  /** `while (count > 0) { print(count); count = count - 1; }` */
  function Countdown(): Stmt {
    While(Binary(Greater, Var("count"), NumberLit(Int(0))),
          Compound([Print(Var("count")), Assign("count", Binary(Minus, Var("count"), NumberLit(Int(1))))]))
  }

  function CountStore(n: int): Vars {
    map["count" := Entry(Int(n), IntType)]
  }

  /** `n`, `n - 1`, ..., `1`. */
  function CountingDown(n: nat): seq<Value> {
    if n == 0 then [] else [Int(n)] + CountingDown(n - 1)
  }

  /** From `count = n`, the loop prints `n` down to 1 and leaves `count` at 0, given a budget
      of more than `n` iterations. */
  lemma CountdownRuns(n: nat, fuel: nat)
    requires fuel > n
    ensures Exec(Countdown(), CountStore(n), fuel) == Outcome(CountStore(0), CountingDown(n), Normal)
  {
    CountdownLoop(Countdown(), n, fuel);
  }

  /** The induction behind `CountdownRuns`, over any statement equal to the loop. */
  lemma {:induction false} CountdownLoop(w: Stmt, n: nat, fuel: nat)
    requires w == Countdown() && fuel > n
    ensures Exec(w, CountStore(n), fuel) == Outcome(CountStore(0), CountingDown(n), Normal)
  {
    if n == 0 {
      CountdownEnd(w, fuel);
    } else {
      CountdownStep(w, n, fuel);
      CountdownLoop(w, n - 1, fuel - 1);
      assert CountingDown(n) == [Int(n)] + CountingDown(n - 1);
    }
  }

  /** At `count = 0` the countdown stops at once. */
  lemma CountdownEnd(w: Stmt, fuel: nat)
    requires w == Countdown() && fuel > 0
    ensures Exec(w, CountStore(0), fuel) == Outcome(CountStore(0), [], Normal)
  {
    CountdownCondition(0);
    WhileZeroIterations(w.cond, w.body, CountStore(0), fuel);
  }

  /** One iteration of the countdown from `count = n`. */
  lemma CountdownStep(w: Stmt, n: nat, fuel: nat)
    requires w == Countdown() && n > 0 && fuel > 0
    ensures Exec(w, CountStore(n), fuel) == Then([Int(n)], Exec(w, CountStore(n - 1), fuel - 1))
  {
    CountdownCondition(n);
    WhileStep(w.cond, w.body, CountStore(n), fuel);
    CountdownBody(n, fuel - 1);
  }

  /** The loop condition `count > 0` in the store where `count` is `n`. */
  lemma CountdownCondition(n: int)
    ensures Eval(Countdown().cond, CountStore(n)) == Ok(Bool(n > 0))
  {
    assert Eval(Var("count"), CountStore(n)) == Ok(Int(n));
  }

  /** One pass of the countdown's body prints `count` and lowers it by one. */
  lemma CountdownBody(n: nat, fuel: nat)
    requires n > 0
    ensures Exec(Countdown().body, CountStore(n), fuel) == Outcome(CountStore(n - 1), [Int(n)], Normal)
  {
    var body := Countdown().body;
    assert Exec(body.stmts[0], CountStore(n), fuel) == Outcome(CountStore(n), [Int(n)], Normal);
    assert Eval(body.stmts[1].e, CountStore(n)) == Ok(Int(n - 1));
    assert Set(CountStore(n), "count", Int(n - 1), IntType) == CountStore(n - 1);
    assert Exec(body.stmts[1], CountStore(n), fuel) == Outcome(CountStore(n - 1), [], Normal);
    ExecSeqSingle(body.stmts[1], CountStore(n), fuel);
    assert body.stmts[1..] == [body.stmts[1]];
  }

  /** A countdown from 3 prints 3, 2, 1. */
  lemma CountdownFromThree()
    ensures var r := Exec(Countdown(), CountStore(3), 4);
            r.status == Normal && r.printed == [Int(3), Int(2), Int(1)] && Get(r.vars, "count") == Some(Int(0))
  {
    CountdownRuns(3, 4);
  }
}
