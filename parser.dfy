/** The grammar of components/parsers.py (`ASTParser`) as a recursive-descent parser over
    the lexer's tokens.

    The grammar is ambiguous and SLY disambiguates it with the precedence table: `==` and
    `!=` bind weakest of the listed operators, then `+` and `-`, then `*` and `/`, all
    left-associative. `<` and `>` are not in the table; SLY then gives them level 0 and
    right associativity, so they bind weaker than every listed operator and `a < b < c`
    groups as `a < (b < c)`. Here each level is one function over the token sequence
    (precedence climbing), returning the node and the tokens left over; a syntax error is
    `None`. */
module Parser {
  import opened Values
  import opened Ast
  import opened Store
  import Lexer

  type Token = Lexer.Token

  // ---------------------------------------------------------------------------------------
  // Tokens as the grammar sees them

  /** The binary operator a token stands for, if any. */
  function OperatorOf(t: Token): Option<Op> {
    match t.kind
    case Less => Some(Op.Less)
    case Greater => Some(Op.Greater)
    case Equals => Some(Op.Equals)
    case NotEquals => Some(Op.NotEquals)
    case Literal(c) =>
      if c == '+' then Some(Plus)
      else if c == '-' then Some(Minus)
      else if c == '*' then Some(Times)
      else if c == '/' then Some(Divide)
      else None
    case _ => None
  }

  /** Binding strength, weakest first. */
  function Level(op: Op): (n: nat)
    ensures n <= 3
  {
    match op
    case Less => 0
    case Greater => 0
    case Equals => 1
    case NotEquals => 1
    case Plus => 2
    case Minus => 2
    case Times => 3
    case Divide => 3
  }

  /** The level of atoms, above every operator. */
  const AtomLevel: nat := 4

  predicate IsLiteral(t: Token, c: char) {
    t.kind == Lexer.Kind.Literal(c)
  }

  /** The tokens a statement can start with. */
  predicate StartsStatement(t: Token) {
    t.kind.Print? || t.kind.Name? || t.kind.If? || t.kind.While?
  }

  /** The one-token expressions: NUMBER, STRING and BOOLEAN become literal nodes holding the
      token's value and NAME a variable reference. A token whose value does not fit its
      type, which the lexer never produces (`Lexer.LexWellFormed`), is not an atom. */
  function Atom(t: Token): (r: Option<Expr>)
    ensures r.Some? <==> (t.kind.Number? || t.kind.String? || t.kind.Boolean? || t.kind.Name?) && Lexer.WellFormed(t)
    ensures r.Some? ==> Shaped(r.value, AtomLevel) && Unparse(r.value) == [Lexer.Token(t.kind, t.value, 1)]
  {
    if t.kind.Number? && (t.value.Int? || t.value.Real?) then Some(NumberLit(t.value))
    else if t.kind.String? && t.value.Str? then Some(StringLit(t.value.s))
    else if t.kind.Boolean? && t.value.Bool? then Some(BooleanLit(t.value.b))
    else if t.kind.Name? && t.value.Str? then Some(Var(t.value.s))
    else None
  }

  // ---------------------------------------------------------------------------------------
  // Expressions

  /** An expression whose operators all bind at least as strongly as `level`, followed by the
      tokens it did not consume. Levels 1 to 3 are left-associative, level 0 (`<`, `>`)
      right-associative. */
  function ParseExpr(level: nat, ts: seq<Token>): (r: Option<(Expr, seq<Token>)>)
    requires level <= AtomLevel
    ensures r.Some? ==> |r.value.1| < |ts|
    decreases |ts|, AtomLevel - level
  {
    if level == AtomLevel then
      if ts != [] && Atom(ts[0]).Some? then Some((Atom(ts[0]).value, ts[1..])) else None
    else
      var first := ParseExpr(level + 1, ts);
      if first.None? then None
      else
        var left, rest := first.value.0, first.value.1;
        if level > 0 then ParseTail(level, left, rest)
        else if rest != [] && OperatorOf(rest[0]).Some? && Level(OperatorOf(rest[0]).value) == 0 then
          var second := ParseExpr(0, rest[1..]);
          if second.None? then None
          else Some((Binary(OperatorOf(rest[0]).value, left, second.value.0), second.value.1))
        else Some((left, rest))
  }

  /** The rest of a left-associative chain at `level`: while an operator of that level comes
      next, combine what was parsed so far with the operand after it. */
  function ParseTail(level: nat, left: Expr, ts: seq<Token>): (r: Option<(Expr, seq<Token>)>)
    requires 1 <= level < AtomLevel
    ensures r.Some? ==> |r.value.1| <= |ts|
    decreases |ts|, 0
  {
    if ts != [] && OperatorOf(ts[0]).Some? && Level(OperatorOf(ts[0]).value) == level then
      var next := ParseExpr(level + 1, ts[1..]);
      if next.None? then None
      else ParseTail(level, Binary(OperatorOf(ts[0]).value, left, next.value.0), next.value.1)
    else Some((left, ts))
  }

  // ---------------------------------------------------------------------------------------
  // Statements

  /** `"(" expr ")"`, as after PRINT, IF and WHILE. */
  function ParseCondition(ts: seq<Token>): (r: Option<(Expr, seq<Token>)>)
    ensures r.Some? ==> |r.value.1| < |ts|
  {
    if ts == [] || !IsLiteral(ts[0], '(') then None
    else
      var e := ParseExpr(0, ts[1..]);
      if e.None? then None
      else
        var rest := e.value.1;
        if rest != [] && IsLiteral(rest[0], ')') then Some((e.value.0, rest[1..])) else None
  }

  /** `"{" statements "}"`, which becomes a `CompoundStatement`. */
  function ParseBlock(ts: seq<Token>): (r: Option<(Stmt, seq<Token>)>)
    ensures r.Some? ==> |r.value.1| < |ts|
    decreases |ts|, 0
  {
    if ts == [] || !IsLiteral(ts[0], '{') then None
    else
      var body := ParseStatements(ts[1..]);
      if body.None? then None
      else
        var rest := body.value.1;
        if rest != [] && IsLiteral(rest[0], '}') then Some((Compound(body.value.0), rest[1..]))
        else None
  }

  /** One statement: `print(e)`, `name = e`, `if (c) {..}` with an optional `else {..}`, or
      `while (c) {..}`. An assignment keeps its expression unevaluated. */
  function ParseStatement(ts: seq<Token>): (r: Option<(Stmt, seq<Token>)>)
    ensures r.Some? ==> |r.value.1| < |ts|
    decreases |ts|, 1
  {
    if ts == [] then None
    else if ts[0].kind.Print? then
      var e := ParseCondition(ts[1..]);
      if e.None? then None else Some((Print(e.value.0), e.value.1))
    else if ts[0].kind.Name? && ts[0].value.Str? then
      if |ts| > 1 && IsLiteral(ts[1], '=') then
        var e := ParseExpr(0, ts[2..]);
        if e.None? then None else Some((Assign(ts[0].value.s, e.value.0), e.value.1))
      else None
    else if ts[0].kind.If? then
      var c := ParseCondition(ts[1..]);
      if c.None? then None
      else
        var t := ParseBlock(c.value.1);
        if t.None? then None
        else
          var rest := t.value.1;
          if rest != [] && rest[0].kind.Else? then
            var f := ParseBlock(rest[1..]);
            if f.None? then None else Some((If(c.value.0, t.value.0, Some(f.value.0)), f.value.1))
          else Some((If(c.value.0, t.value.0, None), rest))
    else if ts[0].kind.While? then
      var c := ParseCondition(ts[1..]);
      if c.None? then None
      else
        var b := ParseBlock(c.value.1);
        if b.None? then None else Some((While(c.value.0, b.value.0), b.value.1))
    else None
  }

  /** `statements`: one or more statements, each followed by `;`. After a `;` the list goes
      on exactly when the next token can start a statement. */
  function ParseStatements(ts: seq<Token>): (r: Option<(seq<Stmt>, seq<Token>)>)
    ensures r.Some? ==> |r.value.1| < |ts| && |r.value.0| > 0
    decreases |ts|, 2
  {
    var first := ParseStatement(ts);
    if first.None? then None
    else
      var rest := first.value.1;
      if rest == [] || !IsLiteral(rest[0], ';') then None
      else if |rest| > 1 && StartsStatement(rest[1]) then
        var more := ParseStatements(rest[1..]);
        if more.None? then None else Some(([first.value.0] + more.value.0, more.value.1))
      else Some(([first.value.0], rest[1..]))
  }

  /** `program`: the statement list, which must take up every token; never empty. */
  function Parse(ts: seq<Token>): (r: Option<seq<Stmt>>)
    ensures r.Some? ==> |r.value| > 0
  {
    var p := ParseStatements(ts);
    if p.Some? && p.value.1 == [] then Some(p.value.0) else None
  }

  // ---------------------------------------------------------------------------------------
  // The trees the grammar produces, and a canonical token sequence for each

  /** The expressions `ParseExpr(level, _)` can produce: at the atom level a single literal or
      name; at a left-associative level a chain whose last operand binds more strongly; at
      level 0 a comparison whose left operand binds more strongly. */
  predicate Shaped(e: Expr, level: nat)
    decreases e, AtomLevel - level
  {
    if level >= AtomLevel then
      match e
      case NumberLit(n) => n.Int? || n.Real?
      case Binary(_, _, _) => false
      case _ => true
    else if e.Binary? && Level(e.op) == level then
      if level == 0 then Shaped(e.left, 1) && Shaped(e.right, 0)
      else Shaped(e.left, level) && Shaped(e.right, level + 1)
    else Shaped(e, level + 1)
  }

  /** No operator of `level` or above comes next, so an expression at `level` ends here. */
  predicate EndsExpr(level: nat, ts: seq<Token>) {
    ts == [] || OperatorOf(ts[0]).None? || Level(OperatorOf(ts[0]).value) < level
  }

  function Punct(c: char): Token {
    Lexer.Token(Lexer.Kind.Literal(c), Str([c]), 1)
  }

  function OperatorToken(op: Op): Token {
    match op
    case Less => Lexer.Token(Lexer.Kind.Less, Str("<"), 1)
    case Greater => Lexer.Token(Lexer.Kind.Greater, Str(">"), 1)
    case Equals => Lexer.Token(Lexer.Kind.Equals, Str("=="), 1)
    case NotEquals => Lexer.Token(Lexer.Kind.NotEquals, Str("!="), 1)
    case Plus => Punct('+')
    case Minus => Punct('-')
    case Times => Punct('*')
    case Divide => Punct('/')
  }

  /** Tokens that spell an expression, operands in order, without parentheses (the grammar
      has none). */
  function Unparse(e: Expr): seq<Token> {
    match e
    case StringLit(s) => [Lexer.Token(Lexer.Kind.String, Str(s), 1)]
    case NumberLit(n) => [Lexer.Token(Lexer.Kind.Number, n, 1)]
    case BooleanLit(b) => [Lexer.Token(Lexer.Kind.Boolean, Bool(b), 1)]
    case Var(x) => [Lexer.Token(Lexer.Kind.Name, Str(x), 1)]
    case Binary(op, l, r) => Unparse(l) + [OperatorToken(op)] + Unparse(r)
  }

  /** Every operator token maps back to its operator. */
  lemma OperatorTokenRoundTrip(op: Op)
    ensures OperatorOf(OperatorToken(op)) == Some(op)
  {
  }

  // ---------------------------------------------------------------------------------------
  // Expressions: the parser inverts Unparse, and produces only shaped trees

  /** An expression of `level`, spelled out and followed by tokens that end it, parses back
      to itself with those tokens left over. */
  lemma {:induction false} ExprRoundTrip(level: nat, e: Expr, rest: seq<Token>)
    requires level <= AtomLevel && Shaped(e, level) && EndsExpr(level, rest)
    ensures ParseExpr(level, Unparse(e) + rest) == Some((e, rest))
    decreases e, AtomLevel - level, 1
  {
    var ts := Unparse(e) + rest;
    if level == AtomLevel {
      assert ts[0] == Unparse(e)[0] && ts[1..] == rest;
    } else if level == 0 && e.Binary? && Level(e.op) == 0 {
      var after := [OperatorToken(e.op)] + (Unparse(e.right) + rest);
      OperatorTokenRoundTrip(e.op);
      BinaryTokens(e, rest);
      ExprRoundTrip(1, e.left, after);
      assert after[1..] == Unparse(e.right) + rest;
      ExprRoundTrip(0, e.right, rest);
    } else if level == 0 {
      ExprRoundTrip(1, e, rest);
    } else {
      ChainRoundTrip(level, e, rest);
      assert ParseTail(level, e, rest) == Some((e, rest));
    }
  }

  /** The tokens of a binary expression, grouped as the parser reads them. */
  lemma BinaryTokens(e: Expr, rest: seq<Token>)
    requires e.Binary?
    ensures Unparse(e) + rest == Unparse(e.left) + ([OperatorToken(e.op)] + (Unparse(e.right) + rest))
  {
    Regroup3(Unparse(e.left), [OperatorToken(e.op)], Unparse(e.right), rest);
  }

  /** At a left-associative level the parser reads a spelled chain and hands what follows to
      `ParseTail`, which may go on with further operators of the same level. */
  lemma {:induction false} ChainRoundTrip(level: nat, e: Expr, rest: seq<Token>)
    requires 1 <= level < AtomLevel && Shaped(e, level) && EndsExpr(level + 1, rest)
    ensures ParseExpr(level, Unparse(e) + rest) == ParseTail(level, e, rest)
    decreases e, AtomLevel - level, 0
  {
    if e.Binary? && Level(e.op) == level {
      var after := [OperatorToken(e.op)] + (Unparse(e.right) + rest);
      OperatorTokenRoundTrip(e.op);
      BinaryTokens(e, rest);
      ChainRoundTrip(level, e.left, after);
      assert after[1..] == Unparse(e.right) + rest;
      ExprRoundTrip(level + 1, e.right, rest);
      TailStep(level, e.left, after, e.op, e.right, rest);
    } else {
      ExprRoundTrip(level + 1, e, rest);
    }
  }

  /** One step of `ParseTail`: an operator of the level and the operand after it. */
  lemma TailStep(level: nat, left: Expr, ts: seq<Token>, op: Op, right: Expr, rest: seq<Token>)
    requires 1 <= level < AtomLevel && ts != [] && OperatorOf(ts[0]) == Some(op) && Level(op) == level
    requires ParseExpr(level + 1, ts[1..]) == Some((right, rest))
    ensures ParseTail(level, left, ts) == ParseTail(level, Binary(op, left, right), rest)
  {
  }

  /** Whatever the parser returns at `level` is shaped for that level, and the tokens after
      it end an expression of that level. */
  lemma {:induction false} ParseExprShaped(level: nat, ts: seq<Token>)
    requires level <= AtomLevel && ParseExpr(level, ts).Some?
    ensures Shaped(ParseExpr(level, ts).value.0, level)
    ensures EndsExpr(level, ParseExpr(level, ts).value.1)
    decreases |ts|, AtomLevel - level, 1
  {
    if level < AtomLevel {
      ParseExprShaped(level + 1, ts);
      var first := ParseExpr(level + 1, ts).value;
      ShapedDown(first.0, level + 1, level);
      if level > 0 {
        ParseTailShaped(level, first.0, first.1);
      } else if first.1 != [] && OperatorOf(first.1[0]).Some? && Level(OperatorOf(first.1[0]).value) == 0 {
        ParseExprShaped(0, first.1[1..]);
      }
    }
  }

  lemma {:induction false} ParseTailShaped(level: nat, left: Expr, ts: seq<Token>)
    requires 1 <= level < AtomLevel && Shaped(left, level) && EndsExpr(level + 1, ts)
    requires ParseTail(level, left, ts).Some?
    ensures Shaped(ParseTail(level, left, ts).value.0, level)
    ensures EndsExpr(level, ParseTail(level, left, ts).value.1)
    decreases |ts|, 0
  {
    if ts != [] && OperatorOf(ts[0]).Some? && Level(OperatorOf(ts[0]).value) == level {
      ParseExprShaped(level + 1, ts[1..]);
      var next := ParseExpr(level + 1, ts[1..]).value;
      ParseTailShaped(level, Binary(OperatorOf(ts[0]).value, left, next.0), next.1);
    }
  }

  /** Operators of one level group to the left and `*` binds more strongly than `+`: the
      tokens of `1 - 2 - 3` give `(1 - 2) - 3`, those of `1 + 2 * 3` give `1 + (2 * 3)`. */
  lemma PrecedenceExamples()
    ensures var one, two, three := NumberLit(Int(1)), NumberLit(Int(2)), NumberLit(Int(3));
            ParseExpr(0, Unparse(one) + [Punct('-')] + Unparse(two) + [Punct('-')] + Unparse(three))
              == Some((Binary(Minus, Binary(Minus, one, two), three), []))
    ensures var one, two, three := NumberLit(Int(1)), NumberLit(Int(2)), NumberLit(Int(3));
            ParseExpr(0, Unparse(one) + [Punct('+')] + Unparse(two) + [Punct('*')] + Unparse(three))
              == Some((Binary(Plus, one, Binary(Times, two, three)), []))
  {
    var one, two, three := NumberLit(Int(1)), NumberLit(Int(2)), NumberLit(Int(3));
    var e1 := Binary(Minus, Binary(Minus, one, two), three);
    assert Unparse(e1) == Unparse(one) + [Punct('-')] + Unparse(two) + [Punct('-')] + Unparse(three);
    ExprRoundTrip(0, e1, []);
    assert Unparse(e1) + [] == Unparse(e1);
    var e2 := Binary(Plus, one, Binary(Times, two, three));
    assert Unparse(e2) == Unparse(one) + [Punct('+')] + Unparse(two) + [Punct('*')] + Unparse(three);
    ExprRoundTrip(0, e2, []);
    assert Unparse(e2) + [] == Unparse(e2);
  }

  /** `<` and `>` bind weaker than `==` and group to the right: `a == b < c` is
      `(a == b) < c` and `a < b < c` is `a < (b < c)`. */
  lemma ComparisonExamples(a: Expr, b: Expr, c: Expr)
    requires Shaped(a, AtomLevel) && Shaped(b, AtomLevel) && Shaped(c, AtomLevel)
    ensures ParseExpr(0, Unparse(a) + [OperatorToken(Equals)] + Unparse(b) + [OperatorToken(Less)] + Unparse(c))
              == Some((Binary(Less, Binary(Equals, a, b), c), []))
    ensures ParseExpr(0, Unparse(a) + [OperatorToken(Less)] + Unparse(b) + [OperatorToken(Less)] + Unparse(c))
              == Some((Binary(Less, a, Binary(Less, b, c)), []))
  {
    ShapedDown(a, AtomLevel, 0);
    ShapedDown(b, AtomLevel, 0);
    ShapedDown(c, AtomLevel, 0);
    var e1 := Binary(Less, Binary(Equals, a, b), c);
    assert Unparse(e1) == Unparse(a) + [OperatorToken(Equals)] + Unparse(b) + [OperatorToken(Less)] + Unparse(c);
    ExprRoundTrip(0, e1, []);
    assert Unparse(e1) + [] == Unparse(e1);
    var e2 := Binary(Less, a, Binary(Less, b, c));
    assert Unparse(e2) == Unparse(a) + [OperatorToken(Less)] + Unparse(b) + [OperatorToken(Less)] + Unparse(c);
    ExprRoundTrip(0, e2, []);
    assert Unparse(e2) + [] == Unparse(e2);
  }

  /** A binary tree shaped for a level has its top operator at that level or above. */
  lemma {:induction false} ShapedOperatorLevel(e: Expr, level: nat)
    requires level <= AtomLevel && Shaped(e, level) && e.Binary?
    ensures Level(e.op) >= level
    decreases AtomLevel - level
  {
    if Level(e.op) != level {
      ShapedOperatorLevel(e, level + 1);
    }
  }

  /** A tree shaped for a level is shaped for every weaker level. */
  lemma {:induction false} ShapedDown(e: Expr, from: nat, to: nat)
    requires to <= from <= AtomLevel && Shaped(e, from)
    ensures Shaped(e, to)
    decreases from - to
  {
    if to < from {
      ShapedDown(e, from, to + 1);
      if e.Binary? {
        ShapedOperatorLevel(e, to + 1);
      }
    }
  }

  // ---------------------------------------------------------------------------------------
  // Statements: the parser inverts UnparseStatements, and produces only shaped statements

  /** The statements the grammar produces: every expression is a full expression (level 0)
      and every block a non-empty `CompoundStatement` of such statements; a bare compound
      statement is never produced. */
  predicate ShapedStmt(s: Stmt)
    decreases s, 1
  {
    match s
    case Print(e) => Shaped(e, 0)
    case Assign(_, e) => Shaped(e, 0)
    case If(c, t, f) => Shaped(c, 0) && ShapedBlock(t) && (f.Some? ==> ShapedBlock(f.value))
    case While(c, b) => Shaped(c, 0) && ShapedBlock(b)
    case Compound(_) => false
  }

  predicate ShapedBlock(b: Stmt)
    decreases b, 0
  {
    b.Compound? && ShapedStmts(b.stmts)
  }

  predicate ShapedStmts(ss: seq<Stmt>)
    decreases ss
  {
    |ss| > 0 && forall i :: 0 <= i < |ss| ==> ShapedStmt(ss[i])
  }

  function Keyword(k: Lexer.Kind, text: string): Token {
    Lexer.Token(k, Str(text), 1)
  }

  /** `"(" e ")"` */
  function UnparseCondition(e: Expr): seq<Token> {
    [Punct('(')] + Unparse(e) + [Punct(')')]
  }

  /** Tokens that spell a statement. */
  function UnparseStmt(s: Stmt): seq<Token>
    decreases s, 1
  {
    match s
    case Print(e) => [Keyword(Lexer.Kind.Print, "print")] + UnparseCondition(e)
    case Assign(x, e) => [Lexer.Token(Lexer.Kind.Name, Str(x), 1), Punct('=')] + Unparse(e)
    case If(c, t, f) =>
      [Keyword(Lexer.Kind.If, "if")] + UnparseCondition(c) + UnparseBlock(t)
      + (if f.Some? then [Keyword(Lexer.Kind.Else, "else")] + UnparseBlock(f.value) else [])
    case While(c, b) => [Keyword(Lexer.Kind.While, "while")] + UnparseCondition(c) + UnparseBlock(b)
    case Compound(ss) => UnparseStatements(ss)
  }

  /** `"{" statements "}"`; a block that is not a compound statement is spelled as a block of
      that one statement. */
  function UnparseBlock(b: Stmt): seq<Token>
    decreases b, 2
  {
    [Punct('{')] + (if b.Compound? then UnparseStatements(b.stmts) else UnparseStmt(b) + [Punct(';')])
    + [Punct('}')]
  }

  /** Each statement followed by `;`. */
  function UnparseStatements(ss: seq<Stmt>): seq<Token>
    decreases ss
  {
    if ss == [] then [] else UnparseStmt(ss[0]) + [Punct(';')] + UnparseStatements(ss[1..])
  }

  /** Tokens after which a statement is complete: an expression cannot go on and no `else`
      can attach. */
  predicate EndsStatement(ts: seq<Token>) {
    EndsExpr(0, ts) && (ts == [] || !ts[0].kind.Else?)
  }

  /** Tokens after which a statement list is complete. */
  predicate EndsStatements(ts: seq<Token>) {
    ts == [] || !StartsStatement(ts[0])
  }

  lemma ConditionRoundTrip(e: Expr, rest: seq<Token>)
    requires Shaped(e, 0)
    ensures ParseCondition(UnparseCondition(e) + rest) == Some((e, rest))
  {
    var ts := UnparseCondition(e) + rest;
    var after := [Punct(')')] + rest;
    assert ts[1..] == Unparse(e) + after;
    ExprRoundTrip(0, e, after);
    assert after[1..] == rest;
  }

  /** A statement the grammar produces, spelled out and followed by tokens that complete it,
      parses back to itself with those tokens left over. */
  lemma {:induction false} StmtRoundTrip(s: Stmt, rest: seq<Token>)
    requires ShapedStmt(s) && EndsStatement(rest)
    ensures ParseStatement(UnparseStmt(s) + rest) == Some((s, rest))
    decreases s, 1
  {
    match s
    case Print(e) =>
      var ts := [Keyword(Lexer.Kind.Print, "print")] + (UnparseCondition(e) + rest);
      assert UnparseStmt(s) + rest == ts;
      assert ts[1..] == UnparseCondition(e) + rest;
      ConditionRoundTrip(e, rest);
    case Assign(x, e) =>
      var ts := [Lexer.Token(Lexer.Kind.Name, Str(x), 1), Punct('=')] + (Unparse(e) + rest);
      assert UnparseStmt(s) + rest == ts;
      assert ts[2..] == Unparse(e) + rest;
      ExprRoundTrip(0, e, rest);
    case If(c, t, f) =>
      IfRoundTrip(c, t, f, rest);
    case While(c, b) =>
      WhileRoundTrip(c, b, rest);
  }

  lemma {:induction false} WhileRoundTrip(c: Expr, b: Stmt, rest: seq<Token>)
    requires ShapedStmt(While(c, b)) && EndsStatement(rest)
    ensures ParseStatement(UnparseStmt(While(c, b)) + rest) == Some((While(c, b), rest))
    decreases While(c, b), 0
  {
    var afterCond := UnparseBlock(b) + rest;
    var ts := [Keyword(Lexer.Kind.While, "while")] + (UnparseCondition(c) + afterCond);
    Regroup([Keyword(Lexer.Kind.While, "while")], UnparseCondition(c), UnparseBlock(b), [], rest);
    assert UnparseStmt(While(c, b)) + rest == ts;
    assert ts[1..] == UnparseCondition(c) + afterCond;
    ConditionRoundTrip(c, afterCond);
    BlockRoundTrip(b, rest);
  }

  lemma {:induction false} IfRoundTrip(c: Expr, t: Stmt, f: Option<Stmt>, rest: seq<Token>)
    requires ShapedStmt(If(c, t, f)) && EndsStatement(rest)
    ensures ParseStatement(UnparseStmt(If(c, t, f)) + rest) == Some((If(c, t, f), rest))
    decreases If(c, t, f), 0
  {
    var afterThen := if f.Some? then [Keyword(Lexer.Kind.Else, "else")] + (UnparseBlock(f.value) + rest) else rest;
    var afterCond := UnparseBlock(t) + afterThen;
    var ts := [Keyword(Lexer.Kind.If, "if")] + (UnparseCondition(c) + afterCond);
    IfTokens(c, t, f, rest);
    assert ts[1..] == UnparseCondition(c) + afterCond;
    ConditionRoundTrip(c, afterCond);
    BlockRoundTrip(t, afterThen);
    if f.Some? {
      assert afterThen[1..] == UnparseBlock(f.value) + rest;
      BlockRoundTrip(f.value, rest);
      IfElseStep(ts, c, t, f.value, afterCond, afterThen, rest);
    } else {
      IfStep(ts, c, t, afterCond, rest);
    }
  }

  /** The tokens of an if statement, grouped as the parser reads them. */
  lemma IfTokens(c: Expr, t: Stmt, f: Option<Stmt>, rest: seq<Token>)
    ensures UnparseStmt(If(c, t, f)) + rest
              == [Keyword(Lexer.Kind.If, "if")] + (UnparseCondition(c) + (UnparseBlock(t) +
                   (if f.Some? then [Keyword(Lexer.Kind.Else, "else")] + (UnparseBlock(f.value) + rest) else rest)))
  {
    var k, cond, block := [Keyword(Lexer.Kind.If, "if")], UnparseCondition(c), UnparseBlock(t);
    if f.Some? {
      var e, other := [Keyword(Lexer.Kind.Else, "else")], UnparseBlock(f.value);
      IfElseTokens(k, cond, block, e, other, UnparseStmt(If(c, t, f)), rest);
    } else {
      assert UnparseStmt(If(c, t, f)) == k + cond + block + [];
      Regroup(k, cond, block, [], rest);
    }
  }

  lemma IfElseTokens(k: seq<Token>, cond: seq<Token>, block: seq<Token>, e: seq<Token>, other: seq<Token>,
                     all: seq<Token>, rest: seq<Token>)
    requires all == k + cond + block + (e + other)
    ensures all + rest == k + (cond + (block + (e + (other + rest))))
  {
    Regroup(k, cond, block, e + other, rest);
    assert (e + other) + rest == e + (other + rest);
  }

  lemma Regroup3(a: seq<Token>, b: seq<Token>, c: seq<Token>, d: seq<Token>)
    ensures a + b + c + d == a + (b + (c + d))
  {
  }

  lemma Regroup(a: seq<Token>, b: seq<Token>, c: seq<Token>, d: seq<Token>, e: seq<Token>)
    ensures a + b + c + d + e == a + (b + (c + (d + e)))
  {
  }

  /** One step of `ParseStatement` on `if` without `else`. */
  lemma IfStep(ts: seq<Token>, c: Expr, t: Stmt, afterCond: seq<Token>, rest: seq<Token>)
    requires ts != [] && ts[0].kind.If?
    requires ParseCondition(ts[1..]) == Some((c, afterCond))
    requires ParseBlock(afterCond) == Some((t, rest))
    requires rest == [] || !rest[0].kind.Else?
    ensures ParseStatement(ts) == Some((If(c, t, None), rest))
  {
  }

  /** One step of `ParseStatement` on `if` with `else`. */
  lemma IfElseStep(ts: seq<Token>, c: Expr, t: Stmt, f: Stmt, afterCond: seq<Token>, afterThen: seq<Token>, rest: seq<Token>)
    requires ts != [] && ts[0].kind.If?
    requires ParseCondition(ts[1..]) == Some((c, afterCond))
    requires ParseBlock(afterCond) == Some((t, afterThen))
    requires afterThen != [] && afterThen[0].kind.Else?
    requires ParseBlock(afterThen[1..]) == Some((f, rest))
    ensures ParseStatement(ts) == Some((If(c, t, Some(f)), rest))
  {
  }

  lemma {:induction false} BlockRoundTrip(b: Stmt, rest: seq<Token>)
    requires ShapedBlock(b)
    ensures ParseBlock(UnparseBlock(b) + rest) == Some((b, rest))
    decreases b, 0
  {
    var ts := UnparseBlock(b) + rest;
    var after := [Punct('}')] + rest;
    assert ts[1..] == UnparseStatements(b.stmts) + after;
    StatementsRoundTrip(b.stmts, after);
    assert after[1..] == rest;
  }

  /** A non-empty list of statements the grammar produces, spelled out and followed by tokens
      that cannot start a statement, parses back to itself. */
  lemma {:induction false} StatementsRoundTrip(ss: seq<Stmt>, rest: seq<Token>)
    requires ShapedStmts(ss) && EndsStatements(rest)
    ensures ParseStatements(UnparseStatements(ss) + rest) == Some((ss, rest))
    decreases ss
  {
    var more := UnparseStatements(ss[1..]) + rest;
    var after := [Punct(';')] + more;
    var ts := UnparseStmt(ss[0]) + after;
    StatementsTokens(ss, rest);
    StmtRoundTrip(ss[0], after);
    assert after[1..] == more;
    if |ss| > 1 {
      ShapedStmtsTail(ss);
      StatementStartsWithKeyword(ss[1]);
      StatementsTokens(ss[1..], rest);
      assert more[0] == UnparseStmt(ss[1])[0];
      StatementsRoundTrip(ss[1..], rest);
      StatementsStepMore(ts, ss[0], after, ss[1..], rest);
      assert [ss[0]] + ss[1..] == ss;
    } else {
      assert ss[1..] == [] && ss == [ss[0]];
      assert more == rest;
      StatementsStepLast(ts, ss[0], after);
    }
  }

  /** One step of `ParseStatements` where the list goes on after the `;`. */
  lemma StatementsStepMore(ts: seq<Token>, s: Stmt, after: seq<Token>, more: seq<Stmt>, rest: seq<Token>)
    requires ParseStatement(ts) == Some((s, after))
    requires |after| > 1 && IsLiteral(after[0], ';') && StartsStatement(after[1])
    requires ParseStatements(after[1..]) == Some((more, rest))
    ensures ParseStatements(ts) == Some(([s] + more, rest))
  {
  }

  /** One step of `ParseStatements` where the list ends at the `;`. */
  lemma StatementsStepLast(ts: seq<Token>, s: Stmt, after: seq<Token>)
    requires ParseStatement(ts) == Some((s, after))
    requires after != [] && IsLiteral(after[0], ';') && !(|after| > 1 && StartsStatement(after[1]))
    ensures ParseStatements(ts) == Some(([s], after[1..]))
  {
  }

  /** The tokens of a statement list, grouped as the parser reads them. */
  lemma StatementsTokens(ss: seq<Stmt>, rest: seq<Token>)
    requires |ss| > 0
    ensures UnparseStatements(ss) + rest
              == UnparseStmt(ss[0]) + ([Punct(';')] + (UnparseStatements(ss[1..]) + rest))
  {
    assert UnparseStatements(ss) == UnparseStmt(ss[0]) + [Punct(';')] + UnparseStatements(ss[1..]);
    Regroup3(UnparseStmt(ss[0]), [Punct(';')], UnparseStatements(ss[1..]), rest);
  }

  lemma ShapedStmtsTail(ss: seq<Stmt>)
    requires ShapedStmts(ss) && |ss| > 1
    ensures ShapedStmts(ss[1..])
  {
    forall i | 0 <= i < |ss[1..]| ensures ShapedStmt(ss[1..][i]) {
      assert ss[1..][i] == ss[i + 1];
    }
  }

  /** A spelled statement starts with a token that can start a statement. */
  lemma StatementStartsWithKeyword(s: Stmt)
    requires ShapedStmt(s)
    ensures |UnparseStmt(s)| > 0 && StartsStatement(UnparseStmt(s)[0])
  {
  }

  /** A whole program the grammar produces, spelled out, parses back to itself. */
  lemma ProgramRoundTrip(ss: seq<Stmt>)
    requires ShapedStmts(ss)
    ensures Parse(UnparseStatements(ss)) == Some(ss)
  {
    StatementsRoundTrip(ss, []);
    assert UnparseStatements(ss) + [] == UnparseStatements(ss);
  }

  lemma ParseConditionShaped(ts: seq<Token>)
    requires ParseCondition(ts).Some?
    ensures Shaped(ParseCondition(ts).value.0, 0)
  {
    ParseExprShaped(0, ts[1..]);
  }

  /** Every statement the parser returns is one the grammar describes. */
  lemma {:induction false} ParseStatementShaped(ts: seq<Token>)
    requires ParseStatement(ts).Some?
    ensures ShapedStmt(ParseStatement(ts).value.0)
    decreases |ts|, 1
  {
    if ts[0].kind.Print? {
      ParseConditionShaped(ts[1..]);
    } else if ts[0].kind.Name? && ts[0].value.Str? {
      ParseExprShaped(0, ts[2..]);
    } else if ts[0].kind.If? {
      ParseConditionShaped(ts[1..]);
      var afterCond := ParseCondition(ts[1..]).value.1;
      ParseBlockShaped(afterCond);
      var afterThen := ParseBlock(afterCond).value.1;
      if afterThen != [] && afterThen[0].kind.Else? {
        ParseBlockShaped(afterThen[1..]);
      }
    } else {
      ParseConditionShaped(ts[1..]);
      ParseBlockShaped(ParseCondition(ts[1..]).value.1);
    }
  }

  lemma {:induction false} ParseBlockShaped(ts: seq<Token>)
    requires ParseBlock(ts).Some?
    ensures ShapedBlock(ParseBlock(ts).value.0)
    decreases |ts|, 0
  {
    ParseStatementsShaped(ts[1..]);
  }

  lemma {:induction false} ParseStatementsShaped(ts: seq<Token>)
    requires ParseStatements(ts).Some?
    ensures ShapedStmts(ParseStatements(ts).value.0)
    decreases |ts|, 2
  {
    ParseStatementShaped(ts);
    var rest := ParseStatement(ts).value.1;
    if |rest| > 1 && StartsStatement(rest[1]) {
      ParseStatementsShaped(rest[1..]);
      var ss := ParseStatements(ts).value.0;
      assert ss == [ParseStatement(ts).value.0] + ParseStatements(rest[1..]).value.0;
      forall i | 0 <= i < |ss| ensures ShapedStmt(ss[i]) {
        if i > 0 {
          assert ss[i] == ParseStatements(rest[1..]).value.0[i - 1];
        }
      }
    }
  }

  /** A parsed program consists of statements the grammar describes, and spelling it out
      canonically and parsing again gives the same program. */
  lemma ParseThenUnparse(ts: seq<Token>)
    requires Parse(ts).Some?
    ensures ShapedStmts(Parse(ts).value)
    ensures Parse(UnparseStatements(Parse(ts).value)) == Parse(ts)
  {
    ParseStatementsShaped(ts);
    ProgramRoundTrip(Parse(ts).value);
  }

  /** `true + 1` parses to an addition: the parser does not reject a bool operand, the
      evaluator does. */
  lemma BooleanAdditionParses(vars: Vars)
    ensures var e := Binary(Plus, BooleanLit(true), NumberLit(Int(1)));
            ParseExpr(0, Unparse(BooleanLit(true)) + [Punct('+')] + Unparse(NumberLit(Int(1)))) == Some((e, []))
            && Eval(e, vars) == Err(BooleanAddition)
  {
    var e := Binary(Plus, BooleanLit(true), NumberLit(Int(1)));
    assert Unparse(e) == Unparse(BooleanLit(true)) + [Punct('+')] + Unparse(NumberLit(Int(1)));
    ExprRoundTrip(0, e, []);
    assert Unparse(e) + [] == Unparse(e);
  }

  // ---------------------------------------------------------------------------------------
  // What a parse consumed: exactly the spelling of what it returned

  /** A token as the grammar reads it: the line it came from plays no part. */
  function Relined(t: Token): Token {
    Lexer.Token(t.kind, t.value, 1)
  }

  /** The tokens with their line numbers dropped. */
  function Canon(ts: seq<Token>): (r: seq<Token>)
    ensures |r| == |ts|
  {
    if ts == [] then [] else [Relined(ts[0])] + Canon(ts[1..])
  }

  /** What `Lexer.LexWellFormed` promises of every token the lexer produces. */
  predicate AllWellFormed(ts: seq<Token>) {
    forall t :: t in ts ==> Lexer.WellFormed(t)
  }

  /** A keyword, operator or literal token holding its text is the canonical token. */
  lemma FixedTokenSpelled(t: Token)
    requires Lexer.WellFormed(t) && Lexer.Spelling(t.kind).Some?
    ensures Relined(t) == Keyword(t.kind, Lexer.Spelling(t.kind).value)
  {
  }

  lemma OperatorSpelled(t: Token)
    requires Lexer.WellFormed(t) && OperatorOf(t).Some?
    ensures Relined(t) == OperatorToken(OperatorOf(t).value)
  {
    FixedTokenSpelled(t);
  }

  /** The tokens an expression parse consumed spell the expression it returned. */
  lemma {:induction false} ParseExprSpelled(level: nat, ts: seq<Token>)
    requires level <= AtomLevel && AllWellFormed(ts) && ParseExpr(level, ts).Some?
    ensures Canon(ts) == Unparse(ParseExpr(level, ts).value.0) + Canon(ParseExpr(level, ts).value.1)
    ensures AllWellFormed(ParseExpr(level, ts).value.1)
    decreases |ts|, AtomLevel - level
  {
    if level == AtomLevel {
      assert ts[0] in ts;
    } else {
      ParseExprSpelled(level + 1, ts);
      var left, rest := ParseExpr(level + 1, ts).value.0, ParseExpr(level + 1, ts).value.1;
      if level > 0 {
        ParseTailSpelled(level, left, rest);
      } else if rest != [] && OperatorOf(rest[0]).Some? && Level(OperatorOf(rest[0]).value) == 0 {
        assert rest[0] in rest;
        OperatorSpelled(rest[0]);
        ParseExprSpelled(0, rest[1..]);
        var right, after := ParseExpr(0, rest[1..]).value.0, ParseExpr(0, rest[1..]).value.1;
        BinaryTokens(Binary(OperatorOf(rest[0]).value, left, right), Canon(after));
      }
    }
  }

  /** The tokens a chain consumed, after the spelling of what was parsed before it, spell
      the chain it returned. */
  lemma {:induction false} ParseTailSpelled(level: nat, left: Expr, ts: seq<Token>)
    requires 1 <= level < AtomLevel && AllWellFormed(ts) && ParseTail(level, left, ts).Some?
    ensures Unparse(left) + Canon(ts)
              == Unparse(ParseTail(level, left, ts).value.0) + Canon(ParseTail(level, left, ts).value.1)
    ensures AllWellFormed(ParseTail(level, left, ts).value.1)
    decreases |ts|, 0
  {
    if ts != [] && OperatorOf(ts[0]).Some? && Level(OperatorOf(ts[0]).value) == level {
      var op := OperatorOf(ts[0]).value;
      assert ts[0] in ts;
      OperatorSpelled(ts[0]);
      ParseExprSpelled(level + 1, ts[1..]);
      var right, rest := ParseExpr(level + 1, ts[1..]).value.0, ParseExpr(level + 1, ts[1..]).value.1;
      BinaryTokens(Binary(op, left, right), Canon(rest));
      TailStep(level, left, ts, op, right, rest);
      ParseTailSpelled(level, Binary(op, left, right), rest);
    }
  }

  lemma ParseConditionSpelled(ts: seq<Token>)
    requires AllWellFormed(ts) && ParseCondition(ts).Some?
    ensures Canon(ts) == UnparseCondition(ParseCondition(ts).value.0) + Canon(ParseCondition(ts).value.1)
    ensures AllWellFormed(ParseCondition(ts).value.1)
  {
    assert ts[0] in ts;
    FixedTokenSpelled(ts[0]);
    ParseExprSpelled(0, ts[1..]);
    var e, after := ParseExpr(0, ts[1..]).value.0, ParseExpr(0, ts[1..]).value.1;
    assert after[0] in after;
    FixedTokenSpelled(after[0]);
    Regroup3([Punct('(')], Unparse(e), [Punct(')')], Canon(after[1..]));
  }

  /** The tokens a statement parse consumed spell the statement it returned. */
  lemma {:induction false} ParseStatementSpelled(ts: seq<Token>)
    requires AllWellFormed(ts) && ParseStatement(ts).Some?
    ensures Canon(ts) == UnparseStmt(ParseStatement(ts).value.0) + Canon(ParseStatement(ts).value.1)
    ensures AllWellFormed(ParseStatement(ts).value.1)
    decreases |ts|, 1
  {
    assert ts[0] in ts;
    if ts[0].kind.Print? {
      FixedTokenSpelled(ts[0]);
      ParseConditionSpelled(ts[1..]);
      var e, rest := ParseCondition(ts[1..]).value.0, ParseCondition(ts[1..]).value.1;
      var k := [Keyword(Lexer.Kind.Print, "print")];
      assert k + UnparseCondition(e) + Canon(rest) == k + (UnparseCondition(e) + Canon(rest));
    } else if ts[0].kind.Name? && ts[0].value.Str? {
      assert |ts| > 1 && IsLiteral(ts[1], '=');
      AssignSpelled(ts, ParseExpr(0, ts[2..]).value.0, ParseExpr(0, ts[2..]).value.1);
    } else if ts[0].kind.If? {
      IfSpelled(ts);
    } else {
      WhileSpelled(ts);
    }
  }

  lemma AssignSpelled(ts: seq<Token>, e: Expr, rest: seq<Token>)
    requires AllWellFormed(ts) && |ts| > 1 && ts[0].kind.Name? && ts[0].value.Str? && IsLiteral(ts[1], '=')
    requires ParseExpr(0, ts[2..]) == Some((e, rest))
    ensures ParseStatement(ts) == Some((Assign(ts[0].value.s, e), rest))
    ensures Canon(ts) == UnparseStmt(Assign(ts[0].value.s, e)) + Canon(rest)
    ensures AllWellFormed(rest)
  {
    assert ts[1] in ts;
    FixedTokenSpelled(ts[1]);
    ParseExprSpelled(0, ts[2..]);
    AssignStep(ts, e, rest);
    CanonTwo(ts);
    var x := ts[0].value.s;
    assert Relined(ts[0]) == Lexer.Token(Lexer.Kind.Name, Str(x), 1);
    AssignTokens(x, e, Relined(ts[0]), Relined(ts[1]), Canon(ts[2..]), Canon(rest));
  }

  lemma AssignTokens(x: string, e: Expr, first: Token, second: Token, after: seq<Token>, rest: seq<Token>)
    requires first == Lexer.Token(Lexer.Kind.Name, Str(x), 1) && second == Punct('=')
    requires after == Unparse(e) + rest
    ensures [first] + ([second] + after) == UnparseStmt(Assign(x, e)) + rest
  {
    Regroup3([first], [second], Unparse(e), rest);
  }

  lemma CanonTwo(ts: seq<Token>)
    requires |ts| > 1
    ensures Canon(ts) == [Relined(ts[0])] + ([Relined(ts[1])] + Canon(ts[2..]))
  {
    assert ts[1..][1..] == ts[2..];
  }

  /** One step of `ParseStatement` on an assignment. */
  lemma AssignStep(ts: seq<Token>, e: Expr, rest: seq<Token>)
    requires |ts| > 1 && ts[0].kind.Name? && ts[0].value.Str? && IsLiteral(ts[1], '=')
    requires ParseExpr(0, ts[2..]) == Some((e, rest))
    ensures ParseStatement(ts) == Some((Assign(ts[0].value.s, e), rest))
  {
  }

  lemma {:induction false} IfSpelled(ts: seq<Token>)
    requires AllWellFormed(ts) && ts != [] && ts[0].kind.If? && ParseStatement(ts).Some?
    ensures Canon(ts) == UnparseStmt(ParseStatement(ts).value.0) + Canon(ParseStatement(ts).value.1)
    ensures AllWellFormed(ParseStatement(ts).value.1)
    decreases |ts|, 0
  {
    assert ts[0] in ts;
    FixedTokenSpelled(ts[0]);
    ParseConditionSpelled(ts[1..]);
    var c, afterCond := ParseCondition(ts[1..]).value.0, ParseCondition(ts[1..]).value.1;
    ParseBlockSpelled(afterCond);
    var t, afterThen := ParseBlock(afterCond).value.0, ParseBlock(afterCond).value.1;
    if afterThen != [] && afterThen[0].kind.Else? {
      assert afterThen[0] in afterThen;
      FixedTokenSpelled(afterThen[0]);
      ParseBlockSpelled(afterThen[1..]);
      var f, rest := ParseBlock(afterThen[1..]).value.0, ParseBlock(afterThen[1..]).value.1;
      IfElseStep(ts, c, t, f, afterCond, afterThen, rest);
      IfTokens(c, t, Some(f), Canon(rest));
    } else {
      IfStep(ts, c, t, afterCond, afterThen);
      IfTokens(c, t, None, Canon(afterThen));
    }
  }

  lemma {:induction false} WhileSpelled(ts: seq<Token>)
    requires AllWellFormed(ts) && ts != [] && ts[0].kind.While? && ParseStatement(ts).Some?
    ensures Canon(ts) == UnparseStmt(ParseStatement(ts).value.0) + Canon(ParseStatement(ts).value.1)
    ensures AllWellFormed(ParseStatement(ts).value.1)
    decreases |ts|, 0
  {
    assert ts[0] in ts;
    FixedTokenSpelled(ts[0]);
    ParseConditionSpelled(ts[1..]);
    var c, afterCond := ParseCondition(ts[1..]).value.0, ParseCondition(ts[1..]).value.1;
    ParseBlockSpelled(afterCond);
    var b, rest := ParseBlock(afterCond).value.0, ParseBlock(afterCond).value.1;
    WhileParseStep(ts, c, b, afterCond, rest);
    var k := [Keyword(Lexer.Kind.While, "while")];
    assert Canon(ts) == k + (UnparseCondition(c) + (UnparseBlock(b) + Canon(rest)));
    Regroup3(k, UnparseCondition(c), UnparseBlock(b), Canon(rest));
  }

  /** One step of `ParseStatement` on a while statement. */
  lemma WhileParseStep(ts: seq<Token>, c: Expr, b: Stmt, afterCond: seq<Token>, rest: seq<Token>)
    requires ts != [] && ts[0].kind.While?
    requires ParseCondition(ts[1..]) == Some((c, afterCond))
    requires ParseBlock(afterCond) == Some((b, rest))
    ensures ParseStatement(ts) == Some((While(c, b), rest))
  {
  }

  lemma {:induction false} ParseBlockSpelled(ts: seq<Token>)
    requires AllWellFormed(ts) && ParseBlock(ts).Some?
    ensures Canon(ts) == UnparseBlock(ParseBlock(ts).value.0) + Canon(ParseBlock(ts).value.1)
    ensures AllWellFormed(ParseBlock(ts).value.1)
    decreases |ts|, 0
  {
    assert ts[0] in ts;
    FixedTokenSpelled(ts[0]);
    ParseStatementsSpelled(ts[1..]);
    var ss, after := ParseStatements(ts[1..]).value.0, ParseStatements(ts[1..]).value.1;
    assert after[0] in after;
    FixedTokenSpelled(after[0]);
    Regroup3([Punct('{')], UnparseStatements(ss), [Punct('}')], Canon(after[1..]));
  }

  /** The tokens a statement-list parse consumed spell the list it returned, each statement
      followed by its `;`. */
  lemma {:induction false} ParseStatementsSpelled(ts: seq<Token>)
    requires AllWellFormed(ts) && ParseStatements(ts).Some?
    ensures Canon(ts) == UnparseStatements(ParseStatements(ts).value.0) + Canon(ParseStatements(ts).value.1)
    ensures AllWellFormed(ParseStatements(ts).value.1)
    decreases |ts|, 2
  {
    ParseStatementSpelled(ts);
    var s, after := ParseStatement(ts).value.0, ParseStatement(ts).value.1;
    assert after[0] in after;
    FixedTokenSpelled(after[0]);
    assert Canon(after) == [Punct(';')] + Canon(after[1..]);
    if |after| > 1 && StartsStatement(after[1]) {
      ParseStatementsSpelled(after[1..]);
      var more, rest := ParseStatements(after[1..]).value.0, ParseStatements(after[1..]).value.1;
      StatementsStepMore(ts, s, after, more, rest);
      ListSpelled(s, more, Canon(after), Canon(after[1..]), Canon(rest));
    } else {
      StatementsStepLast(ts, s, after);
      ListSpelled(s, [], Canon(after), Canon(after[1..]), Canon(after[1..]));
    }
  }

  /** A statement's spelling, its `;` and the spelling of the statements after it. */
  lemma ListSpelled(s: Stmt, more: seq<Stmt>, after: seq<Token>, next: seq<Token>, rest: seq<Token>)
    requires after == [Punct(';')] + next && next == UnparseStatements(more) + rest
    ensures UnparseStmt(s) + after == UnparseStatements([s] + more) + rest
  {
    StatementsTokens([s] + more, rest);
    assert ([s] + more)[1..] == more;
  }

  /** The spelling of a non-empty statement list ends with `;`. */
  lemma {:induction false} StatementsEndWithSemicolon(ss: seq<Stmt>)
    requires |ss| > 0
    ensures |UnparseStatements(ss)| > 0 && UnparseStatements(ss)[|UnparseStatements(ss)| - 1] == Punct(';')
    decreases ss
  {
    if |ss| > 1 {
      StatementsEndWithSemicolon(ss[1..]);
    }
  }

  /** A successful parse consumed exactly the canonical spelling of the program it returned,
      line numbers aside: no token is skipped or invented, and every statement, the last one
      too, is followed by `;`. */
  lemma ParsedIsSpelled(ts: seq<Token>)
    requires AllWellFormed(ts) && Parse(ts).Some?
    ensures Canon(ts) == UnparseStatements(Parse(ts).value)
    ensures |ts| > 0 && IsLiteral(ts[|ts| - 1], ';')
  {
    ParseStatementsSpelled(ts);
    StatementsEndWithSemicolon(Parse(ts).value);
    CanonAt(ts, |ts| - 1);
  }

  lemma {:induction false} CanonAt(ts: seq<Token>, k: nat)
    requires k < |ts|
    ensures Canon(ts)[k] == Relined(ts[k])
    decreases k
  {
    if k > 0 {
      CanonAt(ts[1..], k - 1);
    }
  }

  /** Well-formed tokens that do not end with `;` are never a program: the last statement
      lacks its closing `;`. */
  lemma MissingSemicolonRejected(ts: seq<Token>)
    requires AllWellFormed(ts)
    requires |ts| == 0 || !IsLiteral(ts[|ts| - 1], ';')
    ensures Parse(ts).None?
  {
    if Parse(ts).Some? {
      ParsedIsSpelled(ts);
    }
  }
}
