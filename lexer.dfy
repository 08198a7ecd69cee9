/** The lexer of components/lexica.py (`MyLexer`).

    SLY joins the token patterns, in the order the class defines them, into one master
    regular expression whose alternatives are tried in that order (the first alternative
    that matches wins, not the longest one). At each position the lexer first skips an
    ignored character, then tries the master expression, then a literal character, and
    otherwise reports an illegal character and skips exactly one character. */
module Lexer {
  import opened Values

  /** Token types: the names in `tokens`, plus one type per literal character. */
  datatype Kind =
    | Name | Number | Boolean | String
    | Equals | NotEquals | Less | Greater
    | If | Else | While | Print
    | Literal(c: char)

  /** A token: its type, its value after the rule's action, and the line it starts on. */
  datatype Token = Token(kind: Kind, value: Value, line: nat)

  /** The message `ERROR: Illegal character '<c>' at line <n>`. */
  datatype Diagnostic = IllegalCharacter(c: char, line: nat)

  datatype Lexed = Lexed(tokens: seq<Token>, diagnostics: seq<Diagnostic>)

  /** What the master expression matched at a position: a token rule or the newline rule;
      `end` is the index just after the match. */
  datatype Match = TokenMatch(kind: Kind, end: nat) | NewlineMatch(end: nat)

  /** What the scanner does at one position. */
  datatype Step =
    | Skip(next: nat, line: nat)
    | Emit(token: Token, next: nat)
    | Illegal(diagnostic: Diagnostic, next: nat)

  const Literals: set<char> := {'+', '-', '*', '/', '=', '(', ')', '{', '}', ';'}

  /** `ignore = ' \t'` */
  const Ignored: set<char> := {' ', '\t'}

  predicate IsDigit(c: char) { '0' <= c <= '9' }

  predicate IsNameStart(c: char) { 'a' <= c <= 'z' || 'A' <= c <= 'Z' || c == '_' }

  predicate IsNameChar(c: char) { IsNameStart(c) || IsDigit(c) }

  predicate AllDigits(w: string) {
    forall k :: 0 <= k < |w| ==> IsDigit(w[k])
  }

  /** The end of the longest run of digits starting at `i`. */
  function DigitsEnd(s: string, i: nat): (j: nat)
    requires i <= |s|
    ensures i <= j <= |s|
    ensures forall k :: i <= k < j ==> IsDigit(s[k])
    ensures j == |s| || !IsDigit(s[j])
    decreases |s| - i
  {
    if i < |s| && IsDigit(s[i]) then DigitsEnd(s, i + 1) else i
  }

  /** The end of the longest run of name characters starting at `i`. */
  function NameEnd(s: string, i: nat): (j: nat)
    requires i <= |s|
    ensures i <= j <= |s|
    ensures forall k :: i <= k < j ==> IsNameChar(s[k])
    ensures j == |s| || !IsNameChar(s[j])
    decreases |s| - i
  {
    if i < |s| && IsNameChar(s[i]) then NameEnd(s, i + 1) else i
  }

  /** The end of the longest run of newlines starting at `i`. */
  function NewlinesEnd(s: string, i: nat): (j: nat)
    requires i <= |s|
    ensures i <= j <= |s|
    ensures forall k :: i <= k < j ==> s[k] == '\n'
    ensures j == |s| || s[j] != '\n'
    decreases |s| - i
  {
    if i < |s| && s[i] == '\n' then NewlinesEnd(s, i + 1) else i
  }

  /** The index of the first `c` in `w`, or `|w|` when there is none. */
  function FirstIndex(w: string, c: char): (k: nat)
    ensures k <= |w|
    ensures forall j :: 0 <= j < k ==> w[j] != c
    ensures k < |w| ==> w[k] == c
  {
    if w == [] then 0
    else if w[0] == c then 0
    else 1 + FirstIndex(w[1..], c)
  }

  predicate StartsWith(s: string, i: nat, word: string) {
    i + |word| <= |s| && s[i..i + |word|] == word
  }

  lemma Mismatch(s: string, i: nat, word: string)
    requires 0 < |word| && i < |s| && s[i] != word[0]
    ensures !StartsWith(s, i, word)
  {
    if i + |word| <= |s| {
      assert s[i..i + |word|][0] == s[i];
    }
  }

  lemma FirstChar(s: string, i: nat, word: string)
    requires 0 < |word| && StartsWith(s, i, word)
    ensures i < |s| && s[i] == word[0]
  {
    assert s[i..i + |word|][0] == s[i];
  }

  /** At a character that begins none of the fixed words, none of their rules applies. */
  lemma NoWordAt(s: string, i: nat)
    requires i < |s| && s[i] !in {'=', '!', 'i', 'e', 'w', 'p', 't', 'f'}
    ensures !StartsWith(s, i, "==") && !StartsWith(s, i, "!=")
    ensures !StartsWith(s, i, "if") && !StartsWith(s, i, "else")
    ensures !StartsWith(s, i, "while") && !StartsWith(s, i, "print")
    ensures !StartsWith(s, i, "true") && !StartsWith(s, i, "false")
  {
    Mismatch(s, i, "==");
    Mismatch(s, i, "!=");
    Mismatch(s, i, "if");
    Mismatch(s, i, "else");
    Mismatch(s, i, "while");
    Mismatch(s, i, "print");
    Mismatch(s, i, "true");
    Mismatch(s, i, "false");
  }

  /** A slice of a slice is a slice. */
  lemma Subslice(s: string, i: nat, j: nat, a: nat, b: nat)
    requires i <= j <= |s| && a <= b <= j - i
    ensures s[i..j][a..b] == s[i + a..i + b]
  {
    assert forall k :: 0 <= k < b - a ==> s[i..j][a..b][k] == s[i + a..i + b][k];
  }

  /** Text of the form `-?\d+`. */
  predicate IsIntLexeme(w: string) {
    if |w| > 0 && w[0] == '-' then |w| > 1 && AllDigits(w[1..]) else |w| > 0 && AllDigits(w)
  }

  /** Text of the form `\d+\.\d+`. */
  predicate IsFloatLexeme(w: string) {
    var k := FirstIndex(w, '.');
    0 < k < |w| - 1 && AllDigits(w[..k]) && AllDigits(w[k + 1..])
  }

  /** The index of the closing quote of a string literal opened at `i`, if any: the
      pattern `\"[^"]*\"` stops at the first `"` after the opening one. */
  function ClosingQuote(s: string, i: nat): (j: nat)
    requires i < |s|
    ensures i < j <= |s|
    ensures j < |s| ==> s[j] == '"'
    ensures forall k :: i < k < j ==> s[k] != '"'
  {
    i + 1 + FirstIndex(s[i + 1..], '"')
  }

  /** The end of the NUMBER alternatives `\d+\.\d+` (tried first) and `-?\d+` at `i`, when
      one of them matches. */
  function NumberEnd(s: string, i: nat): (r: Option<nat>)
    requires i < |s|
    ensures r.Some? ==> i < r.value <= |s|
    ensures r.Some? ==> IsIntLexeme(s[i..r.value]) || IsFloatLexeme(s[i..r.value])
    ensures r.Some? <==> IsDigit(s[i]) || (s[i] == '-' && i + 1 < |s| && IsDigit(s[i + 1]))
  {
    if IsDigit(s[i]) then
      var d := DigitsEnd(s, i);
      if d + 1 < |s| && s[d] == '.' && IsDigit(s[d + 1]) then
        var e := DigitsEnd(s, d + 1);
        FloatLexemeAt(s, i, d, e);
        Some(e)
      else
        assert AllDigits(s[i..d]);
        Some(d)
    else if s[i] == '-' && i + 1 < |s| && IsDigit(s[i + 1]) then
      var e := DigitsEnd(s, i + 1);
      assert s[i..e][1..] == s[i + 1..e];
      Some(e)
    else
      None
  }

  lemma FloatLexemeAt(s: string, i: nat, d: nat, e: nat)
    requires i < d < d + 1 < e <= |s|
    requires forall k :: i <= k < d ==> IsDigit(s[k])
    requires s[d] == '.'
    requires forall k :: d + 1 <= k < e ==> IsDigit(s[k])
    ensures IsFloatLexeme(s[i..e])
  {
    var w := s[i..e];
    var k := FirstIndex(w, '.');
    assert w[d - i] == '.';
    assert k == d - i;
    assert w[..k] == s[i..d];
    assert w[k + 1..] == s[d + 1..e];
  }

  /** The compiled master expression of `MyLexer`, alternatives in definition order:
      EQUALS, NOTEQUALS, LESS, GREATER, IF, ELSE, WHILE, PRINT, STRING, BOOLEAN, NAME,
      NUMBER and the newline rule. */
  function MasterMatch(s: string, i: nat): (m: Option<Match>)
    requires i < |s|
    ensures m.Some? ==> i < m.value.end <= |s|
    ensures m.Some? && m.value.NewlineMatch? ==>
      (forall k :: i <= k < m.value.end ==> s[k] == '\n') && (m.value.end == |s| || s[m.value.end] != '\n')
    ensures m.Some? && m.value.TokenMatch? ==> FitsRule(m.value.kind, s[i..m.value.end])
    ensures m.Some? && m.value.TokenMatch? ==> !m.value.kind.Literal?
    ensures m.Some? && m.value.TokenMatch? && Spelling(m.value.kind).Some? ==>
              s[i..m.value.end] == Spelling(m.value.kind).value
  {
    if StartsWith(s, i, "==") then Some(TokenMatch(Equals, i + 2))
    else if StartsWith(s, i, "!=") then Some(TokenMatch(NotEquals, i + 2))
    else if s[i] == '<' then assert s[i..i + 1] == "<"; Some(TokenMatch(Less, i + 1))
    else if s[i] == '>' then assert s[i..i + 1] == ">"; Some(TokenMatch(Greater, i + 1))
    else if StartsWith(s, i, "if") then Some(TokenMatch(If, i + 2))
    else if StartsWith(s, i, "else") then Some(TokenMatch(Else, i + 4))
    else if StartsWith(s, i, "while") then Some(TokenMatch(While, i + 5))
    else if StartsWith(s, i, "print") then Some(TokenMatch(Print, i + 5))
    else if s[i] == '"' && ClosingQuote(s, i) < |s| then Some(TokenMatch(String, ClosingQuote(s, i) + 1))
    else if StartsWith(s, i, "true") then Some(TokenMatch(Boolean, i + 4))
    else if StartsWith(s, i, "false") then Some(TokenMatch(Boolean, i + 5))
    else if IsNameStart(s[i]) then Some(TokenMatch(Name, NameEnd(s, i)))
    else if NumberEnd(s, i).Some? then Some(TokenMatch(Number, NumberEnd(s, i).value))
    else if s[i] == '\n' then Some(NewlineMatch(NewlinesEnd(s, i)))
    else None
  }

  function DigitValue(c: char): nat
    requires IsDigit(c)
  {
    c as int - '0' as int
  }

  /** The number a run of decimal digits denotes (Python's `int` of a digit string). */
  function DigitsValue(w: string): nat
    requires AllDigits(w)
  {
    if w == [] then 0 else 10 * DigitsValue(w[..|w| - 1]) + DigitValue(w[|w| - 1])
  }

  /** `k` digits denote less than ten to the `k`. */
  lemma {:induction false} DigitsBelowPow10(w: string)
    requires AllDigits(w)
    ensures DigitsValue(w) < Pow10(|w|)
    decreases |w|
  {
    if w != [] {
      DigitsBelowPow10(w[..|w| - 1]);
    }
  }

  function Pow10(n: nat): (p: nat)
    ensures p >= 1
  {
    if n == 0 then 1 else 10 * Pow10(n - 1)
  }

  /** `int(token.value)` for a lexeme `-?\d+`: negative only with a sign, and never below
      zero without one. */
  function IntValue(w: string): (n: int)
    requires IsIntLexeme(w)
    ensures n < 0 ==> w[0] == '-'
    ensures w[0] != '-' ==> n >= 0
    ensures w[0] == '-' ==> n <= 0
  {
    if w[0] == '-' then -(DigitsValue(w[1..]) as int) else DigitsValue(w)
  }

  /** `float(token.value)` for a lexeme `\d+\.\d+`, as an exact real: the digits before
      the dot are its whole part. */
  function FloatValue(w: string): (x: real)
    requires IsFloatLexeme(w)
    ensures var whole := DigitsValue(w[..FirstIndex(w, '.')]) as real; whole <= x < whole + 1.0
  {
    var k := FirstIndex(w, '.');
    var fraction := w[k + 1..];
    DigitsBelowPow10(fraction);
    FractionBelowOne(DigitsValue(fraction), |fraction|);
    DigitsValue(w[..k]) as real + Shifted(DigitsValue(fraction), |fraction|)
  }

  lemma FractionBelowOne(n: nat, places: nat)
    requires n < Pow10(places)
    ensures 0.0 <= Shifted(n, places) < 1.0
  {
    RatioBelowOne(n as real, Pow10(places) as real);
  }

  lemma RatioBelowOne(a: real, b: real)
    requires 0.0 <= a < b
    ensures 0.0 <= a / b < 1.0
  {
    assert a / b < b / b;
  }

  /** `n` divided by ten to the power `places`. */
  function Shifted(n: nat, places: nat): real {
    n as real / Pow10(places) as real
  }

  /** The lexeme a token rule may have matched. */
  predicate FitsRule(kind: Kind, w: string) {
    && (kind == Number ==> IsIntLexeme(w) || IsFloatLexeme(w))
    && (kind == String ==> |w| >= 2)
  }

  /** The value a rule's action leaves in `token.value`: STRING strips the quotes, BOOLEAN
      compares with `true`, NUMBER converts to float when the text has a dot and to int
      otherwise; every other token keeps its text. */
  function TokenValue(kind: Kind, w: string): (v: Value)
    requires FitsRule(kind, w)
    ensures kind == Number ==> (v.Int? <==> IsIntLexeme(w)) && (v.Real? <==> IsFloatLexeme(w))
    ensures kind == Boolean ==> v.Bool?
    ensures kind != Number && kind != Boolean ==> v.Str?
    ensures kind == String ==> |v.s| == |w| - 2
  {
    match kind
    case String => Str(w[1..|w| - 1])
    case Boolean => Bool(w == "true")
    case Number =>
      NumberLexemeForms(w);
      if '.' in w then Real(FloatValue(w)) else Int(IntValue(w))
    case _ => Str(w)
  }

  /** One step of the scanner at index `i` with line counter `line`. */
  function StepAt(s: string, i: nat, line: nat): (r: Step)
    requires i < |s|
    ensures i < r.next <= |s|
  {
    if s[i] in Ignored then Skip(i + 1, line)
    else
      match MasterMatch(s, i)
      case Some(NewlineMatch(e)) => Skip(e, line + (e - i))
      case Some(TokenMatch(k, e)) => Emit(Token(k, TokenValue(k, s[i..e]), line), e)
      case None =>
        if s[i] in Literals then Emit(Token(Literal(s[i]), Str([s[i]]), line), i + 1)
        else Illegal(IllegalCharacter(s[i], line), i + 1)
  }

  /** At a character that is not ignored, a token match of the master expression is emitted
      with its rule's value. */
  lemma StepOfMatch(s: string, i: nat, line: nat, k: Kind, e: nat)
    requires i < |s| && s[i] !in Ignored && MasterMatch(s, i) == Some(TokenMatch(k, e))
    ensures StepAt(s, i, line) == Emit(Token(k, TokenValue(k, s[i..e]), line), e)
  {
  }

  /** What scanning `s` from index `i` with line counter `line` produces. Each token and
      each diagnostic uses up at least one character. */
  function LexFrom(s: string, i: nat, line: nat): (r: Lexed)
    requires i <= |s|
    ensures |r.tokens| + |r.diagnostics| <= |s| - i
    decreases |s| - i
  {
    if i == |s| then Lexed([], [])
    else
      match StepAt(s, i, line)
      case Skip(n, l) => LexFrom(s, n, l)
      case Emit(t, n) =>
        var rest := LexFrom(s, n, line);
        Lexed([t] + rest.tokens, rest.diagnostics)
      case Illegal(d, n) =>
        var rest := LexFrom(s, n, line);
        Lexed(rest.tokens, [d] + rest.diagnostics)
  }

  /** Scanning from a position where a token is emitted. */
  lemma LexFromEmit(s: string, i: nat, line: nat, t: Token, n: nat)
    requires i < |s| && StepAt(s, i, line) == Emit(t, n)
    ensures LexFrom(s, i, line) == Lexed([t] + LexFrom(s, n, line).tokens, LexFrom(s, n, line).diagnostics)
  {
  }

  /** `tokenize(text)`, starting at line 1: at most one token or diagnostic per character,
      and diagnostics only for characters that are neither ignored nor literals. */
  function Lex(s: string): (r: Lexed)
    ensures |r.tokens| + |r.diagnostics| <= |s|
    ensures forall d :: d in r.diagnostics ==> d.c !in Ignored && d.c !in Literals && d.line >= 1
  {
    DiagnosticsUnmatched(s, 0, 1);
    LexFrom(s, 0, 1)
  }

  /** `MyLexer().tokenize(text)`: the scanning loop over an index and a line counter. */
  method Tokenize(text: string) returns (tokens: seq<Token>, diagnostics: seq<Diagnostic>)
    ensures Lexed(tokens, diagnostics) == Lex(text)
  {
    var index: nat, lineno: nat := 0, 1;
    tokens, diagnostics := [], [];
    ghost var all := LexFrom(text, 0, 1);
    while index < |text|
      invariant index <= |text|
      invariant all.tokens == tokens + LexFrom(text, index, lineno).tokens
      invariant all.diagnostics == diagnostics + LexFrom(text, index, lineno).diagnostics
      decreases |text| - index
    {
      match StepAt(text, index, lineno)
      case Skip(next, l) =>
        index, lineno := next, l;
      case Emit(tok, next) =>
        AppendOne(tokens, tok, LexFrom(text, next, lineno).tokens);
        tokens := tokens + [tok];
        index := next;
      case Illegal(d, next) =>
        AppendOne(diagnostics, d, LexFrom(text, next, lineno).diagnostics);
        diagnostics := diagnostics + [d];
        index := next;
    }
  }

  lemma AppendOne<T>(xs: seq<T>, x: T, ys: seq<T>)
    ensures xs + ([x] + ys) == (xs + [x]) + ys
  {
  }

  /** The fixed text of the keyword, operator and literal token types. */
  function Spelling(k: Kind): Option<string> {
    match k
    case Equals => Some("==")
    case NotEquals => Some("!=")
    case Less => Some("<")
    case Greater => Some(">")
    case If => Some("if")
    case Else => Some("else")
    case While => Some("while")
    case Print => Some("print")
    case Literal(c) => Some([c])
    case _ => None
  }

  /** The value a token of each type carries: a bool for BOOLEAN, an int or float for
      NUMBER, a string for names and strings, and its fixed text for a keyword, operator or
      literal. */
  predicate WellFormed(t: Token) {
    match t.kind
    case Number => t.value.Int? || t.value.Real?
    case Boolean => t.value.Bool?
    case _ => t.value.Str? && (Spelling(t.kind).Some? ==> t.value.s == Spelling(t.kind).value)
  }

  /** Every token the lexer produces is well formed and lies on a line no smaller than the
      line counter scanning started with. */
  lemma {:induction false} LexWellFormed(s: string, i: nat, line: nat)
    requires i <= |s|
    ensures forall t :: t in LexFrom(s, i, line).tokens ==> WellFormed(t) && t.line >= line
    decreases |s| - i
  {
    if i < |s| {
      StepWellFormed(s, i, line);
      match StepAt(s, i, line)
      case Skip(n, l) => LexWellFormed(s, n, l);
      case Emit(t, n) => LexWellFormed(s, n, line);
      case Illegal(d, n) => LexWellFormed(s, n, line);
    }
  }

  /** A diagnostic names a character that is neither ignored nor a literal, on a line no
      smaller than the line counter scanning started with. */
  lemma {:induction false} DiagnosticsUnmatched(s: string, i: nat, line: nat)
    requires i <= |s|
    ensures forall d :: d in LexFrom(s, i, line).diagnostics ==> d.c !in Ignored && d.c !in Literals && d.line >= line
    decreases |s| - i
  {
    if i < |s| {
      match StepAt(s, i, line)
      case Skip(n, l) => DiagnosticsUnmatched(s, n, l);
      case Emit(t, n) => DiagnosticsUnmatched(s, n, line);
      case Illegal(d, n) => DiagnosticsUnmatched(s, n, line);
    }
  }

  /** One scanning step emits only a well-formed token on the current line, and a skip
      never lowers the line counter. */
  lemma StepWellFormed(s: string, i: nat, line: nat)
    requires i < |s|
    ensures StepAt(s, i, line).Emit? ==> WellFormed(StepAt(s, i, line).token) && StepAt(s, i, line).token.line == line
    ensures StepAt(s, i, line).Skip? ==> StepAt(s, i, line).line >= line
  {
  }

  /** A NUMBER token holds a float exactly when its text contains a dot. */
  lemma NumberValueIsFloatIffDot(w: string)
    requires FitsRule(Number, w)
    ensures TokenValue(Number, w).Real? <==> '.' in w
    ensures TokenValue(Number, w).Int? <==> '.' !in w
  {
    NumberLexemeForms(w);
  }

  /** A NUMBER lexeme has the float form exactly when it contains a dot, and the int form
      exactly when it does not. */
  lemma NumberLexemeForms(w: string)
    requires IsIntLexeme(w) || IsFloatLexeme(w)
    ensures IsFloatLexeme(w) <==> '.' in w
    ensures IsIntLexeme(w) <==> '.' !in w
  {
    if IsFloatLexeme(w) {
      assert w[FirstIndex(w, '.')] == '.';
    } else {
      forall k | 0 <= k < |w| ensures w[k] != '.' {
        if w[0] == '-' && k > 0 {
          assert w[1..][k - 1] == w[k];
        }
      }
    }
  }

  /** A STRING token's value is exactly the text between the quotes, which contains no
      quote; no escape is processed. */
  lemma StringToken(s: string, i: nat, line: nat)
    requires i < |s| && s[i] == '"' && ClosingQuote(s, i) < |s|
    ensures var j := ClosingQuote(s, i);
      && StepAt(s, i, line) == Emit(Token(String, Str(s[i + 1..j]), line), j + 1)
      && '"' !in s[i + 1..j]
  {
    var j := ClosingQuote(s, i);
    NoWordAt(s, i);
    assert MasterMatch(s, i) == Some(TokenMatch(String, j + 1));
    StepOfMatch(s, i, line, String, j + 1);
    var w := s[i..j + 1];
    assert |w| == j + 1 - i;
    Subslice(s, i, j + 1, 1, |w| - 1);
  }

  /** A quote with no closing quote after it is an illegal character. */
  lemma UnterminatedString(s: string, i: nat, line: nat)
    requires i < |s| && s[i] == '"' && ClosingQuote(s, i) == |s|
    ensures StepAt(s, i, line) == Illegal(IllegalCharacter('"', line), i + 1)
  {
    NoWordAt(s, i);
  }

  /** `true` and `false` lex as BOOLEAN, whose value is true exactly for `true`, whatever
      follows them. */
  lemma BooleanToken(s: string, i: nat, line: nat)
    requires StartsWith(s, i, "true") || StartsWith(s, i, "false")
    ensures var isTrue := StartsWith(s, i, "true");
      StepAt(s, i, line) == Emit(Token(Boolean, Bool(isTrue), line), if isTrue then i + 4 else i + 5)
  {
    if StartsWith(s, i, "true") {
      TrueToken(s, i, line);
    } else {
      FalseToken(s, i, line);
    }
  }

  lemma TrueToken(s: string, i: nat, line: nat)
    requires StartsWith(s, i, "true")
    ensures StepAt(s, i, line) == Emit(Token(Boolean, Bool(true), line), i + 4)
  {
    FirstChar(s, i, "true");
    Mismatch(s, i, "=="); Mismatch(s, i, "!="); Mismatch(s, i, "if"); Mismatch(s, i, "else");
    Mismatch(s, i, "while"); Mismatch(s, i, "print");
    assert MasterMatch(s, i) == Some(TokenMatch(Boolean, i + 4));
    StepOfMatch(s, i, line, Boolean, i + 4);
  }

  lemma FalseToken(s: string, i: nat, line: nat)
    requires StartsWith(s, i, "false")
    ensures StepAt(s, i, line) == Emit(Token(Boolean, Bool(false), line), i + 5)
  {
    FirstChar(s, i, "false");
    Mismatch(s, i, "=="); Mismatch(s, i, "!="); Mismatch(s, i, "if"); Mismatch(s, i, "else");
    Mismatch(s, i, "while"); Mismatch(s, i, "print"); Mismatch(s, i, "true");
    assert MasterMatch(s, i) == Some(TokenMatch(Boolean, i + 5));
    StepOfMatch(s, i, line, Boolean, i + 5);
    assert |s[i..i + 5]| != |"true"|;
  }

  /** A digit starts a NUMBER. The float alternative is tried first, so digits, a dot and
      digits form one float token; otherwise the digits alone form an int token. */
  lemma NumberToken(s: string, i: nat, line: nat)
    requires i < |s| && IsDigit(s[i])
    ensures var d := DigitsEnd(s, i);
      d + 1 < |s| && s[d] == '.' && IsDigit(s[d + 1]) ==>
        var e := DigitsEnd(s, d + 1);
        && IsFloatLexeme(s[i..e])
        && StepAt(s, i, line) == Emit(Token(Number, Real(FloatValue(s[i..e])), line), e)
    ensures var d := DigitsEnd(s, i);
      !(d + 1 < |s| && s[d] == '.' && IsDigit(s[d + 1])) ==>
        && AllDigits(s[i..d])
        && StepAt(s, i, line) == Emit(Token(Number, Int(DigitsValue(s[i..d])), line), d)
  {
    var d := DigitsEnd(s, i);
    if d + 1 < |s| && s[d] == '.' && IsDigit(s[d + 1]) {
      FloatNumber(s, i, line);
    } else {
      IntNumber(s, i, line);
    }
  }

  lemma FloatNumber(s: string, i: nat, line: nat)
    requires i < |s| && IsDigit(s[i])
    requires var d := DigitsEnd(s, i); d + 1 < |s| && s[d] == '.' && IsDigit(s[d + 1])
    ensures var e := DigitsEnd(s, DigitsEnd(s, i) + 1);
      && IsFloatLexeme(s[i..e])
      && StepAt(s, i, line) == Emit(Token(Number, Real(FloatValue(s[i..e])), line), e)
  {
    var d := DigitsEnd(s, i);
    var e := DigitsEnd(s, d + 1);
    NumberMatch(s, i);
    assert NumberEnd(s, i) == Some(e);
    FloatLexemeAt(s, i, d, e);
    StepOfMatch(s, i, line, Number, e);
    assert s[i..e][d - i] == '.';
  }

  lemma IntNumber(s: string, i: nat, line: nat)
    requires i < |s| && IsDigit(s[i])
    requires var d := DigitsEnd(s, i); !(d + 1 < |s| && s[d] == '.' && IsDigit(s[d + 1]))
    ensures var d := DigitsEnd(s, i);
      && AllDigits(s[i..d])
      && StepAt(s, i, line) == Emit(Token(Number, Int(DigitsValue(s[i..d])), line), d)
  {
    var d := DigitsEnd(s, i);
    var w := s[i..d];
    NumberMatch(s, i);
    assert NumberEnd(s, i) == Some(d);
    StepOfMatch(s, i, line, Number, d);
    assert AllDigits(w);
    assert '.' !in w;
  }

  lemma NumberMatch(s: string, i: nat)
    requires i < |s| && IsDigit(s[i])
    ensures NumberEnd(s, i).Some? && MasterMatch(s, i) == Some(TokenMatch(Number, NumberEnd(s, i).value))
  {
    NoWordAt(s, i);
  }

  /** A `-` directly followed by a digit is the sign of a negative int NUMBER, because the
      NUMBER rule is tried before literals; any other `-` is the literal `-`. */
  lemma MinusToken(s: string, i: nat, line: nat)
    requires i < |s| && s[i] == '-'
    ensures i + 1 < |s| && IsDigit(s[i + 1]) ==>
      var e := DigitsEnd(s, i + 1);
      StepAt(s, i, line) == Emit(Token(Number, Int(-(DigitsValue(s[i + 1..e]) as int)), line), e)
    ensures !(i + 1 < |s| && IsDigit(s[i + 1])) ==>
      StepAt(s, i, line) == Emit(Token(Literal('-'), Str("-"), line), i + 1)
  {
    NoWordAt(s, i);
    if i + 1 < |s| && IsDigit(s[i + 1]) {
      var e := DigitsEnd(s, i + 1);
      NumberValueIsFloatIffDot(s[i..e]);
      assert s[i..e][1..] == s[i + 1..e];
    }
  }

  /** `==` is EQUALS and `!=` is NOTEQUALS; a `=` not followed by `=` is the literal `=`;
      `<` and `>` are LESS and GREATER. */
  lemma OperatorTokens(s: string, i: nat, line: nat)
    requires i < |s|
    ensures StartsWith(s, i, "==") ==> StepAt(s, i, line) == Emit(Token(Equals, Str("=="), line), i + 2)
    ensures StartsWith(s, i, "!=") ==> StepAt(s, i, line) == Emit(Token(NotEquals, Str("!="), line), i + 2)
    ensures s[i] == '=' && !StartsWith(s, i, "==") ==>
      StepAt(s, i, line) == Emit(Token(Literal('='), Str("="), line), i + 1)
    ensures s[i] == '<' ==> StepAt(s, i, line) == Emit(Token(Less, Str("<"), line), i + 1)
    ensures s[i] == '>' ==> StepAt(s, i, line) == Emit(Token(Greater, Str(">"), line), i + 1)
  {
    if StartsWith(s, i, "==") {
      StepOfMatch(s, i, line, Equals, i + 2);
    }
    if StartsWith(s, i, "!=") {
      NotEqualsToken(s, i, line);
    }
    if s[i] == '=' && !StartsWith(s, i, "==") {
      AssignLiteral(s, i, line);
    }
    if s[i] == '<' || s[i] == '>' {
      ComparisonToken(s, i, line);
    }
  }

  lemma NotEqualsToken(s: string, i: nat, line: nat)
    requires StartsWith(s, i, "!=")
    ensures StepAt(s, i, line) == Emit(Token(NotEquals, Str("!="), line), i + 2)
  {
    Mismatch(s, i, "==");
    StepOfMatch(s, i, line, NotEquals, i + 2);
  }

  lemma AssignLiteral(s: string, i: nat, line: nat)
    requires i < |s| && s[i] == '=' && !StartsWith(s, i, "==")
    ensures StepAt(s, i, line) == Emit(Token(Literal('='), Str("="), line), i + 1)
  {
    Mismatch(s, i, "!=");
    Mismatch(s, i, "if");
    Mismatch(s, i, "else");
    Mismatch(s, i, "while");
    Mismatch(s, i, "print");
    Mismatch(s, i, "true");
    Mismatch(s, i, "false");
    assert MasterMatch(s, i) == None;
  }

  lemma ComparisonToken(s: string, i: nat, line: nat)
    requires i < |s| && (s[i] == '<' || s[i] == '>')
    ensures s[i] == '<' ==> StepAt(s, i, line) == Emit(Token(Less, Str("<"), line), i + 1)
    ensures s[i] == '>' ==> StepAt(s, i, line) == Emit(Token(Greater, Str(">"), line), i + 1)
  {
    Mismatch(s, i, "==");
    Mismatch(s, i, "!=");
    var k := if s[i] == '<' then Less else Greater;
    assert MasterMatch(s, i) == Some(TokenMatch(k, i + 1));
    StepOfMatch(s, i, line, k, i + 1);
    assert s[i..i + 1] == [s[i]];
  }

  /** The keywords are tried before NAME and are not anchored at a word boundary, so a
      keyword at the start of a longer word is still the keyword: `iffy` is IF then NAME. */
  lemma KeywordToken(s: string, i: nat, line: nat)
    requires i < |s|
    ensures StartsWith(s, i, "if") ==> StepAt(s, i, line) == Emit(Token(If, Str("if"), line), i + 2)
    ensures StartsWith(s, i, "else") ==> StepAt(s, i, line) == Emit(Token(Else, Str("else"), line), i + 4)
    ensures StartsWith(s, i, "while") ==> StepAt(s, i, line) == Emit(Token(While, Str("while"), line), i + 5)
    ensures StartsWith(s, i, "print") ==> StepAt(s, i, line) == Emit(Token(Print, Str("print"), line), i + 5)
  {
    if StartsWith(s, i, "if") {
      FirstChar(s, i, "if");
      Mismatch(s, i, "=="); Mismatch(s, i, "!=");
      WordToken(s, i, line, "if", If);
    }
    if StartsWith(s, i, "else") {
      FirstChar(s, i, "else");
      Mismatch(s, i, "=="); Mismatch(s, i, "!="); Mismatch(s, i, "if");
      WordToken(s, i, line, "else", Else);
    }
    if StartsWith(s, i, "while") {
      WhileKeyword(s, i, line);
    }
    if StartsWith(s, i, "print") {
      PrintKeyword(s, i, line);
    }
  }

  lemma WhileKeyword(s: string, i: nat, line: nat)
    requires StartsWith(s, i, "while")
    ensures StepAt(s, i, line) == Emit(Token(While, Str("while"), line), i + 5)
  {
    FirstChar(s, i, "while");
    Mismatch(s, i, "=="); Mismatch(s, i, "!="); Mismatch(s, i, "if"); Mismatch(s, i, "else");
    WordToken(s, i, line, "while", While);
  }

  lemma PrintKeyword(s: string, i: nat, line: nat)
    requires StartsWith(s, i, "print")
    ensures StepAt(s, i, line) == Emit(Token(Print, Str("print"), line), i + 5)
  {
    FirstChar(s, i, "print");
    Mismatch(s, i, "=="); Mismatch(s, i, "!="); Mismatch(s, i, "if"); Mismatch(s, i, "else");
    Mismatch(s, i, "while");
    WordToken(s, i, line, "print", Print);
  }

  /** A fixed word the master expression matched is emitted with the word as its value. */
  lemma WordToken(s: string, i: nat, line: nat, word: string, k: Kind)
    requires StartsWith(s, i, word) && |word| > 0 && word[0] !in Ignored
    requires !k.String? && !k.Boolean? && !k.Number?
    requires MasterMatch(s, i) == Some(TokenMatch(k, i + |word|))
    ensures StepAt(s, i, line) == Emit(Token(k, Str(word), line), i + |word|)
  {
    FirstChar(s, i, word);
    StepOfMatch(s, i, line, k, i + |word|);
  }

  /** A letter or underscore that does not begin a keyword or `true`/`false` starts a NAME
      holding the longest run of name characters. */
  lemma NameToken(s: string, i: nat, line: nat)
    requires i < |s| && IsNameStart(s[i])
    requires !StartsWith(s, i, "if") && !StartsWith(s, i, "else")
    requires !StartsWith(s, i, "while") && !StartsWith(s, i, "print")
    requires !StartsWith(s, i, "true") && !StartsWith(s, i, "false")
    ensures var e := NameEnd(s, i);
      StepAt(s, i, line) == Emit(Token(Name, Str(s[i..e]), line), e)
  {
    Mismatch(s, i, "==");
    Mismatch(s, i, "!=");
  }

  /** The literal characters other than `-` and `=`, which start no pattern, are always
      one-character literal tokens. */
  lemma PunctuationToken(s: string, i: nat, line: nat)
    requires i < |s| && s[i] in {'+', '*', '/', '(', ')', '{', '}', ';'}
    ensures StepAt(s, i, line) == Emit(Token(Literal(s[i]), Str([s[i]]), line), i + 1)
  {
    NoWordAt(s, i);
    assert s[i..i + 1] == [s[i]];
  }

  /** Spaces and tabs produce no token; a run of newlines produces no token and raises the
      line counter by the number of newlines in it. */
  lemma WhitespaceSkipped(s: string, i: nat, line: nat)
    requires i < |s|
    ensures s[i] in Ignored ==> StepAt(s, i, line) == Skip(i + 1, line)
    ensures s[i] == '\n' ==>
      var e := NewlinesEnd(s, i);
      && StepAt(s, i, line) == Skip(e, line + |s[i..e]|)
      && (forall k :: i <= k < e ==> s[k] == '\n')
  {
    if s[i] == '\n' {
      NoWordAt(s, i);
    }
  }

  /** A character no rule and no literal accepts yields one diagnostic naming it and the
      current line, produces no token, and scanning resumes one character later on the
      same line. */
  lemma IllegalCharacterSkipped(s: string, i: nat, line: nat)
    requires i < |s|
    requires s[i] !in Ignored && s[i] !in Literals && MasterMatch(s, i).None?
    ensures LexFrom(s, i, line) ==
      Lexed(LexFrom(s, i + 1, line).tokens, [IllegalCharacter(s[i], line)] + LexFrom(s, i + 1, line).diagnostics)
  {
    assert StepAt(s, i, line) == Illegal(IllegalCharacter(s[i], line), i + 1);
  }

  /** A `!` not followed by `=` starts no token: the master expression has no match there,
      and `!` is not a literal, so it is an illegal character. */
  lemma LoneBangIsIllegal(s: string, i: nat)
    requires i < |s| && s[i] == '!' && !(i + 1 < |s| && s[i + 1] == '=')
    ensures MasterMatch(s, i).None? && s[i] !in Ignored && s[i] !in Literals
  {
    Mismatch(s, i, "==");
    if i + 2 <= |s| {
      assert s[i..i + 2][1] == s[i + 1];
    }
    Mismatch(s, i, "if");
    Mismatch(s, i, "else");
    Mismatch(s, i, "while");
    Mismatch(s, i, "print");
    Mismatch(s, i, "true");
    Mismatch(s, i, "false");
  }

  /** The decimal digits of a natural number (Python's `str` of a non-negative int). */
  function Decimal(n: nat): (w: string)
    ensures |w| > 0 && AllDigits(w)
  {
    if n < 10 then [('0' as int + n) as char] else Decimal(n / 10) + [('0' as int + n % 10) as char]
  }

  /** Converting digits with `int` inverts writing a number in decimal, for both signs. */
  lemma {:induction false} IntValueOfDecimal(n: nat)
    ensures DigitsValue(Decimal(n)) == n
    ensures IntValue(Decimal(n)) == n
    ensures n > 0 ==> IsIntLexeme("-" + Decimal(n)) && IntValue("-" + Decimal(n)) == -(n as int)
  {
    var w := Decimal(n);
    if n >= 10 {
      IntValueOfDecimal(n / 10);
      assert w[..|w| - 1] == Decimal(n / 10);
    }
    if n > 0 {
      assert ("-" + w)[1..] == w;
    }
  }

  /** The value of a digit string is the value of its head shifted past its tail. */
  lemma {:induction false} DigitsValueAppend(a: string, b: string)
    requires AllDigits(a) && AllDigits(b)
    ensures AllDigits(a + b)
    ensures DigitsValue(a + b) == DigitsValue(a) * Pow10(|b|) + DigitsValue(b)
    decreases |b|
  {
    assert AllDigits(a + b) by {
      forall k | 0 <= k < |a + b| ensures IsDigit((a + b)[k]) {
        if k >= |a| { assert (a + b)[k] == b[k - |a|]; }
      }
    }
    if b == [] {
      assert a + b == a;
    } else {
      var b' := b[..|b| - 1];
      var last := b[|b| - 1];
      DigitsValueAppend(a, b');
      assert (a + b)[..|a + b| - 1] == a + b';
      assert (a + b)[|a + b| - 1] == last;
      var x, y, d, p := DigitsValue(a), DigitsValue(b'), DigitValue(last), Pow10(|b'|);
      assert DigitsValue(a + b) == 10 * (x * p + y) + d;
      assert DigitsValue(b) == 10 * y + d;
      assert Pow10(|b|) == 10 * p;
      ShiftByTen(x, p, y, d);
    }
  }

  lemma ShiftByTen(x: int, p: int, y: int, d: int)
    ensures 10 * (x * p + y) + d == x * (10 * p) + (10 * y + d)
  {
  }

  lemma CastShift(x: int, p: int, y: int)
    ensures (x * p + y) as real == x as real * p as real + y as real
  {
  }

  lemma ShiftedQuotient(x: real, y: real, p: real)
    requires p > 0.0
    ensures (x * p + y) / p == x + y / p
  {
  }

  /** A float lexeme denotes exactly its digits, read without the dot, divided by ten to the
      number of digits after the dot: `12.50` is 1250/100. */
  lemma FloatValueScaled(w: string)
    requires IsFloatLexeme(w)
    ensures var k := FirstIndex(w, '.');
      AllDigits(w[..k] + w[k + 1..]) &&
      FloatValue(w) == Shifted(DigitsValue(w[..k] + w[k + 1..]), |w[k + 1..]|)
  {
    var k := FirstIndex(w, '.');
    ScaledSum(w[..k], w[k + 1..]);
  }

  /** Digits `a` followed by the fraction digits `b` denote `a` plus `b` shifted past `b`. */
  lemma ScaledSum(a: string, b: string)
    requires AllDigits(a) && AllDigits(b)
    ensures AllDigits(a + b)
    ensures Shifted(DigitsValue(a + b), |b|) == DigitsValue(a) as real + Shifted(DigitsValue(b), |b|)
  {
    DigitsValueAppend(a, b);
    ScaleArith(DigitsValue(a), DigitsValue(b), Pow10(|b|));
  }

  lemma ScaleArith(x: nat, y: nat, p: nat)
    requires p >= 1
    ensures (x * p + y) as real / p as real == x as real + y as real / p as real
  {
    CastShift(x, p, y);
    ShiftedQuotient(x as real, y as real, p as real);
  }

  /** `x-1` lexes as NAME then a negative NUMBER, not as a subtraction. */
  lemma MinusAfterNameJoinsNumber()
    ensures Lex("x-1").tokens == [Token(Name, Str("x"), 1), Token(Number, Int(-1), 1)]
  {
    NameThenNegative("x-1");
  }

  lemma NameThenNegative(s: string)
    requires s == "x-1"
    ensures Lex(s).tokens == [Token(Name, Str("x"), 1), Token(Number, Int(-1), 1)]
  {
    NameToken(s, 0, 1);
    assert NameEnd(s, 1) == 1;
    MinusToken(s, 1, 1);
    assert DigitsEnd(s, 2) == 3;
    assert s[2..3] == "1" && DigitsValue("1") == 1;
    assert s[0..1] == "x";
    assert StepAt(s, 1, 1) == Emit(Token(Number, Int(-1), 1), 3);
    assert LexFrom(s, 1, 1).tokens == [Token(Number, Int(-1), 1)];
  }

  /** One illegal character in `1@2` costs one diagnostic and nothing else. */
  lemma IllegalCharacterInMiddle()
    ensures Lex("1@2") == Lexed([Token(Number, Int(1), 1), Token(Number, Int(2), 1)], [IllegalCharacter('@', 1)])
  {
    NumbersAroundIllegal("1@2");
  }

  lemma NumbersAroundIllegal(s: string)
    requires s == "1@2"
    ensures Lex(s) == Lexed([Token(Number, Int(1), 1), Token(Number, Int(2), 1)], [IllegalCharacter('@', 1)])
  {
    NumberToken(s, 2, 1);
    assert DigitsEnd(s, 3) == 3;
    assert s[2..3] == "2" && DigitsValue("2") == 2;
    assert LexFrom(s, 2, 1) == Lexed([Token(Number, Int(2), 1)], []);
    NoWordAt(s, 1);
    IllegalCharacterSkipped(s, 1, 1);
    NumberToken(s, 0, 1);
    assert DigitsEnd(s, 1) == 1;
    assert s[0..1] == "1" && DigitsValue("1") == 1;
  }
}
