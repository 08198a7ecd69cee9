# A verified model of a small tree-walking interpreter

The interpreter reads a program text of `print(e);`, `x = e;`, `if (c) { .. } else { .. };`
and `while (c) { .. };` statements and runs it in three stages:

- a lexer (`MyLexer`, components/lexica.py) built on SLY;
- a grammar with semantic actions (`ASTParser`, components/parsers.py) that builds statement
  and expression nodes;
- the nodes' `evaluate` and `run` methods (components/ast/statement.py), run against a
  variable store (`Memory`, components/memory.py) that keeps, for each name, the value and
  its runtime type.

The run button of main.py ties the three stages together.

The model has one Dafny module per stage:

- `Values` holds runtime values: int, float (as an exact `real`), bool and str, with Python
  truthiness.
- `Store` is the store as a map value, with `set` and `get`.
- `Lexer` is the scanner. SLY tries the token patterns in definition order and takes the
  first alternative that matches. It tries literal characters only when no pattern matches.
  An illegal character costs one diagnostic and one character. `MasterMatch`, `StepAt` and
  `LexFrom` state this as functions. `Tokenize` is the index-and-line-counter loop, proved
  equal to them.
- `Parser` is the grammar as precedence climbing over the tokens, giving `None` on a
  syntax error. `Unparse` writes every tree the grammar can produce back as a canonical
  token sequence. The parser inverts it, and everything the parser returns has that shape.
- `Ast` holds the expression and statement nodes, `Eval` (`evaluate`) and `Exec` (`run`).
  `Exec` has a loop budget, and a run that exceeds it ends with `OutOfFuel`.
- `Memory` is the store as a class whose `set` updates its map field in place. It also
  holds the statements' `run` methods as imperative methods (`Run`, `RunWhile` with a
  `while` loop, `RunAll` with a `for` loop). Each is proved to end in exactly the output,
  store and status that `Exec` gives.
- `Driver` is `push_run`: lex, parse, then run every statement or report that there was
  nothing to run.

Some behaviours of the source that the model makes explicit:

- Keywords match as prefixes, so `iffy` lexes as `if` then the name `fy`.
- A `-` directly before a digit is part of a negative NUMBER, so `x-1` lexes as a name
  followed by the number -1. A statement `x=x-1;` is therefore a syntax error; `x = x - 1;`
  is not.
- `<` and `>` have no entry in the precedence table. SLY's conflict resolution then gives
  them level 0 with right associativity. So they bind weaker than `==`, and `a < b < c`
  groups as `a < (b < c)`.
- The `isinstance(..., bool)` guard in the `+` action tests parse-tree nodes, which are
  never bools. So `true + 1` always parses, and the error comes at evaluation.

## Model

| member | source | states |
|---|---|---|
| `Values.TypeOf` | components/ast/statement.py:59 | the type stored beside a value is its own kind: int exactly for ints, float for floats, bool for bools, str for strings |
| `Store.Set` | components/memory.py:18-25 | after `set` the name is bound to exactly the new value and type, every other name keeps its record, and the bound names are the old ones plus this name |
| `Store.Get` | components/memory.py:27-29 | `get` succeeds exactly when the name is bound and then gives the stored value; an unbound name is an error (`KeyError`), never a default |
| `Store.GetAfterSet` | components/memory.py:18-29 | reading a name after setting it gives the value set; reading any other name gives what it gave before |
| `Lexer.DigitsEnd` | components/lexica.py:54-55 | the digit run matched by `\d+` is maximal: all digits, and followed by a non-digit or the end |
| `Lexer.NameEnd` | components/lexica.py:52 | the NAME match is the longest run of name characters |
| `Lexer.NewlinesEnd` | components/lexica.py:64 | the newline rule consumes the whole run of newlines |
| `Lexer.ClosingQuote` | components/lexica.py:37 | the STRING pattern ends at the first quote after the opening one, with no quote between |
| `Lexer.NumberEnd` | components/lexica.py:54-55 | NUMBER matches exactly when a digit, or `-` and a digit, comes next, and what it matches has the int or float form |
| `Lexer.MasterMatch` | components/lexica.py:22-67 | the first matching rule in definition order: a match is non-empty and in bounds, a newline match is a maximal newline run, a token match fits its rule and is never a literal |
| `Lexer.StepAt` | components/lexica.py:49-71 | every scanning step advances the index |
| `Lexer.Tokenize` | components/lexica.py:18-71 | the scanning loop over an index and a line counter yields exactly the tokens and diagnostics of `Lex` |
| `Lexer.LexWellFormed` | components/lexica.py:21-61 | every token's value fits its type (bool for BOOLEAN, number for NUMBER, text otherwise), keyword, operator and literal tokens hold their fixed text, and no token lies before the starting line |
| `Lexer.NumberValueIsFloatIffDot` | components/lexica.py:56-60 | a NUMBER is a float exactly when its text contains `.`, and an int otherwise |
| `Lexer.StringToken` | components/lexica.py:37-40 | a STRING token's value is exactly the text between the quotes, which contains no quote |
| `Lexer.UnterminatedString` | components/lexica.py:37-71 | a quote with no closing quote is an illegal character |
| `Lexer.BooleanToken` | components/lexica.py:43-46 | `true`/`false` lex as BOOLEAN whose value is true exactly for `true` |
| `Lexer.NumberToken` | components/lexica.py:54-61 | digits, a dot and digits form one float token (the float pattern comes first); digits alone form an int token with their decimal value |
| `Lexer.MinusToken` | components/lexica.py:21-61 | a `-` directly before a digit is the sign of a negative int NUMBER; any other `-` is the literal `-` |
| `Lexer.OperatorTokens` | components/lexica.py:21-25 | `==` is EQUALS, `!=` is NOTEQUALS, a lone `=` the literal `=`, `<` LESS and `>` GREATER |
| `Lexer.KeywordToken` | components/lexica.py:26-29 | `if`, `else`, `while`, `print` lex as keywords even at the start of a longer word |
| `Lexer.NameToken` | components/lexica.py:52 | a letter or `_` that starts no keyword and no bool starts a NAME holding the longest name run |
| `Lexer.PunctuationToken` | components/lexica.py:21 | `+ * / ( ) { } ;` are single-character literal tokens |
| `Lexer.WhitespaceSkipped` | components/lexica.py:49-67 | spaces and tabs produce no token; a newline run produces no token and raises the line counter by its length |
| `Lexer.IllegalCharacterSkipped` | components/lexica.py:69-71 | any character that is not ignored, is no literal and starts no pattern match yields one diagnostic naming it and the current line, no token, and scanning resumes one character later on the same line |
| `Lexer.LoneBangIsIllegal` | components/lexica.py:21-23 | a `!` not followed by `=` starts no pattern and is no literal, so it is an illegal character |
| `Lexer.DiagnosticsUnmatched` | components/lexica.py:49-71 | every diagnostic names a character that is neither ignored nor a literal, on a line at or after the starting line |
| `Lexer.LexFrom` | components/lexica.py:49-71 | each character yields at most one token or diagnostic |
| `Lexer.Lex` | components/lexica.py:18-71 | a text yields at most as many tokens and diagnostics as it has characters, and every diagnostic names a non-blank, non-literal character on a line from 1 on |
| `Lexer.TokenValue` | components/lexica.py:37-61 | a NUMBER's value is an int exactly for the int form and a float exactly for the float form; a BOOLEAN's is a bool; a STRING's is text two characters shorter than its lexeme; every other token's value is text (the contents are stated by `Lexer.StringToken`, `Lexer.NameToken` and `Lexer.LexWellFormed`) |
| `Lexer.IntValue` | components/lexica.py:55-60 | the int conversion is negative only with a leading `-`, non-negative without one and non-positive with one |
| `Lexer.FloatValue` | components/lexica.py:54-58 | a float lexeme's value lies between its whole part and the next integer above it |
| `Lexer.IntValueOfDecimal` | components/lexica.py:55-60 | the int conversion inverts decimal notation, for positive and negative numbers |
| `Lexer.FloatValueScaled` | components/lexica.py:54-58 | a float lexeme's value is its digits without the dot divided by ten to the number of fractional digits |
| `Lexer.MinusAfterNameJoinsNumber` | components/lexica.py:52-55 | `x-1` lexes as NAME `x` then NUMBER -1 |
| `Lexer.IllegalCharacterInMiddle` | components/lexica.py:69-71 | `1@2` lexes as the numbers 1 and 2 with one diagnostic for `@` on line 1 |
| `Ast.Apply` | components/ast/statement.py:113-139 | comparisons and equality give bools, and equality never fails; division gives a float; int `+ - *` int gives an int; numbers never fail except in division; `+` with a bool operand is the boolean-addition error |
| `Ast.Exec` | components/ast/statement.py:13-59 | running a statement never removes a variable |
| `Ast.ExecSeq` | components/ast/statement.py:46-48 | running a statement list never removes a variable |
| `Ast.EvalFrame` | components/ast/statement.py:107-167 | evaluation reads the store only at the expression's own names |
| `Ast.LiteralValues` | components/ast/statement.py:82-105 | literal nodes evaluate to their stored constant |
| `Ast.BinaryEvaluatesLeftThenRight` | components/ast/statement.py:113-139 | both operands are evaluated, left first; the first error is the result, otherwise the operator is applied to both values |
| `Ast.UndefinedVariableFails` | components/ast/statement.py:159-167 | reading an unbound name makes evaluation fail; a bare unbound name gives exactly the undefined-variable error for that name; and an undefined-variable error names an unbound name the expression reads |
| `Ast.Eval` | components/ast/statement.py:82-167 | a successful evaluation has every name the expression reads bound; an undefined-variable error names a name that is read and unbound; a variable evaluates exactly when bound; comparisons and equality give bools and division a float |
| `Ast.NotEqualsNegatesEquals` | components/ast/statement.py:134-137 | `!=` is the negation of `==` on the same operands |
| `Ast.ValuesEqualIsEquivalence` | components/ast/statement.py:134-135 | value equality is reflexive, symmetric and transitive |
| `Ast.StrLessTrichotomy` | components/ast/statement.py:130-133 | of two strings, exactly one is less, they are equal, or the other is less; `<` is irreflexive and asymmetric |
| `Ast.StrLessTransitive` | components/ast/statement.py:130-133 | string `<` is transitive, which with trichotomy makes it a strict total order |
| `Ast.ValuesEqual` | components/ast/statement.py:134-137 | equal values compare equal; an int and a float are equal exactly when their numbers are; a bool never equals a non-bool; values that are not both numbers are equal only when identical |
| `Ast.Arithmetic` | components/ast/statement.py:122-129 | `+ - * /` succeed exactly on two numbers (except a zero divisor), two strings for `+`, and a string with an int for `*` in either order; the error is the zero division for a numeric `/` and a type error naming both types otherwise; a numeric result is an int exactly when both operands are ints and the operator is not `/`; any other result is a string |
| `Ast.ArithmeticIsExact` | components/ast/statement.py:122-129 | on numbers the result equals the exact real-number sum, difference, product or quotient |
| `Ast.Compare` | components/ast/statement.py:130-133 | `<` and `>` succeed exactly on two numbers or two strings, give a bool that is true only for unequal values, and are a type error naming both types otherwise |
| `Ast.LessIsFlippedGreater` | components/ast/statement.py:130-133 | `a < b` succeeds exactly when `b > a` does, with the same result |
| `Ast.RepeatLength` | components/ast/statement.py:126-127 | a string times `n` is `n` times as long, and empty for `n <= 0` |
| `Ast.DivisionIsTrueDivision` | components/ast/statement.py:128-129 | int by non-zero int gives the exact quotient as a float; a zero divisor is an error |
| `Ast.IntArithmeticIsExact` | components/ast/statement.py:113-127 | `+ - *` over int literals agree with integer arithmetic, in every store |
| `Ast.ExpressionExamples` | components/ast/statement.py:184-192 | 42 is 42, true is true, 10 + 5 is 15 and 2 * 3 is 6 |
| `Ast.ExecFuelMonotone` | components/ast/statement.py:34-37 | a run that fits in a loop budget has the same outcome under every larger budget |
| `Ast.ExecSeqFuelMonotone` | components/ast/statement.py:46-48 | the same for statement lists |
| `Ast.PrintAndAssign` | components/ast/statement.py:13-59 | print outputs the value and changes nothing; assignment stores the value with its type without printing, and reading the name gives it back; a failing expression changes nothing |
| `Values.FalsyValues` | components/ast/statement.py:24 | a condition value is falsy exactly when it is `False`, `0`, `0.0` or the empty string |
| `Ast.IfRunsOneBranch` | components/ast/statement.py:23-27 | a truthy condition runs the true block, otherwise the false block if present, otherwise nothing |
| `Ast.WhileZeroIterations` | components/ast/statement.py:34-37 | a loop whose condition is falsy at the start runs zero times |
| `Ast.WhileUnrolls` | components/ast/statement.py:34-37 | a truthy condition runs the body, then the whole loop again in the body's store |
| `Ast.ExecSeqAppend` | components/ast/statement.py:46-48 | running `a + b` runs `a`, then `b` on the store `a` left if `a` ended normally, outputs in order |
| `Ast.CountdownRuns` | components/ast/statement.py:200-218 | the countdown loop from `n` prints `n` down to 1 and leaves 0 |
| `Ast.CountdownFromThree` | components/ast/statement.py:200-218 | the countdown from 3 prints 3, 2, 1 |
| `Parser.ParseExpr` | components/parsers.py:63-127 | an expression consumes at least one token |
| `Parser.ParseTail` | components/parsers.py:15-19 | a left-associative chain never consumes more than it is given |
| `Parser.ParseCondition` | components/parsers.py:40-60 | a parenthesised condition consumes tokens |
| `Parser.ParseBlock` | components/parsers.py:50-60 | a braced block consumes tokens |
| `Parser.ParseStatement` | components/parsers.py:40-60 | a statement consumes tokens |
| `Parser.ParseStatements` | components/parsers.py:31-37 | a statement list is non-empty and consumes tokens (what it consumes: `Parser.ParseStatementsSpelled`) |
| `Parser.Atom` | components/parsers.py:63-65 | a token is an operand exactly when it is a well-formed NUMBER, STRING, BOOLEAN or NAME, and the operand it gives is spelled back as that one token |
| `Parser.ParseExprSpelled` | components/parsers.py:63-127 | the tokens an expression parse consumes are exactly the spelling of the expression it returns, up to line numbers |
| `Parser.ParseStatementSpelled` | components/parsers.py:40-60 | the tokens a statement parse consumes are exactly the spelling of the statement it returns, up to line numbers |
| `Parser.ParseStatementsSpelled` | components/parsers.py:31-37 | the tokens a statement-list parse consumes are exactly the spelling of the list it returns, each statement followed by `;` |
| `Parser.ParsedIsSpelled` | components/parsers.py:24-37 | for well-formed tokens, a program parses only if the tokens are exactly its spelling, up to line numbers, and end in `;` |
| `Parser.MissingSemicolonRejected` | components/parsers.py:31-37 | well-formed tokens that do not end with `;` (the empty sequence included) are a syntax error, since every statement, the last one too, needs its closing `;` |
| `Parser.Parse` | components/parsers.py:24-28 | a parsed program is never empty |
| `Parser.ExprRoundTrip` | components/parsers.py:63-127 | a tree of the grammar's shape, spelled out, parses back to itself at its level with the following tokens untouched |
| `Parser.ChainRoundTrip` | components/parsers.py:15-19 | a spelled left-associative chain is read whole and handed to the chain continuation |
| `Parser.ParseExprShaped` | components/parsers.py:15-19 | every parsed expression respects precedence and associativity, and parsing stops only before a weaker operator |
| `Parser.PrecedenceExamples` | components/parsers.py:15-19 | `1 - 2 - 3` parses as `(1 - 2) - 3` and `1 + 2 * 3` as `1 + (2 * 3)` |
| `Parser.ComparisonExamples` | components/parsers.py:88-98 | `a == b < c` parses as `(a == b) < c` and `a < b < c` as `a < (b < c)` |
| `Parser.StmtRoundTrip` | components/parsers.py:40-60 | every statement of the grammar's shape, spelled out, parses back to itself |
| `Parser.IfRoundTrip` | components/parsers.py:50-56 | `if` with and without `else` parse back to the same if statement, an absent else staying absent |
| `Parser.BlockRoundTrip` | components/parsers.py:50-60 | a spelled block parses back to the same compound statement |
| `Parser.StatementsRoundTrip` | components/parsers.py:31-37 | a spelled statement list parses back to the same list, in source order |
| `Parser.ProgramRoundTrip` | components/parsers.py:24-37 | a spelled program parses back to itself |
| `Parser.ParseStatementShaped` | components/parsers.py:40-60 | every parsed statement has the grammar's shape |
| `Parser.ParseBlockShaped` | components/parsers.py:50-60 | every parsed block is a non-empty compound of such statements |
| `Parser.ParseStatementsShaped` | components/parsers.py:31-37 | every parsed statement list consists of such statements |
| `Parser.ParseThenUnparse` | components/parsers.py:24-28 | a parsed program has the grammar's shape, and spelling it out and parsing again gives the same program |
| `Parser.BooleanAdditionParses` | components/parsers.py:68-73 | `true + 1` parses to an addition, and evaluating it is the boolean-addition error |
| `Memory.Memory.constructor` | components/memory.py:15-16 | a new store is empty |
| `Memory.Memory.Set` | components/memory.py:18-25 | the field becomes the old map with the name's record replaced |
| `Memory.Memory.Get` | components/memory.py:27-29 | the result is the stored value exactly when the name is bound |
| `Memory.Memory.Run` | components/ast/statement.py:13-59 | running a statement on the store produces exactly the output, store and status of `Exec` |
| `Memory.Memory.RunWhile` | components/ast/statement.py:34-37 | the condition-then-body loop produces exactly the outcome of `Exec` on the while statement |
| `Memory.Memory.RunAll` | components/ast/statement.py:46-48 | running the statements in list order produces exactly the outcome of `ExecSeq` |
| `Driver.PushRun` | main.py:41-52 | the lexer diagnostics are those of `Lex`; with no parsed program nothing runs and nothing changes; otherwise the output, store and status are those of running the parsed statements in order |
| `Driver.LexPrintProduct` | components/lexica.py:21-61 | `print(2*3);` lexes, without diagnostics, to the tokens of that one print statement |
| `Driver.RunnableTextIsSpelled` | main.py:45-49 | a text whose tokens parse has tokens that are exactly the spelling of the parsed program, ending in `;` |
| `Driver.PrintProductFromText` | main.py:45-49 | `print(2*3);` parses to one print statement and running it prints 6 |

## Left out

- Ast.Apply: a bool operand is never treated as the int 0 or 1. `+` with a bool operand ends evaluation with a boolean-addition error, where the source prints its message and then adds anyway (`True + 1` gives 2). `-`, `*`, `/`, `<` and `>` with a bool operand are type errors here, and a bool never equals a number (`True == 1` holds in Python).
- Ast.ValuesEqual: a bool equals only a bool, so `True == 1` and `False == 0.0` are false here, where Python compares the bool as the number 1 or 0 and gives true.
- Ast.Arithmetic: a bool operand is a type error, so `True - 1`, `1 * False`, `"ab" * True` and `1 / True` fail here, where Python computes them with the bool as 1 or 0 (and `1 / False` is a zero division).
- Ast.Compare: a bool operand is a type error, so `True < 2` fails here, where Python compares the bool as the number 1 or 0.
- Ast.Exec: every test of a `while` condition costs one unit of `fuel`, and the body runs with one unit less, so a loop that needs `fuel` or more iterations ends with `OutOfFuel` (its final falsy test needs one more unit). A loop that never stops is therefore modelled only up to its budget. `Ast.ExecFuelMonotone` shows that the budget changes nothing else.
- Raised exceptions: an evaluation error is an `Err` value and a failed run a `Failed` status, and the exception message text is not modelled.
- Python's `str()` rendering of printed values: the output is the sequence of printed values.
- IEEE floating point: floats are exact reals.
- Unicode digits: the lexer accepts only ASCII digits and letters, while Python's `\d` also matches other decimal digits.
- SLY's LALR table construction, its error messages and its error recovery: a syntax error makes the whole parse `None`.
- The `expr: expr` action (components/parsers.py:108-116): it is a cycle the grammar never reduces, and it reads `p.expr0`, which a one-symbol rule does not have.
- The `return []` of `program` (components/parsers.py:27-28): a statement list is never empty, so this branch cannot be taken (`Parser.Parse`).
- The unwrapping of an Expression node in `Memory.set` (components/memory.py:20-21): `run` always passes evaluated values, so this branch cannot be taken.
- The callable form of `Expression_number` (components/ast/statement.py:92-96), the test-only `Context` and `VariableManipulation`, and the test functions: number literals hold constants. The countdown test is restated with a variable reference and assignment.
- The singleton decorator and `Memory.__repr__` (components/memory.py:4-10, 32-41): one explicit store object is passed around, and the table rendering is display only.
- The PyQt window, UI loading and stdout redirection of main.py.
- Lexer diagnostics are returned as a sequence, not printed.
