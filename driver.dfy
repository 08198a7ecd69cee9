/** The run button of main.py (`push_run`): lex and parse the whole text, then run each
    statement against the store kept between runs, or report that nothing could be run. */
module Driver {
  import opened Values
  import opened Ast
  import Lexer
  import Parser
  import Memory

  /** `No valid commands to execute.`, or the way the statements' run ended. */
  datatype Report = NoValidCommands | Executed(status: Status)

  /** One press of the run button on `text`. Lexer diagnostics are returned beside the
      values the program printed. A statement that fails stops the run, as the exception
      it raises would. */
  method PushRun(mem: Memory.Memory, text: string, fuel: nat)
    returns (diagnostics: seq<Lexer.Diagnostic>, printed: seq<Value>, report: Report)
    modifies mem
    ensures diagnostics == Lexer.Lex(text).diagnostics
    ensures report == NoValidCommands <==> Parser.Parse(Lexer.Lex(text).tokens).None?
    ensures report == NoValidCommands ==> printed == [] && mem.memory == old(mem.memory)
    ensures report.Executed? ==>
              ExecSeq(Parser.Parse(Lexer.Lex(text).tokens).value, old(mem.memory), fuel)
                == Outcome(mem.memory, printed, report.status)
  {
    var tokens;
    tokens, diagnostics := Lexer.Tokenize(text);
    var program := Parser.Parse(tokens);
    if program.Some? {
      var status;
      printed, status := mem.RunAll(program.value, fuel);
      report := Executed(status);
    } else {
      printed, report := [], NoValidCommands;
    }
  }

  /** A text the run button executes was lexed into exactly the spelling of the program it
      runs, line numbers aside: the parser neither skips nor invents a token, and the text's
      last token is a `;`. */
  lemma RunnableTextIsSpelled(text: string)
    requires Parser.Parse(Lexer.Lex(text).tokens).Some?
    ensures Parser.Canon(Lexer.Lex(text).tokens)
              == Parser.UnparseStatements(Parser.Parse(Lexer.Lex(text).tokens).value)
    ensures var ts := Lexer.Lex(text).tokens; |ts| > 0 && ts[|ts| - 1].kind == Lexer.Kind.Literal(';')
  {
    Lexer.LexWellFormed(text, 0, 1);
    Parser.ParsedIsSpelled(Lexer.Lex(text).tokens);
  }

  /** The text `print(2*3);`. */
  const PrintProduct: string := "print(2*3);"

  /** The tokens of `print(2*3);`. */
  function ProductTokens(): seq<Lexer.Token> {
    [Parser.Keyword(Lexer.Kind.Print, "print"), Parser.Punct('('),
     Lexer.Token(Lexer.Kind.Number, Int(2), 1), Parser.Punct('*'), Lexer.Token(Lexer.Kind.Number, Int(3), 1),
     Parser.Punct(')'), Parser.Punct(';')]
  }

  /** Scanning `3);` from index 8 of `print(2*3);`. */
  lemma LexProductEnd(s: string)
    requires s == PrintProduct
    ensures Lexer.LexFrom(s, 8, 1) == Lexer.Lexed(ProductTokens()[4..], [])
  {
    var t := ProductTokens();
    Lexer.IntNumber(s, 8, 1);
    assert Lexer.DigitsEnd(s, 8) == 9 && s[8..9] == "3" && Lexer.DigitsValue("3") == 3;
    Lexer.PunctuationToken(s, 9, 1);
    Lexer.PunctuationToken(s, 10, 1);
    Lexer.LexFromEmit(s, 10, 1, t[6], 11);
    Lexer.LexFromEmit(s, 9, 1, t[5], 10);
    Lexer.LexFromEmit(s, 8, 1, t[4], 9);
    assert t[4..] == [t[4]] + ([t[5]] + ([t[6]] + []));
  }

  /** Scanning `2*3);` from index 6 of `print(2*3);`. */
  lemma LexProductFactors(s: string)
    requires s == PrintProduct
    ensures Lexer.LexFrom(s, 6, 1) == Lexer.Lexed(ProductTokens()[2..], [])
  {
    var t := ProductTokens();
    LexProductEnd(s);
    Lexer.PunctuationToken(s, 7, 1);
    Lexer.LexFromEmit(s, 7, 1, t[3], 8);
    Lexer.IntNumber(s, 6, 1);
    assert Lexer.DigitsEnd(s, 6) == 7 && s[6..7] == "2" && Lexer.DigitsValue("2") == 2;
    Lexer.LexFromEmit(s, 6, 1, t[2], 7);
    assert t[2..] == [t[2]] + ([t[3]] + t[4..]);
  }

  /** Scanning `(2*3);` from index 5 of `print(2*3);`. */
  lemma LexProductMiddle(s: string)
    requires s == PrintProduct
    ensures Lexer.LexFrom(s, 5, 1) == Lexer.Lexed(ProductTokens()[1..], [])
  {
    var t := ProductTokens();
    LexProductFactors(s);
    Lexer.PunctuationToken(s, 5, 1);
    Lexer.LexFromEmit(s, 5, 1, t[1], 6);
    assert t[1..] == [t[1]] + t[2..];
  }

  /** Scanning all of `print(2*3);`. */
  lemma LexProductStart(s: string)
    requires s == PrintProduct
    ensures Lexer.LexFrom(s, 0, 1) == Lexer.Lexed(ProductTokens(), [])
  {
    var t := ProductTokens();
    assert Lexer.StartsWith(s, 0, "print") by { assert s[0..5] == "print"; }
    Lexer.PrintKeyword(s, 0, 1);
    LexProductMiddle(s);
    Lexer.LexFromEmit(s, 0, 1, t[0], 5);
    assert t == [t[0]] + t[1..];
  }

  /** `print(2*3);` lexes, without diagnostics, to exactly the tokens that spell the
      statement `print(2 * 3)` followed by `;`. */
  lemma LexPrintProduct()
    ensures Lexer.Lex(PrintProduct)
              == Lexer.Lexed(Parser.UnparseStatements([Print(Binary(Times, NumberLit(Int(2)), NumberLit(Int(3))))]), [])
  {
    LexProductStart(PrintProduct);
    SpellPrintProduct(Print(Binary(Times, NumberLit(Int(2)), NumberLit(Int(3)))));
  }

  lemma SpellPrintProduct(p: Stmt)
    requires p == Print(Binary(Times, NumberLit(Int(2)), NumberLit(Int(3))))
    ensures Parser.UnparseStatements([p]) == ProductTokens()
  {
    assert Parser.UnparseStatements([p]) == Parser.UnparseStmt(p) + [Parser.Punct(';')] + Parser.UnparseStatements([]);
  }

  /** From text to output: `print(2*3);` parses to one print statement, and running it on
      an empty store prints 6. */
  lemma PrintProductFromText()
    ensures var program := [Print(Binary(Times, NumberLit(Int(2)), NumberLit(Int(3))))];
            && Parser.Parse(Lexer.Lex(PrintProduct).tokens) == Some(program)
            && ExecSeq(program, map[], 0) == Outcome(map[], [Int(6)], Normal)
  {
    LexPrintProduct();
    RunPrintProduct([Print(Binary(Times, NumberLit(Int(2)), NumberLit(Int(3))))]);
  }

  lemma RunPrintProduct(program: seq<Stmt>)
    requires program == [Print(Binary(Times, NumberLit(Int(2)), NumberLit(Int(3))))]
    ensures Parser.Parse(Parser.UnparseStatements(program)) == Some(program)
    ensures ExecSeq(program, map[], 0) == Outcome(map[], [Int(6)], Normal)
  {
    Parser.ProgramRoundTrip(program);
    ExecSeqSingle(program[0], map[], 0);
    assert Eval(program[0].e, map[]) == Ok(Int(6));
  }
}
