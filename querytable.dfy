/**
 * The parsing table of the query language's test: for each row, the query text, the
 * tokens it reads as, the tree they parse to and the clean form that tree prints as.
 */
module QueryTable {
  import opened Wrappers
  import opened Query

  const GodaCluster := "github.com/" + "pratikiran/" + "goda-cluster"
  const XTools := "golang.org/" + "x/tools/..."
  const Qloc := "github.com/" + "loov/qloc"

  lemma WordOf(a: string, b: string)
    requires IsWord(a) && IsWord(b)
    ensures IsWord(a + b)
  {
  }

  lemma GithubWord()
    ensures IsWord("github.com/")
  {
  }

  lemma GodaClusterWord()
    ensures IsWord(GodaCluster) && GodaCluster[0] == 'g'
  {
    GithubWord();
    assert IsWord("pratikiran/");
    WordOf("github.com/", "pratikiran/");
    assert IsWord("goda-cluster");
    WordOf("github.com/" + "pratikiran/", "goda-cluster");
  }

  lemma XToolsWord()
    ensures IsWord(XTools) && XTools[0] == 'g'
  {
    assert IsWord("golang.org/");
    assert IsWord("x/tools/...");
    WordOf("golang.org/", "x/tools/...");
  }

  lemma QlocWord()
    ensures IsWord(Qloc) && Qloc[0] == 'g'
  {
    GithubWord();
    assert IsWord("loov/qloc");
    WordOf("github.com/", "loov/qloc");
  }

  /** A table row: the input reads as the tokens, which parse to the tree, which prints as the clean form. */
  predicate Row(input: string, tokens: seq<Token>, tree: Expr, clean: string)
  {
    Tokenize(input) == Some(tokens) && ParseTokens(tokens) == Parsed(tree) && Print(tree) == clean
  }

  /** An empty query has no tokens and no expression. */
  lemma RowEmpty()
    ensures Tokenize("") == Some([]) && ParseTokens([]) == Nothing
  {
  }

  /** A package pattern alone reads as one token. */
  lemma PatternAlone(w: string)
    requires IsWord(w) && w[0] != '-'
    ensures Tokenize(w) == Some([Token(TPackage, w)])
  {
    TokenizeBlanks("");
    TokenizeLexeme("", Token(TPackage, w), "", []);
    assert "" + w + "" == w;
    assert [Token(TPackage, w)] + [] == [Token(TPackage, w)];
  }

  /** A function name and its opening parenthesis read as two tokens. */
  lemma CallOpen(f: string)
    requires IsWord(f) && f[0] != '-'
    ensures Tokenize(f + "(") == Some([Token(TFunc, f), LeftParen])
  {
    MarkAlone(LeftParen);
    TokenizeLexeme("", Token(TFunc, f), "(", [LeftParen]);
    assert "" + f + "(" == f + "(";
    assert [Token(TFunc, f)] + [LeftParen] == [Token(TFunc, f), LeftParen];
  }

  /** `:=` and the pattern after it read as two tokens. */
  lemma AssignTo(x: string)
    requires IsWord(x) && x[0] != '-'
    ensures Tokenize(":=" + x) == Some([Token(TAssign, ":="), Token(TPackage, x)])
  {
    PatternAlone(x);
    TokenizeAssign(x, [Token(TPackage, x)]);
    assert [Token(TAssign, ":=")] + [Token(TPackage, x)] == [Token(TAssign, ":="), Token(TPackage, x)];
  }

  /** An operator, parenthesis, comma or semicolon alone reads as one token. */
  lemma MarkAlone(t: Token)
    requires WellSpelled(t) && t.kind in {TOp, TLeftParen, TRightParen, TComma, TSemicolon}
    ensures Tokenize(t.text) == Some([t])
  {
    TokenizeBlanks("");
    TokenizeMark(t, "", []);
    assert t.text + "" == t.text;
    assert [t] + [] == [t];
  }

  /** A selector alone reads as one token. */
  lemma SelectorAlone(x: string)
    requires IsSelectorText(x)
    ensures Tokenize(":" + x) == Some([Token(TSelector, x)])
    ensures x != [] && IsWordChar(x[|x| - 1])
  {
    if x[0] == '+' || x[0] == '-' {
      assert x[1..][|x[1..]| - 1] in x[1..];
    } else {
      assert x[|x| - 1] in x;
    }
    TokenizeBlanks("");
    TokenizeSelected(x, "", []);
    assert ":" + x + "" == ":" + x;
    assert [Token(TSelector, x)] + [] == [Token(TSelector, x)];
  }

  /** Appending `y` to a text that ends in the piece `q`: only the seam between `q` and `y` matters. */
  lemma TokenizeExtend(p: string, q: string, y: string)
    requires q != [] && Seam(q, y) && Tokenize(p + q).Some?
    ensures Tokenize(p + q + y) == Concat(Tokenize(p + q), Tokenize(y))
  {
    assert (p + q)[|p + q| - 1] == q[|q| - 1];
    TokenizeAppend(p + q, y);
  }

  /** A package pattern ending in `/...` is one token and prints unchanged. */
  lemma RowPatternOf(p: string)
    requires IsWord(p) && p[0] != '-'
    ensures Row(p,
                [Token(TPackage, p)],
                PackageRef(p),
                p)
  {
    RowPatternTokens(p);
    RowPatternParse(p);
    RowPatternPrint(p);
  }

  lemma RowPatternTokens(p: string)
    requires IsWord(p) && p[0] != '-'
    ensures Tokenize(p) == Some([Token(TPackage, p)])
  {
    PatternAlone(p);
    assert p[|p| - 1] in p;
  }

  lemma RowPatternParse(p: string)
    ensures ParseTokens([Token(TPackage, p)]) == Parsed(PackageRef(p))
  {
    assert IsOperand(PackageRef(p));
    assert EmitTerm(PackageRef(p)) == [Token(TPackage, p)];
    assert EmitExpression(PackageRef(p)) == EmitTerm(PackageRef(p));
    assert EmitValue(PackageRef(p)) == EmitExpression(PackageRef(p));
    assert EmitStatement(PackageRef(p)) == EmitValue(PackageRef(p));
    assert EmitQuery(PackageRef(p)) == EmitStatement(PackageRef(p));
    assert EmitQuery(PackageRef(p)) == [Token(TPackage, p)];
    ParseRound(PackageRef(p));
  }

  lemma RowPatternPrint(p: string)
    ensures Print(PackageRef(p)) == p
  {
  }

  /** The row as the test writes it, with the query "golang.org/x/tools/...". */
  lemma RowPattern()
    ensures Row(XTools,
                [Token(TPackage, XTools)],
                PackageRef(XTools),
                XTools)
  {
    XToolsWord();
    RowPatternOf(XTools);
  }

  /** Blanks around and between two patterns are dropped; side by side, they print as a parenthesised pair. */
  lemma RowJuxtaposedOf(a: string, b: string)
    requires IsWord(a) && a[0] != '-' && IsWord(b) && b[0] != '-'
    ensures Row("  " + a + "    " + b + "  ",
                [Token(TPackage, a), Token(TPackage, b)],
                Juxtaposed([PackageRef(a), PackageRef(b)]),
                "(" + a + ", " + b + ")")
  {
    RowJuxtaposedTokens(a, b);
    RowJuxtaposedParse(a, b);
    RowJuxtaposedPrint(a, b);
  }

  /** Leading blanks before a pattern are dropped. */
  lemma BlanksThenPattern(a: string)
    requires IsWord(a) && a[0] != '-'
    ensures Tokenize("  " + a) == Some([Token(TPackage, a)])
  {
    assert [] + [Token(TPackage, a)] == [Token(TPackage, a)];
    TokenizeBlanks("  ");
    PatternAlone(a);
    assert a[|a| - 1] in a;
    TokenizeAppend("  ", a);
  }

  lemma RowJuxtaposedTokensUpto3(a: string)
    requires IsWord(a) && a[0] != '-'
    ensures Tokenize("  " + a + "    ") == Some([Token(TPackage, a)])
  {
    assert [Token(TPackage, a)] + [] == [Token(TPackage, a)];
    BlanksThenPattern(a);
    assert a[|a| - 1] in a;
    TokenizeBlanks("    ");
    TokenizeExtend("  ", a, "    ");
  }

  lemma RowJuxtaposedTokensUpto4(a: string, b: string)
    requires IsWord(a) && a[0] != '-' && IsWord(b) && b[0] != '-'
    ensures Tokenize("  " + a + "    " + b) == Some([Token(TPackage, a), Token(TPackage, b)])
  {
    assert [Token(TPackage, a)] + [Token(TPackage, b)] == [Token(TPackage, a), Token(TPackage, b)];
    RowJuxtaposedTokensUpto3(a);
    PatternAlone(b);
    assert b[|b| - 1] in b;
    TokenizeExtend("  " + a, "    ", b);
  }

  lemma RowJuxtaposedTokens(a: string, b: string)
    requires IsWord(a) && a[0] != '-' && IsWord(b) && b[0] != '-'
    ensures Tokenize("  " + a + "    " + b + "  ") == Some([Token(TPackage, a), Token(TPackage, b)])
  {
    assert [Token(TPackage, a), Token(TPackage, b)] + [] == [Token(TPackage, a), Token(TPackage, b)];
    RowJuxtaposedTokensUpto4(a, b);
    assert b[|b| - 1] in b;
    TokenizeBlanks("  ");
    TokenizeExtend("  " + a + "    ", b, "  ");
  }

  lemma RowJuxtaposedParse(a: string, b: string)
    ensures ParseTokens([Token(TPackage, a), Token(TPackage, b)]) == Parsed(Juxtaposed([PackageRef(a), PackageRef(b)]))
  {
    assert IsOperand(PackageRef(a));
    assert IsOperand(PackageRef(b));
    assert IsValue(Juxtaposed([PackageRef(a), PackageRef(b)]));
    assert EmitTerm(PackageRef(a)) == [Token(TPackage, a)];
    assert EmitExpression(PackageRef(a)) == EmitTerm(PackageRef(a));
    assert EmitTerm(PackageRef(b)) == [Token(TPackage, b)];
    assert EmitExpression(PackageRef(b)) == EmitTerm(PackageRef(b));
    assert EmitItems([]) == [];
    assert [PackageRef(b)][1..] == [];
    assert EmitItems([PackageRef(b)]) == EmitExpression(PackageRef(b)) + EmitItems([]);
    assert [PackageRef(a), PackageRef(b)][1..] == [PackageRef(b)];
    assert EmitItems([PackageRef(a), PackageRef(b)]) == EmitExpression(PackageRef(a)) + EmitItems([PackageRef(b)]);
    assert EmitValue(Juxtaposed([PackageRef(a), PackageRef(b)])) == EmitItems([PackageRef(a), PackageRef(b)]);
    assert EmitStatement(Juxtaposed([PackageRef(a), PackageRef(b)])) == EmitValue(Juxtaposed([PackageRef(a), PackageRef(b)]));
    assert EmitQuery(Juxtaposed([PackageRef(a), PackageRef(b)])) == EmitStatement(Juxtaposed([PackageRef(a), PackageRef(b)]));
    assert EmitQuery(Juxtaposed([PackageRef(a), PackageRef(b)])) == ([Token(TPackage, a)]) + (([Token(TPackage, b)]) + ([]));
    assert ([Token(TPackage, a)]) + (([Token(TPackage, b)]) + ([])) == [Token(TPackage, a), Token(TPackage, b)];
    ParseRound(Juxtaposed([PackageRef(a), PackageRef(b)]));
  }

  lemma RowJuxtaposedPrint(a: string, b: string)
    ensures Print(Juxtaposed([PackageRef(a), PackageRef(b)])) == "(" + a + ", " + b + ")"
  {
    assert Print(PackageRef(a)) == a;
    assert Print(PackageRef(b)) == b;
    assert PrintList([PackageRef(b)], ", ") == Print(PackageRef(b));
    assert [PackageRef(a), PackageRef(b)][1..] == [PackageRef(b)];
    assert PrintList([PackageRef(a), PackageRef(b)], ", ") == Print(PackageRef(a)) + ", " + PrintList([PackageRef(b)], ", ");
    assert Print(Juxtaposed([PackageRef(a), PackageRef(b)])) == "(" + PrintList([PackageRef(a), PackageRef(b)], ", ") + ")";
    assert "(" + ((a) + ", " + (b)) + ")" == "(" + a + ", " + b + ")";
  }

  /** The row as the test writes it, with the query "  github.com/pratikiran/goda-cluster    golang.org/x/tools/...  ". */
  lemma RowJuxtaposed()
    ensures Row("  " + GodaCluster + "    " + XTools + "  ",
                [Token(TPackage, GodaCluster), Token(TPackage, XTools)],
                Juxtaposed([PackageRef(GodaCluster), PackageRef(XTools)]),
                "(" + GodaCluster + ", " + XTools + ")")
  {
    GodaClusterWord();
    XToolsWord();
    RowJuxtaposedOf(GodaCluster, XTools);
  }

  /** An operator between two patterns is a token of its own and prints in prefix form. */
  lemma RowOperationOf(a: string, b: string)
    requires IsWord(a) && a[0] != '-' && IsWord(b) && b[0] != '-'
    ensures Row("  " + a + "  " + "+" + "  " + b + "  ",
                [Token(TPackage, a), Token(TOp, "+"), Token(TPackage, b)],
                Binary("+", PackageRef(a), PackageRef(b)),
                "+(" + a + ", " + b + ")")
  {
    RowOperationTokens(a, b);
    RowOperationParse(a, b);
    RowOperationPrint(a, b);
  }

  lemma RowOperationTokensUpto3(a: string)
    requires IsWord(a) && a[0] != '-'
    ensures Tokenize("  " + a + "  ") == Some([Token(TPackage, a)])
  {
    assert [Token(TPackage, a)] + [] == [Token(TPackage, a)];
    BlanksThenPattern(a);
    assert a[|a| - 1] in a;
    TokenizeBlanks("  ");
    TokenizeExtend("  ", a, "  ");
  }

  lemma RowOperationTokensUpto4(a: string)
    requires IsWord(a) && a[0] != '-'
    ensures Tokenize("  " + a + "  " + "+") == Some([Token(TPackage, a), Token(TOp, "+")])
  {
    assert [Token(TPackage, a)] + [Token(TOp, "+")] == [Token(TPackage, a), Token(TOp, "+")];
    RowOperationTokensUpto3(a);
    MarkAlone(Token(TOp, "+"));
    TokenizeExtend("  " + a, "  ", "+");
  }

  lemma RowOperationTokensUpto5(a: string)
    requires IsWord(a) && a[0] != '-'
    ensures Tokenize("  " + a + "  " + "+" + "  ") == Some([Token(TPackage, a), Token(TOp, "+")])
  {
    assert [Token(TPackage, a), Token(TOp, "+")] + [] == [Token(TPackage, a), Token(TOp, "+")];
    RowOperationTokensUpto4(a);
    TokenizeBlanks("  ");
    TokenizeExtend("  " + a + "  ", "+", "  ");
  }

  lemma RowOperationTokensUpto6(a: string, b: string)
    requires IsWord(a) && a[0] != '-' && IsWord(b) && b[0] != '-'
    ensures Tokenize("  " + a + "  " + "+" + "  " + b) == Some([Token(TPackage, a), Token(TOp, "+"), Token(TPackage, b)])
  {
    assert [Token(TPackage, a), Token(TOp, "+")] + [Token(TPackage, b)] == [Token(TPackage, a), Token(TOp, "+"), Token(TPackage, b)];
    RowOperationTokensUpto5(a);
    PatternAlone(b);
    assert b[|b| - 1] in b;
    TokenizeExtend("  " + a + "  " + "+", "  ", b);
  }

  lemma RowOperationTokens(a: string, b: string)
    requires IsWord(a) && a[0] != '-' && IsWord(b) && b[0] != '-'
    ensures Tokenize("  " + a + "  " + "+" + "  " + b + "  ") == Some([Token(TPackage, a), Token(TOp, "+"), Token(TPackage, b)])
  {
    assert [Token(TPackage, a), Token(TOp, "+"), Token(TPackage, b)] + [] == [Token(TPackage, a), Token(TOp, "+"), Token(TPackage, b)];
    RowOperationTokensUpto6(a, b);
    assert b[|b| - 1] in b;
    TokenizeBlanks("  ");
    TokenizeExtend("  " + a + "  " + "+" + "  ", b, "  ");
  }

  lemma RowOperationParse(a: string, b: string)
    ensures ParseTokens([Token(TPackage, a), Token(TOp, "+"), Token(TPackage, b)]) == Parsed(Binary("+", PackageRef(a), PackageRef(b)))
  {
    assert IsOperand(PackageRef(a));
    assert IsOperand(PackageRef(b));
    assert IsOperand(Binary("+", PackageRef(a), PackageRef(b)));
    assert EmitTerm(PackageRef(a)) == [Token(TPackage, a)];
    assert EmitExpression(PackageRef(a)) == EmitTerm(PackageRef(a));
    assert EmitTerm(PackageRef(b)) == [Token(TPackage, b)];
    assert EmitExpression(Binary("+", PackageRef(a), PackageRef(b))) == EmitExpression(PackageRef(a)) + [Token(TOp, "+")] + EmitTerm(PackageRef(b));
    assert EmitValue(Binary("+", PackageRef(a), PackageRef(b))) == EmitExpression(Binary("+", PackageRef(a), PackageRef(b)));
    assert EmitStatement(Binary("+", PackageRef(a), PackageRef(b))) == EmitValue(Binary("+", PackageRef(a), PackageRef(b)));
    assert EmitQuery(Binary("+", PackageRef(a), PackageRef(b))) == EmitStatement(Binary("+", PackageRef(a), PackageRef(b)));
    assert EmitQuery(Binary("+", PackageRef(a), PackageRef(b))) == ([Token(TPackage, a)]) + [Token(TOp, "+")] + ([Token(TPackage, b)]);
    assert ([Token(TPackage, a)]) + [Token(TOp, "+")] + ([Token(TPackage, b)]) == [Token(TPackage, a), Token(TOp, "+"), Token(TPackage, b)];
    ParseRound(Binary("+", PackageRef(a), PackageRef(b)));
  }

  lemma RowOperationPrint(a: string, b: string)
    ensures Print(Binary("+", PackageRef(a), PackageRef(b))) == "+(" + a + ", " + b + ")"
  {
    assert Print(PackageRef(a)) == a;
    assert Print(PackageRef(b)) == b;
    assert Print(Binary("+", PackageRef(a), PackageRef(b))) == "+" + "(" + Print(PackageRef(a)) + ", " + Print(PackageRef(b)) + ")";
    assert "+" + "(" + (a) + ", " + (b) + ")" == "+(" + a + ", " + b + ")";
  }

  /** The row as the test writes it, with the query "  github.com/pratikiran/goda-cluster  +  golang.org/x/tools/...  ". */
  lemma RowOperation()
    ensures Row("  " + GodaCluster + "  " + "+" + "  " + XTools + "  ",
                [Token(TPackage, GodaCluster), Token(TOp, "+"), Token(TPackage, XTools)],
                Binary("+", PackageRef(GodaCluster), PackageRef(XTools)),
                "+(" + GodaCluster + ", " + XTools + ")")
  {
    GodaClusterWord();
    XToolsWord();
    RowOperationOf(GodaCluster, XTools);
  }

  /** Explicit parentheses around a right operand survive as nesting. */
  lemma RowNestedOf(a: string, b: string, s: string)
    requires IsWord(a) && a[0] != '-' && IsWord(b) && b[0] != '-' && IsSelectorText(s)
    ensures Row(a + " " + "-" + " " + "(" + a + " " + "-" + " " + b + (":" + s) + ")",
                [Token(TPackage, a), Token(TOp, "-"), LeftParen, Token(TPackage, a), Token(TOp, "-"), Token(TPackage, b), Token(TSelector, s), RightParen],
                Binary("-", PackageRef(a), Binary("-", PackageRef(a), Selected(PackageRef(b), s))),
                "-(" + a + ", -(" + a + ", " + b + ":" + s + "))")
  {
    RowNestedTokens(a, b, s);
    RowNestedParse(a, b, s);
    RowNestedPrint(a, b, s);
  }

  lemma RowNestedTokensUpto2(a: string)
    requires IsWord(a) && a[0] != '-'
    ensures Tokenize(a + " ") == Some([Token(TPackage, a)])
  {
    assert [Token(TPackage, a)] + [] == [Token(TPackage, a)];
    RowPatternTokens(a);
    assert a[|a| - 1] in a;
    TokenizeBlanks(" ");
    TokenizeAppend(a, " ");
  }

  lemma RowNestedTokensUpto3(a: string)
    requires IsWord(a) && a[0] != '-'
    ensures Tokenize(a + " " + "-") == Some([Token(TPackage, a), Token(TOp, "-")])
  {
    assert [Token(TPackage, a)] + [Token(TOp, "-")] == [Token(TPackage, a), Token(TOp, "-")];
    RowNestedTokensUpto2(a);
    MarkAlone(Token(TOp, "-"));
    TokenizeExtend(a, " ", "-");
  }

  lemma RowNestedTokensUpto4(a: string)
    requires IsWord(a) && a[0] != '-'
    ensures Tokenize(a + " " + "-" + " ") == Some([Token(TPackage, a), Token(TOp, "-")])
  {
    assert [Token(TPackage, a), Token(TOp, "-")] + [] == [Token(TPackage, a), Token(TOp, "-")];
    RowNestedTokensUpto3(a);
    TokenizeBlanks(" ");
    TokenizeExtend(a + " ", "-", " ");
  }

  lemma RowNestedTokensUpto5(a: string)
    requires IsWord(a) && a[0] != '-'
    ensures Tokenize(a + " " + "-" + " " + "(") == Some([Token(TPackage, a), Token(TOp, "-"), LeftParen])
  {
    assert [Token(TPackage, a), Token(TOp, "-")] + [LeftParen] == [Token(TPackage, a), Token(TOp, "-"), LeftParen];
    RowNestedTokensUpto4(a);
    MarkAlone(LeftParen);
    TokenizeExtend(a + " " + "-", " ", "(");
  }

  lemma RowNestedTokensUpto6(a: string)
    requires IsWord(a) && a[0] != '-'
    ensures Tokenize(a + " " + "-" + " " + "(" + a) == Some([Token(TPackage, a), Token(TOp, "-"), LeftParen, Token(TPackage, a)])
  {
    assert [Token(TPackage, a), Token(TOp, "-"), LeftParen] + [Token(TPackage, a)] == [Token(TPackage, a), Token(TOp, "-"), LeftParen, Token(TPackage, a)];
    RowNestedTokensUpto5(a);
    PatternAlone(a);
    assert a[|a| - 1] in a;
    TokenizeExtend(a + " " + "-" + " ", "(", a);
  }

  lemma RowNestedTokensUpto7(a: string)
    requires IsWord(a) && a[0] != '-'
    ensures Tokenize(a + " " + "-" + " " + "(" + a + " ") == Some([Token(TPackage, a), Token(TOp, "-"), LeftParen, Token(TPackage, a)])
  {
    assert [Token(TPackage, a), Token(TOp, "-"), LeftParen, Token(TPackage, a)] + [] == [Token(TPackage, a), Token(TOp, "-"), LeftParen, Token(TPackage, a)];
    RowNestedTokensUpto6(a);
    assert a[|a| - 1] in a;
    TokenizeBlanks(" ");
    TokenizeExtend(a + " " + "-" + " " + "(", a, " ");
  }

  lemma RowNestedTokensUpto8(a: string)
    requires IsWord(a) && a[0] != '-'
    ensures Tokenize(a + " " + "-" + " " + "(" + a + " " + "-") == Some([Token(TPackage, a), Token(TOp, "-"), LeftParen, Token(TPackage, a), Token(TOp, "-")])
  {
    assert [Token(TPackage, a), Token(TOp, "-"), LeftParen, Token(TPackage, a)] + [Token(TOp, "-")] == [Token(TPackage, a), Token(TOp, "-"), LeftParen, Token(TPackage, a), Token(TOp, "-")];
    RowNestedTokensUpto7(a);
    MarkAlone(Token(TOp, "-"));
    TokenizeExtend(a + " " + "-" + " " + "(" + a, " ", "-");
  }

  lemma RowNestedTokensUpto9(a: string)
    requires IsWord(a) && a[0] != '-'
    ensures Tokenize(a + " " + "-" + " " + "(" + a + " " + "-" + " ") == Some([Token(TPackage, a), Token(TOp, "-"), LeftParen, Token(TPackage, a), Token(TOp, "-")])
  {
    assert [Token(TPackage, a), Token(TOp, "-"), LeftParen, Token(TPackage, a), Token(TOp, "-")] + [] == [Token(TPackage, a), Token(TOp, "-"), LeftParen, Token(TPackage, a), Token(TOp, "-")];
    RowNestedTokensUpto8(a);
    TokenizeBlanks(" ");
    TokenizeExtend(a + " " + "-" + " " + "(" + a + " ", "-", " ");
  }

  lemma RowNestedTokensUpto10(a: string, b: string)
    requires IsWord(a) && a[0] != '-' && IsWord(b) && b[0] != '-'
    ensures Tokenize(a + " " + "-" + " " + "(" + a + " " + "-" + " " + b) == Some([Token(TPackage, a), Token(TOp, "-"), LeftParen, Token(TPackage, a), Token(TOp, "-"), Token(TPackage, b)])
  {
    assert [Token(TPackage, a), Token(TOp, "-"), LeftParen, Token(TPackage, a), Token(TOp, "-")] + [Token(TPackage, b)] == [Token(TPackage, a), Token(TOp, "-"), LeftParen, Token(TPackage, a), Token(TOp, "-"), Token(TPackage, b)];
    RowNestedTokensUpto9(a);
    PatternAlone(b);
    assert b[|b| - 1] in b;
    TokenizeExtend(a + " " + "-" + " " + "(" + a + " " + "-", " ", b);
  }

  lemma RowNestedTokensUpto11(a: string, b: string, s: string)
    requires IsWord(a) && a[0] != '-' && IsWord(b) && b[0] != '-' && IsSelectorText(s)
    ensures Tokenize(a + " " + "-" + " " + "(" + a + " " + "-" + " " + b + (":" + s)) == Some([Token(TPackage, a), Token(TOp, "-"), LeftParen, Token(TPackage, a), Token(TOp, "-"), Token(TPackage, b), Token(TSelector, s)])
  {
    assert [Token(TPackage, a), Token(TOp, "-"), LeftParen, Token(TPackage, a), Token(TOp, "-"), Token(TPackage, b)] + [Token(TSelector, s)] == [Token(TPackage, a), Token(TOp, "-"), LeftParen, Token(TPackage, a), Token(TOp, "-"), Token(TPackage, b), Token(TSelector, s)];
    RowNestedTokensUpto10(a, b);
    assert b[|b| - 1] in b;
    SelectorAlone(s);
    TokenizeExtend(a + " " + "-" + " " + "(" + a + " " + "-" + " ", b, (":" + s));
  }

  lemma RowNestedTokens(a: string, b: string, s: string)
    requires IsWord(a) && a[0] != '-' && IsWord(b) && b[0] != '-' && IsSelectorText(s)
    ensures Tokenize(a + " " + "-" + " " + "(" + a + " " + "-" + " " + b + (":" + s) + ")") == Some([Token(TPackage, a), Token(TOp, "-"), LeftParen, Token(TPackage, a), Token(TOp, "-"), Token(TPackage, b), Token(TSelector, s), RightParen])
  {
    assert [Token(TPackage, a), Token(TOp, "-"), LeftParen, Token(TPackage, a), Token(TOp, "-"), Token(TPackage, b), Token(TSelector, s)] + [RightParen] == [Token(TPackage, a), Token(TOp, "-"), LeftParen, Token(TPackage, a), Token(TOp, "-"), Token(TPackage, b), Token(TSelector, s), RightParen];
    RowNestedTokensUpto11(a, b, s);
    SelectorAlone(s);
    MarkAlone(RightParen);
    TokenizeExtend(a + " " + "-" + " " + "(" + a + " " + "-" + " " + b, (":" + s), ")");
  }

  lemma RowNestedParse(a: string, b: string, s: string)
    ensures ParseTokens([Token(TPackage, a), Token(TOp, "-"), LeftParen, Token(TPackage, a), Token(TOp, "-"), Token(TPackage, b), Token(TSelector, s), RightParen]) == Parsed(Binary("-", PackageRef(a), Binary("-", PackageRef(a), Selected(PackageRef(b), s))))
  {
    assert IsOperand(PackageRef(a));
    assert IsOperand(PackageRef(b));
    assert IsOperand(Selected(PackageRef(b), s));
    assert IsOperand(Binary("-", PackageRef(a), Selected(PackageRef(b), s)));
    assert IsOperand(Binary("-", PackageRef(a), Binary("-", PackageRef(a), Selected(PackageRef(b), s))));
    assert EmitTerm(PackageRef(a)) == [Token(TPackage, a)];
    assert EmitExpression(PackageRef(a)) == EmitTerm(PackageRef(a));
    assert EmitTerm(PackageRef(b)) == [Token(TPackage, b)];
    assert EmitTerm(Selected(PackageRef(b), s)) == EmitTerm(PackageRef(b)) + [Token(TSelector, s)];
    assert EmitTerm(Binary("-", PackageRef(a), Selected(PackageRef(b), s))) == [LeftParen] + EmitExpression(PackageRef(a)) + [Token(TOp, "-")] + EmitTerm(Selected(PackageRef(b), s)) + [RightParen];
    assert EmitExpression(Binary("-", PackageRef(a), Binary("-", PackageRef(a), Selected(PackageRef(b), s)))) == EmitExpression(PackageRef(a)) + [Token(TOp, "-")] + EmitTerm(Binary("-", PackageRef(a), Selected(PackageRef(b), s)));
    assert EmitValue(Binary("-", PackageRef(a), Binary("-", PackageRef(a), Selected(PackageRef(b), s)))) == EmitExpression(Binary("-", PackageRef(a), Binary("-", PackageRef(a), Selected(PackageRef(b), s))));
    assert EmitStatement(Binary("-", PackageRef(a), Binary("-", PackageRef(a), Selected(PackageRef(b), s)))) == EmitValue(Binary("-", PackageRef(a), Binary("-", PackageRef(a), Selected(PackageRef(b), s))));
    assert EmitQuery(Binary("-", PackageRef(a), Binary("-", PackageRef(a), Selected(PackageRef(b), s)))) == EmitStatement(Binary("-", PackageRef(a), Binary("-", PackageRef(a), Selected(PackageRef(b), s))));
    assert EmitQuery(Binary("-", PackageRef(a), Binary("-", PackageRef(a), Selected(PackageRef(b), s)))) == ([Token(TPackage, a)]) + [Token(TOp, "-")] + ([LeftParen] + ([Token(TPackage, a)]) + [Token(TOp, "-")] + (([Token(TPackage, b)]) + [Token(TSelector, s)]) + [RightParen]);
    assert ([Token(TPackage, a)]) + [Token(TOp, "-")] + ([LeftParen] + ([Token(TPackage, a)]) + [Token(TOp, "-")] + (([Token(TPackage, b)]) + [Token(TSelector, s)]) + [RightParen]) == [Token(TPackage, a), Token(TOp, "-"), LeftParen, Token(TPackage, a), Token(TOp, "-"), Token(TPackage, b), Token(TSelector, s), RightParen];
    ParseRound(Binary("-", PackageRef(a), Binary("-", PackageRef(a), Selected(PackageRef(b), s))));
  }

  lemma RowNestedPrint(a: string, b: string, s: string)
    ensures Print(Binary("-", PackageRef(a), Binary("-", PackageRef(a), Selected(PackageRef(b), s)))) == "-(" + a + ", -(" + a + ", " + b + ":" + s + "))"
  {
    assert Print(PackageRef(a)) == a;
    assert Print(PackageRef(b)) == b;
    assert Print(Selected(PackageRef(b), s)) == Print(PackageRef(b)) + ":" + s;
    assert Print(Binary("-", PackageRef(a), Selected(PackageRef(b), s))) == "-" + "(" + Print(PackageRef(a)) + ", " + Print(Selected(PackageRef(b), s)) + ")";
    assert Print(Binary("-", PackageRef(a), Binary("-", PackageRef(a), Selected(PackageRef(b), s)))) == "-" + "(" + Print(PackageRef(a)) + ", " + Print(Binary("-", PackageRef(a), Selected(PackageRef(b), s))) + ")";
    assert "-" + "(" + (a) + ", " + ("-" + "(" + (a) + ", " + ((b) + ":" + s) + ")") + ")" == "-(" + a + ", -(" + a + ", " + b + ":" + s + "))";
  }

  /** The row as the test writes it, with the query "std - (std - unsafe:all)". */
  lemma RowNested()
    ensures Row("std" + " " + "-" + " " + "(" + "std" + " " + "-" + " " + "unsafe" + (":" + "all") + ")",
                [Token(TPackage, "std"), Token(TOp, "-"), LeftParen, Token(TPackage, "std"), Token(TOp, "-"), Token(TPackage, "unsafe"), Token(TSelector, "all"), RightParen],
                Binary("-", PackageRef("std"), Binary("-", PackageRef("std"), Selected(PackageRef("unsafe"), "all"))),
                "-(" + "std" + ", -(" + "std" + ", " + "unsafe" + ":" + "all" + "))")
  {
    assert IsSelectorText("all");
    RowNestedOf("std", "unsafe", "all");
  }

  /** A selector binds to the pattern just before it, not to the operation. */
  lemma RowSelectorBindsOf(a: string, b: string, s: string)
    requires IsWord(a) && a[0] != '-' && IsWord(b) && b[0] != '-' && IsSelectorText(s)
    ensures Row("  " + a + (":" + s) + " " + "-" + " " + b + "  ",
                [Token(TPackage, a), Token(TSelector, s), Token(TOp, "-"), Token(TPackage, b)],
                Binary("-", Selected(PackageRef(a), s), PackageRef(b)),
                "-(" + a + ":" + s + ", " + b + ")")
  {
    RowSelectorBindsTokens(a, b, s);
    RowSelectorBindsParse(a, b, s);
    RowSelectorBindsPrint(a, b, s);
  }

  lemma RowSelectorBindsTokensUpto3(a: string, s: string)
    requires IsWord(a) && a[0] != '-' && IsSelectorText(s)
    ensures Tokenize("  " + a + (":" + s)) == Some([Token(TPackage, a), Token(TSelector, s)])
  {
    assert [Token(TPackage, a)] + [Token(TSelector, s)] == [Token(TPackage, a), Token(TSelector, s)];
    BlanksThenPattern(a);
    assert a[|a| - 1] in a;
    SelectorAlone(s);
    TokenizeExtend("  ", a, (":" + s));
  }

  lemma RowSelectorBindsTokensUpto4(a: string, s: string)
    requires IsWord(a) && a[0] != '-' && IsSelectorText(s)
    ensures Tokenize("  " + a + (":" + s) + " ") == Some([Token(TPackage, a), Token(TSelector, s)])
  {
    assert [Token(TPackage, a), Token(TSelector, s)] + [] == [Token(TPackage, a), Token(TSelector, s)];
    RowSelectorBindsTokensUpto3(a, s);
    SelectorAlone(s);
    TokenizeBlanks(" ");
    TokenizeExtend("  " + a, (":" + s), " ");
  }

  lemma RowSelectorBindsTokensUpto5(a: string, s: string)
    requires IsWord(a) && a[0] != '-' && IsSelectorText(s)
    ensures Tokenize("  " + a + (":" + s) + " " + "-") == Some([Token(TPackage, a), Token(TSelector, s), Token(TOp, "-")])
  {
    assert [Token(TPackage, a), Token(TSelector, s)] + [Token(TOp, "-")] == [Token(TPackage, a), Token(TSelector, s), Token(TOp, "-")];
    RowSelectorBindsTokensUpto4(a, s);
    MarkAlone(Token(TOp, "-"));
    TokenizeExtend("  " + a + (":" + s), " ", "-");
  }

  lemma RowSelectorBindsTokensUpto6(a: string, s: string)
    requires IsWord(a) && a[0] != '-' && IsSelectorText(s)
    ensures Tokenize("  " + a + (":" + s) + " " + "-" + " ") == Some([Token(TPackage, a), Token(TSelector, s), Token(TOp, "-")])
  {
    assert [Token(TPackage, a), Token(TSelector, s), Token(TOp, "-")] + [] == [Token(TPackage, a), Token(TSelector, s), Token(TOp, "-")];
    RowSelectorBindsTokensUpto5(a, s);
    TokenizeBlanks(" ");
    TokenizeExtend("  " + a + (":" + s) + " ", "-", " ");
  }

  lemma RowSelectorBindsTokensUpto7(a: string, b: string, s: string)
    requires IsWord(a) && a[0] != '-' && IsWord(b) && b[0] != '-' && IsSelectorText(s)
    ensures Tokenize("  " + a + (":" + s) + " " + "-" + " " + b) == Some([Token(TPackage, a), Token(TSelector, s), Token(TOp, "-"), Token(TPackage, b)])
  {
    assert [Token(TPackage, a), Token(TSelector, s), Token(TOp, "-")] + [Token(TPackage, b)] == [Token(TPackage, a), Token(TSelector, s), Token(TOp, "-"), Token(TPackage, b)];
    RowSelectorBindsTokensUpto6(a, s);
    PatternAlone(b);
    assert b[|b| - 1] in b;
    TokenizeExtend("  " + a + (":" + s) + " " + "-", " ", b);
  }

  lemma RowSelectorBindsTokens(a: string, b: string, s: string)
    requires IsWord(a) && a[0] != '-' && IsWord(b) && b[0] != '-' && IsSelectorText(s)
    ensures Tokenize("  " + a + (":" + s) + " " + "-" + " " + b + "  ") == Some([Token(TPackage, a), Token(TSelector, s), Token(TOp, "-"), Token(TPackage, b)])
  {
    assert [Token(TPackage, a), Token(TSelector, s), Token(TOp, "-"), Token(TPackage, b)] + [] == [Token(TPackage, a), Token(TSelector, s), Token(TOp, "-"), Token(TPackage, b)];
    RowSelectorBindsTokensUpto7(a, b, s);
    assert b[|b| - 1] in b;
    TokenizeBlanks("  ");
    TokenizeExtend("  " + a + (":" + s) + " " + "-" + " ", b, "  ");
  }

  lemma RowSelectorBindsParse(a: string, b: string, s: string)
    ensures ParseTokens([Token(TPackage, a), Token(TSelector, s), Token(TOp, "-"), Token(TPackage, b)]) == Parsed(Binary("-", Selected(PackageRef(a), s), PackageRef(b)))
  {
    assert IsOperand(PackageRef(a));
    assert IsOperand(Selected(PackageRef(a), s));
    assert IsOperand(PackageRef(b));
    assert IsOperand(Binary("-", Selected(PackageRef(a), s), PackageRef(b)));
    assert EmitTerm(PackageRef(a)) == [Token(TPackage, a)];
    assert EmitTerm(Selected(PackageRef(a), s)) == EmitTerm(PackageRef(a)) + [Token(TSelector, s)];
    assert EmitExpression(Selected(PackageRef(a), s)) == EmitTerm(Selected(PackageRef(a), s));
    assert EmitTerm(PackageRef(b)) == [Token(TPackage, b)];
    assert EmitExpression(Binary("-", Selected(PackageRef(a), s), PackageRef(b))) == EmitExpression(Selected(PackageRef(a), s)) + [Token(TOp, "-")] + EmitTerm(PackageRef(b));
    assert EmitValue(Binary("-", Selected(PackageRef(a), s), PackageRef(b))) == EmitExpression(Binary("-", Selected(PackageRef(a), s), PackageRef(b)));
    assert EmitStatement(Binary("-", Selected(PackageRef(a), s), PackageRef(b))) == EmitValue(Binary("-", Selected(PackageRef(a), s), PackageRef(b)));
    assert EmitQuery(Binary("-", Selected(PackageRef(a), s), PackageRef(b))) == EmitStatement(Binary("-", Selected(PackageRef(a), s), PackageRef(b)));
    assert EmitQuery(Binary("-", Selected(PackageRef(a), s), PackageRef(b))) == (([Token(TPackage, a)]) + [Token(TSelector, s)]) + [Token(TOp, "-")] + ([Token(TPackage, b)]);
    assert (([Token(TPackage, a)]) + [Token(TSelector, s)]) + [Token(TOp, "-")] + ([Token(TPackage, b)]) == [Token(TPackage, a), Token(TSelector, s), Token(TOp, "-"), Token(TPackage, b)];
    ParseRound(Binary("-", Selected(PackageRef(a), s), PackageRef(b)));
  }

  lemma RowSelectorBindsPrint(a: string, b: string, s: string)
    ensures Print(Binary("-", Selected(PackageRef(a), s), PackageRef(b))) == "-(" + a + ":" + s + ", " + b + ")"
  {
    assert Print(PackageRef(a)) == a;
    assert Print(Selected(PackageRef(a), s)) == Print(PackageRef(a)) + ":" + s;
    assert Print(PackageRef(b)) == b;
    assert Print(Binary("-", Selected(PackageRef(a), s), PackageRef(b))) == "-" + "(" + Print(Selected(PackageRef(a), s)) + ", " + Print(PackageRef(b)) + ")";
    assert "-" + "(" + ((a) + ":" + s) + ", " + (b) + ")" == "-(" + a + ":" + s + ", " + b + ")";
  }

  /** The row as the test writes it, with the query "  github.com/pratikiran/goda-cluster:all - golang.org/x/tools/...  ". */
  lemma RowSelectorBinds()
    ensures Row("  " + GodaCluster + (":" + "all") + " " + "-" + " " + XTools + "  ",
                [Token(TPackage, GodaCluster), Token(TSelector, "all"), Token(TOp, "-"), Token(TPackage, XTools)],
                Binary("-", Selected(PackageRef(GodaCluster), "all"), PackageRef(XTools)),
                "-(" + GodaCluster + ":" + "all" + ", " + XTools + ")")
  {
    GodaClusterWord();
    XToolsWord();
    assert IsSelectorText("all");
    RowSelectorBindsOf(GodaCluster, XTools, "all");
  }

  /** A function call takes whole expressions as arguments, separated by commas. */
  lemma RowCallOf(f: string, a: string, b: string, c: string, s: string)
    requires IsWord(f) && f[0] != '-' && IsWord(a) && a[0] != '-' && IsWord(b) && b[0] != '-' && IsWord(c) && c[0] != '-' && IsSelectorText(s)
    ensures Row(f + "(" + a + " " + "+" + "   " + b + "," + " " + c + (":" + s) + ")",
                [Token(TFunc, f), LeftParen, Token(TPackage, a), Token(TOp, "+"), Token(TPackage, b), Token(TComma, ","), Token(TPackage, c), Token(TSelector, s), RightParen],
                Call(f, [Binary("+", PackageRef(a), PackageRef(b)), Selected(PackageRef(c), s)]),
                f + "(+(" + a + ", " + b + "), " + c + ":" + s + ")")
  {
    RowCallTokens(f, a, b, c, s);
    RowCallParse(f, a, b, c, s);
    RowCallPrint(f, a, b, c, s);
  }

  /** A function name followed by `(` is a function token and a left parenthesis. */
  lemma FunctionThenParen(f: string)
    requires IsWord(f) && f[0] != '-'
    ensures Tokenize(f + "(") == Some([Token(TFunc, f), LeftParen])
  {
    CallOpen(f);
  }

  lemma RowCallTokensUpto2(f: string, a: string)
    requires IsWord(f) && f[0] != '-' && IsWord(a) && a[0] != '-'
    ensures Tokenize(f + "(" + a) == Some([Token(TFunc, f), LeftParen, Token(TPackage, a)])
  {
    assert [Token(TFunc, f), LeftParen] + [Token(TPackage, a)] == [Token(TFunc, f), LeftParen, Token(TPackage, a)];
    FunctionThenParen(f);
    PatternAlone(a);
    assert a[|a| - 1] in a;
    TokenizeAppend(f + "(", a);
  }

  lemma RowCallTokensUpto3(f: string, a: string)
    requires IsWord(f) && f[0] != '-' && IsWord(a) && a[0] != '-'
    ensures Tokenize(f + "(" + a + " ") == Some([Token(TFunc, f), LeftParen, Token(TPackage, a)])
  {
    assert [Token(TFunc, f), LeftParen, Token(TPackage, a)] + [] == [Token(TFunc, f), LeftParen, Token(TPackage, a)];
    RowCallTokensUpto2(f, a);
    assert a[|a| - 1] in a;
    TokenizeBlanks(" ");
    TokenizeExtend(f + "(", a, " ");
  }

  lemma RowCallTokensUpto4(f: string, a: string)
    requires IsWord(f) && f[0] != '-' && IsWord(a) && a[0] != '-'
    ensures Tokenize(f + "(" + a + " " + "+") == Some([Token(TFunc, f), LeftParen, Token(TPackage, a), Token(TOp, "+")])
  {
    assert [Token(TFunc, f), LeftParen, Token(TPackage, a)] + [Token(TOp, "+")] == [Token(TFunc, f), LeftParen, Token(TPackage, a), Token(TOp, "+")];
    RowCallTokensUpto3(f, a);
    MarkAlone(Token(TOp, "+"));
    TokenizeExtend(f + "(" + a, " ", "+");
  }

  lemma RowCallTokensUpto5(f: string, a: string)
    requires IsWord(f) && f[0] != '-' && IsWord(a) && a[0] != '-'
    ensures Tokenize(f + "(" + a + " " + "+" + "   ") == Some([Token(TFunc, f), LeftParen, Token(TPackage, a), Token(TOp, "+")])
  {
    assert [Token(TFunc, f), LeftParen, Token(TPackage, a), Token(TOp, "+")] + [] == [Token(TFunc, f), LeftParen, Token(TPackage, a), Token(TOp, "+")];
    RowCallTokensUpto4(f, a);
    TokenizeBlanks("   ");
    TokenizeExtend(f + "(" + a + " ", "+", "   ");
  }

  lemma RowCallTokensUpto6(f: string, a: string, b: string)
    requires IsWord(f) && f[0] != '-' && IsWord(a) && a[0] != '-' && IsWord(b) && b[0] != '-'
    ensures Tokenize(f + "(" + a + " " + "+" + "   " + b) == Some([Token(TFunc, f), LeftParen, Token(TPackage, a), Token(TOp, "+"), Token(TPackage, b)])
  {
    assert [Token(TFunc, f), LeftParen, Token(TPackage, a), Token(TOp, "+")] + [Token(TPackage, b)] == [Token(TFunc, f), LeftParen, Token(TPackage, a), Token(TOp, "+"), Token(TPackage, b)];
    RowCallTokensUpto5(f, a);
    PatternAlone(b);
    assert b[|b| - 1] in b;
    TokenizeExtend(f + "(" + a + " " + "+", "   ", b);
  }

  lemma RowCallTokensUpto7(f: string, a: string, b: string)
    requires IsWord(f) && f[0] != '-' && IsWord(a) && a[0] != '-' && IsWord(b) && b[0] != '-'
    ensures Tokenize(f + "(" + a + " " + "+" + "   " + b + ",") == Some([Token(TFunc, f), LeftParen, Token(TPackage, a), Token(TOp, "+"), Token(TPackage, b), Token(TComma, ",")])
  {
    assert [Token(TFunc, f), LeftParen, Token(TPackage, a), Token(TOp, "+"), Token(TPackage, b)] + [Token(TComma, ",")] == [Token(TFunc, f), LeftParen, Token(TPackage, a), Token(TOp, "+"), Token(TPackage, b), Token(TComma, ",")];
    RowCallTokensUpto6(f, a, b);
    assert b[|b| - 1] in b;
    MarkAlone(Token(TComma, ","));
    TokenizeExtend(f + "(" + a + " " + "+" + "   ", b, ",");
  }

  lemma RowCallTokensUpto8(f: string, a: string, b: string)
    requires IsWord(f) && f[0] != '-' && IsWord(a) && a[0] != '-' && IsWord(b) && b[0] != '-'
    ensures Tokenize(f + "(" + a + " " + "+" + "   " + b + "," + " ") == Some([Token(TFunc, f), LeftParen, Token(TPackage, a), Token(TOp, "+"), Token(TPackage, b), Token(TComma, ",")])
  {
    assert [Token(TFunc, f), LeftParen, Token(TPackage, a), Token(TOp, "+"), Token(TPackage, b), Token(TComma, ",")] + [] == [Token(TFunc, f), LeftParen, Token(TPackage, a), Token(TOp, "+"), Token(TPackage, b), Token(TComma, ",")];
    RowCallTokensUpto7(f, a, b);
    TokenizeBlanks(" ");
    TokenizeExtend(f + "(" + a + " " + "+" + "   " + b, ",", " ");
  }

  lemma RowCallTokensUpto9(f: string, a: string, b: string, c: string)
    requires IsWord(f) && f[0] != '-' && IsWord(a) && a[0] != '-' && IsWord(b) && b[0] != '-' && IsWord(c) && c[0] != '-'
    ensures Tokenize(f + "(" + a + " " + "+" + "   " + b + "," + " " + c) == Some([Token(TFunc, f), LeftParen, Token(TPackage, a), Token(TOp, "+"), Token(TPackage, b), Token(TComma, ","), Token(TPackage, c)])
  {
    assert [Token(TFunc, f), LeftParen, Token(TPackage, a), Token(TOp, "+"), Token(TPackage, b), Token(TComma, ",")] + [Token(TPackage, c)] == [Token(TFunc, f), LeftParen, Token(TPackage, a), Token(TOp, "+"), Token(TPackage, b), Token(TComma, ","), Token(TPackage, c)];
    RowCallTokensUpto8(f, a, b);
    PatternAlone(c);
    assert c[|c| - 1] in c;
    TokenizeExtend(f + "(" + a + " " + "+" + "   " + b + ",", " ", c);
  }

  lemma RowCallTokensUpto10(f: string, a: string, b: string, c: string, s: string)
    requires IsWord(f) && f[0] != '-' && IsWord(a) && a[0] != '-' && IsWord(b) && b[0] != '-' && IsWord(c) && c[0] != '-' && IsSelectorText(s)
    ensures Tokenize(f + "(" + a + " " + "+" + "   " + b + "," + " " + c + (":" + s)) == Some([Token(TFunc, f), LeftParen, Token(TPackage, a), Token(TOp, "+"), Token(TPackage, b), Token(TComma, ","), Token(TPackage, c), Token(TSelector, s)])
  {
    assert [Token(TFunc, f), LeftParen, Token(TPackage, a), Token(TOp, "+"), Token(TPackage, b), Token(TComma, ","), Token(TPackage, c)] + [Token(TSelector, s)] == [Token(TFunc, f), LeftParen, Token(TPackage, a), Token(TOp, "+"), Token(TPackage, b), Token(TComma, ","), Token(TPackage, c), Token(TSelector, s)];
    RowCallTokensUpto9(f, a, b, c);
    assert c[|c| - 1] in c;
    SelectorAlone(s);
    TokenizeExtend(f + "(" + a + " " + "+" + "   " + b + "," + " ", c, (":" + s));
  }

  lemma RowCallTokens(f: string, a: string, b: string, c: string, s: string)
    requires IsWord(f) && f[0] != '-' && IsWord(a) && a[0] != '-' && IsWord(b) && b[0] != '-' && IsWord(c) && c[0] != '-' && IsSelectorText(s)
    ensures Tokenize(f + "(" + a + " " + "+" + "   " + b + "," + " " + c + (":" + s) + ")") == Some([Token(TFunc, f), LeftParen, Token(TPackage, a), Token(TOp, "+"), Token(TPackage, b), Token(TComma, ","), Token(TPackage, c), Token(TSelector, s), RightParen])
  {
    var x := f + "(" + a + " " + "+" + "   " + b + "," + " " + c;
    var q := ":" + s;
    RowCallTokensUpto10(f, a, b, c, s);
    SelectorAlone(s);
    assert q[|q| - 1] == s[|s| - 1];
    MarkAlone(RightParen);
    TokenizeExtend(x, q, ")");
    assert [Token(TFunc, f), LeftParen, Token(TPackage, a), Token(TOp, "+"), Token(TPackage, b), Token(TComma, ","), Token(TPackage, c), Token(TSelector, s)] + [RightParen] == [Token(TFunc, f), LeftParen, Token(TPackage, a), Token(TOp, "+"), Token(TPackage, b), Token(TComma, ","), Token(TPackage, c), Token(TSelector, s), RightParen];
  }

  lemma RowCallParse(f: string, a: string, b: string, c: string, s: string)
    ensures ParseTokens([Token(TFunc, f), LeftParen, Token(TPackage, a), Token(TOp, "+"), Token(TPackage, b), Token(TComma, ","), Token(TPackage, c), Token(TSelector, s), RightParen]) == Parsed(Call(f, [Binary("+", PackageRef(a), PackageRef(b)), Selected(PackageRef(c), s)]))
  {
    assert IsOperand(PackageRef(a));
    assert IsOperand(PackageRef(b));
    assert IsOperand(Binary("+", PackageRef(a), PackageRef(b)));
    assert IsOperand(PackageRef(c));
    assert IsOperand(Selected(PackageRef(c), s));
    assert IsOperand(Call(f, [Binary("+", PackageRef(a), PackageRef(b)), Selected(PackageRef(c), s)]));
    assert EmitTerm(PackageRef(a)) == [Token(TPackage, a)];
    assert EmitExpression(PackageRef(a)) == EmitTerm(PackageRef(a));
    assert EmitTerm(PackageRef(b)) == [Token(TPackage, b)];
    assert EmitExpression(Binary("+", PackageRef(a), PackageRef(b))) == EmitExpression(PackageRef(a)) + [Token(TOp, "+")] + EmitTerm(PackageRef(b));
    assert EmitTerm(PackageRef(c)) == [Token(TPackage, c)];
    assert EmitTerm(Selected(PackageRef(c), s)) == EmitTerm(PackageRef(c)) + [Token(TSelector, s)];
    assert EmitExpression(Selected(PackageRef(c), s)) == EmitTerm(Selected(PackageRef(c), s));
    assert EmitArguments([Selected(PackageRef(c), s)]) == EmitExpression(Selected(PackageRef(c), s));
    assert [Binary("+", PackageRef(a), PackageRef(b)), Selected(PackageRef(c), s)][1..] == [Selected(PackageRef(c), s)];
    assert EmitArguments([Binary("+", PackageRef(a), PackageRef(b)), Selected(PackageRef(c), s)]) == EmitExpression(Binary("+", PackageRef(a), PackageRef(b))) + [Token(TComma, ",")] + EmitArguments([Selected(PackageRef(c), s)]);
    assert EmitTerm(Call(f, [Binary("+", PackageRef(a), PackageRef(b)), Selected(PackageRef(c), s)])) == [Token(TFunc, f), LeftParen] + EmitArguments([Binary("+", PackageRef(a), PackageRef(b)), Selected(PackageRef(c), s)]) + [RightParen];
    assert EmitExpression(Call(f, [Binary("+", PackageRef(a), PackageRef(b)), Selected(PackageRef(c), s)])) == EmitTerm(Call(f, [Binary("+", PackageRef(a), PackageRef(b)), Selected(PackageRef(c), s)]));
    assert EmitValue(Call(f, [Binary("+", PackageRef(a), PackageRef(b)), Selected(PackageRef(c), s)])) == EmitExpression(Call(f, [Binary("+", PackageRef(a), PackageRef(b)), Selected(PackageRef(c), s)]));
    assert EmitStatement(Call(f, [Binary("+", PackageRef(a), PackageRef(b)), Selected(PackageRef(c), s)])) == EmitValue(Call(f, [Binary("+", PackageRef(a), PackageRef(b)), Selected(PackageRef(c), s)]));
    assert EmitQuery(Call(f, [Binary("+", PackageRef(a), PackageRef(b)), Selected(PackageRef(c), s)])) == EmitStatement(Call(f, [Binary("+", PackageRef(a), PackageRef(b)), Selected(PackageRef(c), s)]));
    assert EmitQuery(Call(f, [Binary("+", PackageRef(a), PackageRef(b)), Selected(PackageRef(c), s)])) == [Token(TFunc, f), LeftParen] + ((([Token(TPackage, a)]) + [Token(TOp, "+")] + ([Token(TPackage, b)])) + [Token(TComma, ",")] + (([Token(TPackage, c)]) + [Token(TSelector, s)])) + [RightParen];
    assert [Token(TFunc, f), LeftParen] + ((([Token(TPackage, a)]) + [Token(TOp, "+")] + ([Token(TPackage, b)])) + [Token(TComma, ",")] + (([Token(TPackage, c)]) + [Token(TSelector, s)])) + [RightParen] == [Token(TFunc, f), LeftParen, Token(TPackage, a), Token(TOp, "+"), Token(TPackage, b), Token(TComma, ","), Token(TPackage, c), Token(TSelector, s), RightParen];
    ParseRound(Call(f, [Binary("+", PackageRef(a), PackageRef(b)), Selected(PackageRef(c), s)]));
  }

  lemma RowCallPrint(f: string, a: string, b: string, c: string, s: string)
    ensures Print(Call(f, [Binary("+", PackageRef(a), PackageRef(b)), Selected(PackageRef(c), s)])) == f + "(+(" + a + ", " + b + "), " + c + ":" + s + ")"
  {
    assert Print(PackageRef(a)) == a;
    assert Print(PackageRef(b)) == b;
    assert Print(Binary("+", PackageRef(a), PackageRef(b))) == "+" + "(" + Print(PackageRef(a)) + ", " + Print(PackageRef(b)) + ")";
    assert Print(PackageRef(c)) == c;
    assert Print(Selected(PackageRef(c), s)) == Print(PackageRef(c)) + ":" + s;
    assert PrintList([Selected(PackageRef(c), s)], ", ") == Print(Selected(PackageRef(c), s));
    assert [Binary("+", PackageRef(a), PackageRef(b)), Selected(PackageRef(c), s)][1..] == [Selected(PackageRef(c), s)];
    assert PrintList([Binary("+", PackageRef(a), PackageRef(b)), Selected(PackageRef(c), s)], ", ") == Print(Binary("+", PackageRef(a), PackageRef(b))) + ", " + PrintList([Selected(PackageRef(c), s)], ", ");
    assert Print(Call(f, [Binary("+", PackageRef(a), PackageRef(b)), Selected(PackageRef(c), s)])) == f + "(" + PrintList([Binary("+", PackageRef(a), PackageRef(b)), Selected(PackageRef(c), s)], ", ") + ")";
    assert f + "(" + (("+" + "(" + (a) + ", " + (b) + ")") + ", " + ((c) + ":" + s)) + ")" == f + "(+(" + a + ", " + b + "), " + c + ":" + s + ")";
  }

  /** The row as the test writes it, with the query "Reaches(github.com/pratikiran/goda-cluster +   github.com/loov/qloc, golang.org/x/tools/...:all)". */
  lemma RowCall()
    ensures Row("Reaches" + "(" + GodaCluster + " " + "+" + "   " + Qloc + "," + " " + XTools + (":" + "all") + ")",
                [Token(TFunc, "Reaches"), LeftParen, Token(TPackage, GodaCluster), Token(TOp, "+"), Token(TPackage, Qloc), Token(TComma, ","), Token(TPackage, XTools), Token(TSelector, "all"), RightParen],
                Call("Reaches", [Binary("+", PackageRef(GodaCluster), PackageRef(Qloc)), Selected(PackageRef(XTools), "all")]),
                "Reaches" + "(+(" + GodaCluster + ", " + Qloc + "), " + XTools + ":" + "all" + ")")
  {
    GodaClusterWord();
    QlocWord();
    XToolsWord();
    assert IsSelectorText("all");
    RowCallOf("Reaches", GodaCluster, Qloc, XTools, "all");
  }

  /** Selectors after a call apply to the call, in order. */
  lemma RowCallSelectorsOf(f: string, a: string, c: string, s: string, s1: string)
    requires IsWord(f) && f[0] != '-' && IsWord(a) && a[0] != '-' && IsWord(c) && c[0] != '-' && IsSelectorText(s) && IsSelectorText(s1)
    ensures Row(f + "(" + a + "," + " " + c + (":" + s) + ")" + (":" + s1) + (":" + s),
                [Token(TFunc, f), LeftParen, Token(TPackage, a), Token(TComma, ","), Token(TPackage, c), Token(TSelector, s), RightParen, Token(TSelector, s1), Token(TSelector, s)],
                Selected(Selected(Call(f, [PackageRef(a), Selected(PackageRef(c), s)]), s1), s),
                f + "(" + a + ", " + c + ":" + s + "):" + s1 + ":" + s)
  {
    RowCallSelectorsTokens(f, a, c, s, s1);
    RowCallSelectorsParse(f, a, c, s, s1);
    RowCallSelectorsPrint(f, a, c, s, s1);
  }

  lemma RowCallSelectorsTokensUpto2(f: string, a: string)
    requires IsWord(f) && f[0] != '-' && IsWord(a) && a[0] != '-'
    ensures Tokenize(f + "(" + a) == Some([Token(TFunc, f), LeftParen, Token(TPackage, a)])
  {
    assert [Token(TFunc, f), LeftParen] + [Token(TPackage, a)] == [Token(TFunc, f), LeftParen, Token(TPackage, a)];
    FunctionThenParen(f);
    PatternAlone(a);
    assert a[|a| - 1] in a;
    TokenizeAppend(f + "(", a);
  }

  lemma RowCallSelectorsTokensUpto3(f: string, a: string)
    requires IsWord(f) && f[0] != '-' && IsWord(a) && a[0] != '-'
    ensures Tokenize(f + "(" + a + ",") == Some([Token(TFunc, f), LeftParen, Token(TPackage, a), Token(TComma, ",")])
  {
    assert [Token(TFunc, f), LeftParen, Token(TPackage, a)] + [Token(TComma, ",")] == [Token(TFunc, f), LeftParen, Token(TPackage, a), Token(TComma, ",")];
    RowCallSelectorsTokensUpto2(f, a);
    assert a[|a| - 1] in a;
    MarkAlone(Token(TComma, ","));
    TokenizeExtend(f + "(", a, ",");
  }

  lemma RowCallSelectorsTokensUpto4(f: string, a: string)
    requires IsWord(f) && f[0] != '-' && IsWord(a) && a[0] != '-'
    ensures Tokenize(f + "(" + a + "," + " ") == Some([Token(TFunc, f), LeftParen, Token(TPackage, a), Token(TComma, ",")])
  {
    assert [Token(TFunc, f), LeftParen, Token(TPackage, a), Token(TComma, ",")] + [] == [Token(TFunc, f), LeftParen, Token(TPackage, a), Token(TComma, ",")];
    RowCallSelectorsTokensUpto3(f, a);
    TokenizeBlanks(" ");
    TokenizeExtend(f + "(" + a, ",", " ");
  }

  lemma RowCallSelectorsTokensUpto5(f: string, a: string, c: string)
    requires IsWord(f) && f[0] != '-' && IsWord(a) && a[0] != '-' && IsWord(c) && c[0] != '-'
    ensures Tokenize(f + "(" + a + "," + " " + c) == Some([Token(TFunc, f), LeftParen, Token(TPackage, a), Token(TComma, ","), Token(TPackage, c)])
  {
    assert [Token(TFunc, f), LeftParen, Token(TPackage, a), Token(TComma, ",")] + [Token(TPackage, c)] == [Token(TFunc, f), LeftParen, Token(TPackage, a), Token(TComma, ","), Token(TPackage, c)];
    RowCallSelectorsTokensUpto4(f, a);
    PatternAlone(c);
    assert c[|c| - 1] in c;
    TokenizeExtend(f + "(" + a + ",", " ", c);
  }

  lemma RowCallSelectorsTokensUpto6(f: string, a: string, c: string, s: string)
    requires IsWord(f) && f[0] != '-' && IsWord(a) && a[0] != '-' && IsWord(c) && c[0] != '-' && IsSelectorText(s)
    ensures Tokenize(f + "(" + a + "," + " " + c + (":" + s)) == Some([Token(TFunc, f), LeftParen, Token(TPackage, a), Token(TComma, ","), Token(TPackage, c), Token(TSelector, s)])
  {
    assert [Token(TFunc, f), LeftParen, Token(TPackage, a), Token(TComma, ","), Token(TPackage, c)] + [Token(TSelector, s)] == [Token(TFunc, f), LeftParen, Token(TPackage, a), Token(TComma, ","), Token(TPackage, c), Token(TSelector, s)];
    RowCallSelectorsTokensUpto5(f, a, c);
    assert c[|c| - 1] in c;
    SelectorAlone(s);
    TokenizeExtend(f + "(" + a + "," + " ", c, (":" + s));
  }

  lemma RowCallSelectorsTokensUpto7(f: string, a: string, c: string, s: string)
    requires IsWord(f) && f[0] != '-' && IsWord(a) && a[0] != '-' && IsWord(c) && c[0] != '-' && IsSelectorText(s)
    ensures Tokenize(f + "(" + a + "," + " " + c + (":" + s) + ")") == Some([Token(TFunc, f), LeftParen, Token(TPackage, a), Token(TComma, ","), Token(TPackage, c), Token(TSelector, s), RightParen])
  {
    assert [Token(TFunc, f), LeftParen, Token(TPackage, a), Token(TComma, ","), Token(TPackage, c), Token(TSelector, s)] + [RightParen] == [Token(TFunc, f), LeftParen, Token(TPackage, a), Token(TComma, ","), Token(TPackage, c), Token(TSelector, s), RightParen];
    RowCallSelectorsTokensUpto6(f, a, c, s);
    SelectorAlone(s);
    MarkAlone(RightParen);
    TokenizeExtend(f + "(" + a + "," + " " + c, (":" + s), ")");
  }

  lemma RowCallSelectorsTokensUpto8(f: string, a: string, c: string, s: string, s1: string)
    requires IsWord(f) && f[0] != '-' && IsWord(a) && a[0] != '-' && IsWord(c) && c[0] != '-' && IsSelectorText(s) && IsSelectorText(s1)
    ensures Tokenize(f + "(" + a + "," + " " + c + (":" + s) + ")" + (":" + s1)) == Some([Token(TFunc, f), LeftParen, Token(TPackage, a), Token(TComma, ","), Token(TPackage, c), Token(TSelector, s), RightParen, Token(TSelector, s1)])
  {
    assert [Token(TFunc, f), LeftParen, Token(TPackage, a), Token(TComma, ","), Token(TPackage, c), Token(TSelector, s), RightParen] + [Token(TSelector, s1)] == [Token(TFunc, f), LeftParen, Token(TPackage, a), Token(TComma, ","), Token(TPackage, c), Token(TSelector, s), RightParen, Token(TSelector, s1)];
    RowCallSelectorsTokensUpto7(f, a, c, s);
    SelectorAlone(s1);
    TokenizeExtend(f + "(" + a + "," + " " + c + (":" + s), ")", (":" + s1));
  }

  lemma RowCallSelectorsTokens(f: string, a: string, c: string, s: string, s1: string)
    requires IsWord(f) && f[0] != '-' && IsWord(a) && a[0] != '-' && IsWord(c) && c[0] != '-' && IsSelectorText(s) && IsSelectorText(s1)
    ensures Tokenize(f + "(" + a + "," + " " + c + (":" + s) + ")" + (":" + s1) + (":" + s)) == Some([Token(TFunc, f), LeftParen, Token(TPackage, a), Token(TComma, ","), Token(TPackage, c), Token(TSelector, s), RightParen, Token(TSelector, s1), Token(TSelector, s)])
  {
    assert [Token(TFunc, f), LeftParen, Token(TPackage, a), Token(TComma, ","), Token(TPackage, c), Token(TSelector, s), RightParen, Token(TSelector, s1)] + [Token(TSelector, s)] == [Token(TFunc, f), LeftParen, Token(TPackage, a), Token(TComma, ","), Token(TPackage, c), Token(TSelector, s), RightParen, Token(TSelector, s1), Token(TSelector, s)];
    RowCallSelectorsTokensUpto8(f, a, c, s, s1);
    SelectorAlone(s1);
    SelectorAlone(s);
    TokenizeExtend(f + "(" + a + "," + " " + c + (":" + s) + ")", (":" + s1), (":" + s));
  }

  lemma RowCallSelectorsParse(f: string, a: string, c: string, s: string, s1: string)
    ensures ParseTokens([Token(TFunc, f), LeftParen, Token(TPackage, a), Token(TComma, ","), Token(TPackage, c), Token(TSelector, s), RightParen, Token(TSelector, s1), Token(TSelector, s)]) == Parsed(Selected(Selected(Call(f, [PackageRef(a), Selected(PackageRef(c), s)]), s1), s))
  {
    assert IsOperand(PackageRef(a));
    assert IsOperand(PackageRef(c));
    assert IsOperand(Selected(PackageRef(c), s));
    assert IsOperand(Call(f, [PackageRef(a), Selected(PackageRef(c), s)]));
    assert IsOperand(Selected(Call(f, [PackageRef(a), Selected(PackageRef(c), s)]), s1));
    assert IsOperand(Selected(Selected(Call(f, [PackageRef(a), Selected(PackageRef(c), s)]), s1), s));
    assert EmitTerm(PackageRef(a)) == [Token(TPackage, a)];
    assert EmitExpression(PackageRef(a)) == EmitTerm(PackageRef(a));
    assert EmitTerm(PackageRef(c)) == [Token(TPackage, c)];
    assert EmitTerm(Selected(PackageRef(c), s)) == EmitTerm(PackageRef(c)) + [Token(TSelector, s)];
    assert EmitExpression(Selected(PackageRef(c), s)) == EmitTerm(Selected(PackageRef(c), s));
    assert EmitArguments([Selected(PackageRef(c), s)]) == EmitExpression(Selected(PackageRef(c), s));
    assert [PackageRef(a), Selected(PackageRef(c), s)][1..] == [Selected(PackageRef(c), s)];
    assert EmitArguments([PackageRef(a), Selected(PackageRef(c), s)]) == EmitExpression(PackageRef(a)) + [Token(TComma, ",")] + EmitArguments([Selected(PackageRef(c), s)]);
    assert EmitTerm(Call(f, [PackageRef(a), Selected(PackageRef(c), s)])) == [Token(TFunc, f), LeftParen] + EmitArguments([PackageRef(a), Selected(PackageRef(c), s)]) + [RightParen];
    assert EmitTerm(Selected(Call(f, [PackageRef(a), Selected(PackageRef(c), s)]), s1)) == EmitTerm(Call(f, [PackageRef(a), Selected(PackageRef(c), s)])) + [Token(TSelector, s1)];
    assert EmitTerm(Selected(Selected(Call(f, [PackageRef(a), Selected(PackageRef(c), s)]), s1), s)) == EmitTerm(Selected(Call(f, [PackageRef(a), Selected(PackageRef(c), s)]), s1)) + [Token(TSelector, s)];
    assert EmitExpression(Selected(Selected(Call(f, [PackageRef(a), Selected(PackageRef(c), s)]), s1), s)) == EmitTerm(Selected(Selected(Call(f, [PackageRef(a), Selected(PackageRef(c), s)]), s1), s));
    assert EmitValue(Selected(Selected(Call(f, [PackageRef(a), Selected(PackageRef(c), s)]), s1), s)) == EmitExpression(Selected(Selected(Call(f, [PackageRef(a), Selected(PackageRef(c), s)]), s1), s));
    assert EmitStatement(Selected(Selected(Call(f, [PackageRef(a), Selected(PackageRef(c), s)]), s1), s)) == EmitValue(Selected(Selected(Call(f, [PackageRef(a), Selected(PackageRef(c), s)]), s1), s));
    assert EmitQuery(Selected(Selected(Call(f, [PackageRef(a), Selected(PackageRef(c), s)]), s1), s)) == EmitStatement(Selected(Selected(Call(f, [PackageRef(a), Selected(PackageRef(c), s)]), s1), s));
    assert EmitQuery(Selected(Selected(Call(f, [PackageRef(a), Selected(PackageRef(c), s)]), s1), s)) == (([Token(TFunc, f), LeftParen] + (([Token(TPackage, a)]) + [Token(TComma, ",")] + (([Token(TPackage, c)]) + [Token(TSelector, s)])) + [RightParen]) + [Token(TSelector, s1)]) + [Token(TSelector, s)];
    assert (([Token(TFunc, f), LeftParen] + (([Token(TPackage, a)]) + [Token(TComma, ",")] + (([Token(TPackage, c)]) + [Token(TSelector, s)])) + [RightParen]) + [Token(TSelector, s1)]) + [Token(TSelector, s)] == [Token(TFunc, f), LeftParen, Token(TPackage, a), Token(TComma, ","), Token(TPackage, c), Token(TSelector, s), RightParen, Token(TSelector, s1), Token(TSelector, s)];
    ParseRound(Selected(Selected(Call(f, [PackageRef(a), Selected(PackageRef(c), s)]), s1), s));
  }

  lemma RowCallSelectorsPrint(f: string, a: string, c: string, s: string, s1: string)
    ensures Print(Selected(Selected(Call(f, [PackageRef(a), Selected(PackageRef(c), s)]), s1), s)) == f + "(" + a + ", " + c + ":" + s + "):" + s1 + ":" + s
  {
    assert Print(PackageRef(a)) == a;
    assert Print(PackageRef(c)) == c;
    assert Print(Selected(PackageRef(c), s)) == Print(PackageRef(c)) + ":" + s;
    assert PrintList([Selected(PackageRef(c), s)], ", ") == Print(Selected(PackageRef(c), s));
    assert [PackageRef(a), Selected(PackageRef(c), s)][1..] == [Selected(PackageRef(c), s)];
    assert PrintList([PackageRef(a), Selected(PackageRef(c), s)], ", ") == Print(PackageRef(a)) + ", " + PrintList([Selected(PackageRef(c), s)], ", ");
    assert Print(Call(f, [PackageRef(a), Selected(PackageRef(c), s)])) == f + "(" + PrintList([PackageRef(a), Selected(PackageRef(c), s)], ", ") + ")";
    assert Print(Selected(Call(f, [PackageRef(a), Selected(PackageRef(c), s)]), s1)) == Print(Call(f, [PackageRef(a), Selected(PackageRef(c), s)])) + ":" + s1;
    assert Print(Selected(Selected(Call(f, [PackageRef(a), Selected(PackageRef(c), s)]), s1), s)) == Print(Selected(Call(f, [PackageRef(a), Selected(PackageRef(c), s)]), s1)) + ":" + s;
    assert ((f + "(" + ((a) + ", " + ((c) + ":" + s)) + ")") + ":" + s1) + ":" + s == f + "(" + a + ", " + c + ":" + s + "):" + s1 + ":" + s;
  }

  /** The row as the test writes it, with the query "Reaches(github.com/pratikiran/goda-cluster, golang.org/x/tools/...:all):import:all". */
  lemma RowCallSelectors()
    ensures Row("Reaches" + "(" + GodaCluster + "," + " " + XTools + (":" + "all") + ")" + (":" + "import") + (":" + "all"),
                [Token(TFunc, "Reaches"), LeftParen, Token(TPackage, GodaCluster), Token(TComma, ","), Token(TPackage, XTools), Token(TSelector, "all"), RightParen, Token(TSelector, "import"), Token(TSelector, "all")],
                Selected(Selected(Call("Reaches", [PackageRef(GodaCluster), Selected(PackageRef(XTools), "all")]), "import"), "all"),
                "Reaches" + "(" + GodaCluster + ", " + XTools + ":" + "all" + "):" + "import" + ":" + "all")
  {
    GodaClusterWord();
    XToolsWord();
    assert IsSelectorText("all");
    assert IsSelectorText("import");
    RowCallSelectorsOf("Reaches", GodaCluster, XTools, "all", "import");
  }

  /** A word directly followed by `(` names a function, even when it holds `=`. */
  lemma RowFunctionNameOf(f: string, a: string)
    requires IsWord(f) && f[0] != '-' && IsWord(a) && a[0] != '-'
    ensures Row(f + "(" + a + ")",
                [Token(TFunc, f), LeftParen, Token(TPackage, a), RightParen],
                Call(f, [PackageRef(a)]),
                f + "(" + a + ")")
  {
    RowFunctionNameTokens(f, a);
    RowFunctionNameParse(f, a);
    RowFunctionNamePrint(f, a);
  }

  lemma RowFunctionNameTokensUpto2(f: string, a: string)
    requires IsWord(f) && f[0] != '-' && IsWord(a) && a[0] != '-'
    ensures Tokenize(f + "(" + a) == Some([Token(TFunc, f), LeftParen, Token(TPackage, a)])
  {
    assert [Token(TFunc, f), LeftParen] + [Token(TPackage, a)] == [Token(TFunc, f), LeftParen, Token(TPackage, a)];
    FunctionThenParen(f);
    PatternAlone(a);
    assert a[|a| - 1] in a;
    TokenizeAppend(f + "(", a);
  }

  lemma RowFunctionNameTokens(f: string, a: string)
    requires IsWord(f) && f[0] != '-' && IsWord(a) && a[0] != '-'
    ensures Tokenize(f + "(" + a + ")") == Some([Token(TFunc, f), LeftParen, Token(TPackage, a), RightParen])
  {
    assert [Token(TFunc, f), LeftParen, Token(TPackage, a)] + [RightParen] == [Token(TFunc, f), LeftParen, Token(TPackage, a), RightParen];
    RowFunctionNameTokensUpto2(f, a);
    assert a[|a| - 1] in a;
    MarkAlone(RightParen);
    TokenizeExtend(f + "(", a, ")");
  }

  lemma RowFunctionNameParse(f: string, a: string)
    ensures ParseTokens([Token(TFunc, f), LeftParen, Token(TPackage, a), RightParen]) == Parsed(Call(f, [PackageRef(a)]))
  {
    assert IsOperand(PackageRef(a));
    assert IsOperand(Call(f, [PackageRef(a)]));
    assert EmitTerm(PackageRef(a)) == [Token(TPackage, a)];
    assert EmitExpression(PackageRef(a)) == EmitTerm(PackageRef(a));
    assert EmitArguments([PackageRef(a)]) == EmitExpression(PackageRef(a));
    assert EmitTerm(Call(f, [PackageRef(a)])) == [Token(TFunc, f), LeftParen] + EmitArguments([PackageRef(a)]) + [RightParen];
    assert EmitExpression(Call(f, [PackageRef(a)])) == EmitTerm(Call(f, [PackageRef(a)]));
    assert EmitValue(Call(f, [PackageRef(a)])) == EmitExpression(Call(f, [PackageRef(a)]));
    assert EmitStatement(Call(f, [PackageRef(a)])) == EmitValue(Call(f, [PackageRef(a)]));
    assert EmitQuery(Call(f, [PackageRef(a)])) == EmitStatement(Call(f, [PackageRef(a)]));
    assert EmitQuery(Call(f, [PackageRef(a)])) == [Token(TFunc, f), LeftParen] + ([Token(TPackage, a)]) + [RightParen];
    assert [Token(TFunc, f), LeftParen] + ([Token(TPackage, a)]) + [RightParen] == [Token(TFunc, f), LeftParen, Token(TPackage, a), RightParen];
    ParseRound(Call(f, [PackageRef(a)]));
  }

  lemma RowFunctionNamePrint(f: string, a: string)
    ensures Print(Call(f, [PackageRef(a)])) == f + "(" + a + ")"
  {
    assert Print(PackageRef(a)) == a;
    assert PrintList([PackageRef(a)], ", ") == Print(PackageRef(a));
    assert Print(Call(f, [PackageRef(a)])) == f + "(" + PrintList([PackageRef(a)], ", ") + ")";
    assert f + "(" + (a) + ")" == f + "(" + a + ")";
  }

  /** The row as the test writes it, with the query "test=1(github.com/pratikiran/goda-cluster)". */
  lemma RowFunctionName()
    ensures Row("test=1" + "(" + GodaCluster + ")",
                [Token(TFunc, "test=1"), LeftParen, Token(TPackage, GodaCluster), RightParen],
                Call("test=1", [PackageRef(GodaCluster)]),
                "test=1" + "(" + GodaCluster + ")")
  {
    GodaClusterWord();
    RowFunctionNameOf("test=1", GodaCluster);
  }

  /** Two calls combined by an operator. */
  lemma RowCallDifferenceOf(f: string, g: string, a: string)
    requires IsWord(f) && f[0] != '-' && IsWord(g) && g[0] != '-' && IsWord(a) && a[0] != '-'
    ensures Row(f + "(" + a + ")" + " " + "-" + " " + (g + "(") + a + ")",
                [Token(TFunc, f), LeftParen, Token(TPackage, a), RightParen, Token(TOp, "-"), Token(TFunc, g), LeftParen, Token(TPackage, a), RightParen],
                Binary("-", Call(f, [PackageRef(a)]), Call(g, [PackageRef(a)])),
                "-(" + f + "(" + a + "), " + g + "(" + a + "))")
  {
    RowCallDifferenceTokens(f, g, a);
    RowCallDifferenceParse(f, g, a);
    RowCallDifferencePrint(f, g, a);
  }

  lemma RowCallDifferenceTokensUpto2(f: string, a: string)
    requires IsWord(f) && f[0] != '-' && IsWord(a) && a[0] != '-'
    ensures Tokenize(f + "(" + a) == Some([Token(TFunc, f), LeftParen, Token(TPackage, a)])
  {
    assert [Token(TFunc, f), LeftParen] + [Token(TPackage, a)] == [Token(TFunc, f), LeftParen, Token(TPackage, a)];
    FunctionThenParen(f);
    PatternAlone(a);
    assert a[|a| - 1] in a;
    TokenizeAppend(f + "(", a);
  }

  lemma RowCallDifferenceTokensUpto3(f: string, a: string)
    requires IsWord(f) && f[0] != '-' && IsWord(a) && a[0] != '-'
    ensures Tokenize(f + "(" + a + ")") == Some([Token(TFunc, f), LeftParen, Token(TPackage, a), RightParen])
  {
    assert [Token(TFunc, f), LeftParen, Token(TPackage, a)] + [RightParen] == [Token(TFunc, f), LeftParen, Token(TPackage, a), RightParen];
    RowCallDifferenceTokensUpto2(f, a);
    assert a[|a| - 1] in a;
    MarkAlone(RightParen);
    TokenizeExtend(f + "(", a, ")");
  }

  lemma RowCallDifferenceTokensUpto4(f: string, a: string)
    requires IsWord(f) && f[0] != '-' && IsWord(a) && a[0] != '-'
    ensures Tokenize(f + "(" + a + ")" + " ") == Some([Token(TFunc, f), LeftParen, Token(TPackage, a), RightParen])
  {
    assert [Token(TFunc, f), LeftParen, Token(TPackage, a), RightParen] + [] == [Token(TFunc, f), LeftParen, Token(TPackage, a), RightParen];
    RowCallDifferenceTokensUpto3(f, a);
    TokenizeBlanks(" ");
    TokenizeExtend(f + "(" + a, ")", " ");
  }

  lemma RowCallDifferenceTokensUpto5(f: string, a: string)
    requires IsWord(f) && f[0] != '-' && IsWord(a) && a[0] != '-'
    ensures Tokenize(f + "(" + a + ")" + " " + "-") == Some([Token(TFunc, f), LeftParen, Token(TPackage, a), RightParen, Token(TOp, "-")])
  {
    assert [Token(TFunc, f), LeftParen, Token(TPackage, a), RightParen] + [Token(TOp, "-")] == [Token(TFunc, f), LeftParen, Token(TPackage, a), RightParen, Token(TOp, "-")];
    RowCallDifferenceTokensUpto4(f, a);
    MarkAlone(Token(TOp, "-"));
    TokenizeExtend(f + "(" + a + ")", " ", "-");
  }

  lemma RowCallDifferenceTokensUpto6(f: string, a: string)
    requires IsWord(f) && f[0] != '-' && IsWord(a) && a[0] != '-'
    ensures Tokenize(f + "(" + a + ")" + " " + "-" + " ") == Some([Token(TFunc, f), LeftParen, Token(TPackage, a), RightParen, Token(TOp, "-")])
  {
    assert [Token(TFunc, f), LeftParen, Token(TPackage, a), RightParen, Token(TOp, "-")] + [] == [Token(TFunc, f), LeftParen, Token(TPackage, a), RightParen, Token(TOp, "-")];
    RowCallDifferenceTokensUpto5(f, a);
    TokenizeBlanks(" ");
    TokenizeExtend(f + "(" + a + ")" + " ", "-", " ");
  }

  lemma RowCallDifferenceTokensUpto7(f: string, g: string, a: string)
    requires IsWord(f) && f[0] != '-' && IsWord(g) && g[0] != '-' && IsWord(a) && a[0] != '-'
    ensures Tokenize(f + "(" + a + ")" + " " + "-" + " " + (g + "(")) == Some([Token(TFunc, f), LeftParen, Token(TPackage, a), RightParen, Token(TOp, "-"), Token(TFunc, g), LeftParen])
  {
    assert [Token(TFunc, f), LeftParen, Token(TPackage, a), RightParen, Token(TOp, "-")] + [Token(TFunc, g), LeftParen] == [Token(TFunc, f), LeftParen, Token(TPackage, a), RightParen, Token(TOp, "-"), Token(TFunc, g), LeftParen];
    RowCallDifferenceTokensUpto6(f, a);
    CallOpen(g);
    TokenizeExtend(f + "(" + a + ")" + " " + "-", " ", (g + "("));
  }

  lemma RowCallDifferenceTokensUpto8(f: string, g: string, a: string)
    requires IsWord(f) && f[0] != '-' && IsWord(g) && g[0] != '-' && IsWord(a) && a[0] != '-'
    ensures Tokenize(f + "(" + a + ")" + " " + "-" + " " + (g + "(") + a) == Some([Token(TFunc, f), LeftParen, Token(TPackage, a), RightParen, Token(TOp, "-"), Token(TFunc, g), LeftParen, Token(TPackage, a)])
  {
    assert [Token(TFunc, f), LeftParen, Token(TPackage, a), RightParen, Token(TOp, "-"), Token(TFunc, g), LeftParen] + [Token(TPackage, a)] == [Token(TFunc, f), LeftParen, Token(TPackage, a), RightParen, Token(TOp, "-"), Token(TFunc, g), LeftParen, Token(TPackage, a)];
    RowCallDifferenceTokensUpto7(f, g, a);
    PatternAlone(a);
    assert a[|a| - 1] in a;
    TokenizeExtend(f + "(" + a + ")" + " " + "-" + " ", (g + "("), a);
  }

  lemma RowCallDifferenceTokens(f: string, g: string, a: string)
    requires IsWord(f) && f[0] != '-' && IsWord(g) && g[0] != '-' && IsWord(a) && a[0] != '-'
    ensures Tokenize(f + "(" + a + ")" + " " + "-" + " " + (g + "(") + a + ")") == Some([Token(TFunc, f), LeftParen, Token(TPackage, a), RightParen, Token(TOp, "-"), Token(TFunc, g), LeftParen, Token(TPackage, a), RightParen])
  {
    assert [Token(TFunc, f), LeftParen, Token(TPackage, a), RightParen, Token(TOp, "-"), Token(TFunc, g), LeftParen, Token(TPackage, a)] + [RightParen] == [Token(TFunc, f), LeftParen, Token(TPackage, a), RightParen, Token(TOp, "-"), Token(TFunc, g), LeftParen, Token(TPackage, a), RightParen];
    RowCallDifferenceTokensUpto8(f, g, a);
    assert a[|a| - 1] in a;
    MarkAlone(RightParen);
    TokenizeExtend(f + "(" + a + ")" + " " + "-" + " " + (g + "("), a, ")");
  }

  lemma RowCallDifferenceParse(f: string, g: string, a: string)
    ensures ParseTokens([Token(TFunc, f), LeftParen, Token(TPackage, a), RightParen, Token(TOp, "-"), Token(TFunc, g), LeftParen, Token(TPackage, a), RightParen]) == Parsed(Binary("-", Call(f, [PackageRef(a)]), Call(g, [PackageRef(a)])))
  {
    assert IsOperand(PackageRef(a));
    assert IsOperand(Call(f, [PackageRef(a)]));
    assert IsOperand(PackageRef(a));
    assert IsOperand(Call(g, [PackageRef(a)]));
    assert IsOperand(Binary("-", Call(f, [PackageRef(a)]), Call(g, [PackageRef(a)])));
    assert EmitTerm(PackageRef(a)) == [Token(TPackage, a)];
    assert EmitExpression(PackageRef(a)) == EmitTerm(PackageRef(a));
    assert EmitArguments([PackageRef(a)]) == EmitExpression(PackageRef(a));
    assert EmitTerm(Call(f, [PackageRef(a)])) == [Token(TFunc, f), LeftParen] + EmitArguments([PackageRef(a)]) + [RightParen];
    assert EmitExpression(Call(f, [PackageRef(a)])) == EmitTerm(Call(f, [PackageRef(a)]));
    assert EmitTerm(Call(g, [PackageRef(a)])) == [Token(TFunc, g), LeftParen] + EmitArguments([PackageRef(a)]) + [RightParen];
    assert EmitExpression(Binary("-", Call(f, [PackageRef(a)]), Call(g, [PackageRef(a)]))) == EmitExpression(Call(f, [PackageRef(a)])) + [Token(TOp, "-")] + EmitTerm(Call(g, [PackageRef(a)]));
    assert EmitValue(Binary("-", Call(f, [PackageRef(a)]), Call(g, [PackageRef(a)]))) == EmitExpression(Binary("-", Call(f, [PackageRef(a)]), Call(g, [PackageRef(a)])));
    assert EmitStatement(Binary("-", Call(f, [PackageRef(a)]), Call(g, [PackageRef(a)]))) == EmitValue(Binary("-", Call(f, [PackageRef(a)]), Call(g, [PackageRef(a)])));
    assert EmitQuery(Binary("-", Call(f, [PackageRef(a)]), Call(g, [PackageRef(a)]))) == EmitStatement(Binary("-", Call(f, [PackageRef(a)]), Call(g, [PackageRef(a)])));
    assert EmitQuery(Binary("-", Call(f, [PackageRef(a)]), Call(g, [PackageRef(a)]))) == ([Token(TFunc, f), LeftParen] + ([Token(TPackage, a)]) + [RightParen]) + [Token(TOp, "-")] + ([Token(TFunc, g), LeftParen] + ([Token(TPackage, a)]) + [RightParen]);
    assert ([Token(TFunc, f), LeftParen] + ([Token(TPackage, a)]) + [RightParen]) + [Token(TOp, "-")] + ([Token(TFunc, g), LeftParen] + ([Token(TPackage, a)]) + [RightParen]) == [Token(TFunc, f), LeftParen, Token(TPackage, a), RightParen, Token(TOp, "-"), Token(TFunc, g), LeftParen, Token(TPackage, a), RightParen];
    ParseRound(Binary("-", Call(f, [PackageRef(a)]), Call(g, [PackageRef(a)])));
  }

  lemma RowCallDifferencePrint(f: string, g: string, a: string)
    ensures Print(Binary("-", Call(f, [PackageRef(a)]), Call(g, [PackageRef(a)]))) == "-(" + f + "(" + a + "), " + g + "(" + a + "))"
  {
    assert Print(PackageRef(a)) == a;
    assert PrintList([PackageRef(a)], ", ") == Print(PackageRef(a));
    assert Print(Call(f, [PackageRef(a)])) == f + "(" + PrintList([PackageRef(a)], ", ") + ")";
    assert Print(PackageRef(a)) == a;
    assert PrintList([PackageRef(a)], ", ") == Print(PackageRef(a));
    assert Print(Call(g, [PackageRef(a)])) == g + "(" + PrintList([PackageRef(a)], ", ") + ")";
    assert Print(Binary("-", Call(f, [PackageRef(a)]), Call(g, [PackageRef(a)]))) == "-" + "(" + Print(Call(f, [PackageRef(a)])) + ", " + Print(Call(g, [PackageRef(a)])) + ")";
    assert "-" + "(" + (f + "(" + (a) + ")") + ", " + (g + "(" + (a) + ")") + ")" == "-(" + f + "(" + a + "), " + g + "(" + a + "))";
  }

  /** The row as the test writes it, with the query "test=1(github.com/pratikiran/goda-cluster) - test=0(github.com/pratikiran/goda-cluster)". */
  lemma RowCallDifference()
    ensures Row("test=1" + "(" + GodaCluster + ")" + " " + "-" + " " + ("test=0" + "(") + GodaCluster + ")",
                [Token(TFunc, "test=1"), LeftParen, Token(TPackage, GodaCluster), RightParen, Token(TOp, "-"), Token(TFunc, "test=0"), LeftParen, Token(TPackage, GodaCluster), RightParen],
                Binary("-", Call("test=1", [PackageRef(GodaCluster)]), Call("test=0", [PackageRef(GodaCluster)])),
                "-(" + "test=1" + "(" + GodaCluster + "), " + "test=0" + "(" + GodaCluster + "))")
  {
    GodaClusterWord();
    RowCallDifferenceOf("test=1", "test=0", GodaCluster);
  }

  /** Chained selectors are separate tokens that keep their sign and their order. */
  lemma RowSignedSelectorsOf(x: string, s: string, s1: string)
    requires IsWord(x) && x[0] != '-' && IsSelectorText(s) && IsSelectorText(s1)
    ensures Row(x + (":" + s) + (":" + s1),
                [Token(TPackage, x), Token(TSelector, s), Token(TSelector, s1)],
                Selected(Selected(PackageRef(x), s), s1),
                x + ":" + s + ":" + s1)
  {
    RowSignedSelectorsTokens(x, s, s1);
    RowSignedSelectorsParse(x, s, s1);
    RowSignedSelectorsPrint(x, s, s1);
  }

  lemma RowSignedSelectorsTokensUpto2(x: string, s: string)
    requires IsWord(x) && x[0] != '-' && IsSelectorText(s)
    ensures Tokenize(x + (":" + s)) == Some([Token(TPackage, x), Token(TSelector, s)])
  {
    assert [Token(TPackage, x)] + [Token(TSelector, s)] == [Token(TPackage, x), Token(TSelector, s)];
    RowPatternTokens(x);
    assert x[|x| - 1] in x;
    SelectorAlone(s);
    TokenizeAppend(x, (":" + s));
  }

  lemma RowSignedSelectorsTokens(x: string, s: string, s1: string)
    requires IsWord(x) && x[0] != '-' && IsSelectorText(s) && IsSelectorText(s1)
    ensures Tokenize(x + (":" + s) + (":" + s1)) == Some([Token(TPackage, x), Token(TSelector, s), Token(TSelector, s1)])
  {
    assert [Token(TPackage, x), Token(TSelector, s)] + [Token(TSelector, s1)] == [Token(TPackage, x), Token(TSelector, s), Token(TSelector, s1)];
    RowSignedSelectorsTokensUpto2(x, s);
    SelectorAlone(s);
    SelectorAlone(s1);
    TokenizeExtend(x, (":" + s), (":" + s1));
  }

  lemma RowSignedSelectorsParse(x: string, s: string, s1: string)
    ensures ParseTokens([Token(TPackage, x), Token(TSelector, s), Token(TSelector, s1)]) == Parsed(Selected(Selected(PackageRef(x), s), s1))
  {
    assert IsOperand(PackageRef(x));
    assert IsOperand(Selected(PackageRef(x), s));
    assert IsOperand(Selected(Selected(PackageRef(x), s), s1));
    assert EmitTerm(PackageRef(x)) == [Token(TPackage, x)];
    assert EmitTerm(Selected(PackageRef(x), s)) == EmitTerm(PackageRef(x)) + [Token(TSelector, s)];
    assert EmitTerm(Selected(Selected(PackageRef(x), s), s1)) == EmitTerm(Selected(PackageRef(x), s)) + [Token(TSelector, s1)];
    assert EmitExpression(Selected(Selected(PackageRef(x), s), s1)) == EmitTerm(Selected(Selected(PackageRef(x), s), s1));
    assert EmitValue(Selected(Selected(PackageRef(x), s), s1)) == EmitExpression(Selected(Selected(PackageRef(x), s), s1));
    assert EmitStatement(Selected(Selected(PackageRef(x), s), s1)) == EmitValue(Selected(Selected(PackageRef(x), s), s1));
    assert EmitQuery(Selected(Selected(PackageRef(x), s), s1)) == EmitStatement(Selected(Selected(PackageRef(x), s), s1));
    assert EmitQuery(Selected(Selected(PackageRef(x), s), s1)) == (([Token(TPackage, x)]) + [Token(TSelector, s)]) + [Token(TSelector, s1)];
    assert (([Token(TPackage, x)]) + [Token(TSelector, s)]) + [Token(TSelector, s1)] == [Token(TPackage, x), Token(TSelector, s), Token(TSelector, s1)];
    ParseRound(Selected(Selected(PackageRef(x), s), s1));
  }

  lemma RowSignedSelectorsPrint(x: string, s: string, s1: string)
    ensures Print(Selected(Selected(PackageRef(x), s), s1)) == x + ":" + s + ":" + s1
  {
    assert Print(PackageRef(x)) == x;
    assert Print(Selected(PackageRef(x), s)) == Print(PackageRef(x)) + ":" + s;
    assert Print(Selected(Selected(PackageRef(x), s), s1)) == Print(Selected(PackageRef(x), s)) + ":" + s1;
    assert ((x) + ":" + s) + ":" + s1 == x + ":" + s + ":" + s1;
  }

  /** The row as the test writes it, with the query "x:-test:+test". */
  lemma RowSignedSelectors()
    ensures Row("x" + (":" + "-test") + (":" + "+test"),
                [Token(TPackage, "x"), Token(TSelector, "-test"), Token(TSelector, "+test")],
                Selected(Selected(PackageRef("x"), "-test"), "+test"),
                "x" + ":" + "-test" + ":" + "+test")
  {
    assert IsSelectorText("-test");
    assert IsSelectorText("+test");
    RowSignedSelectorsOf("x", "-test", "+test");
  }

  /** A selector after a parenthesised operation applies to the whole operation. */
  lemma RowGroupSelectorOf(x: string, y: string, s: string)
    requires IsWord(x) && x[0] != '-' && IsWord(y) && y[0] != '-' && IsSelectorText(s)
    ensures Row("(" + x + " " + "+" + " " + y + ")" + (":" + s),
                [LeftParen, Token(TPackage, x), Token(TOp, "+"), Token(TPackage, y), RightParen, Token(TSelector, s)],
                Selected(Binary("+", PackageRef(x), PackageRef(y)), s),
                "+(" + x + ", " + y + "):" + s)
  {
    RowGroupSelectorTokens(x, y, s);
    RowGroupSelectorParse(x, y, s);
    RowGroupSelectorPrint(x, y, s);
  }

  lemma RowGroupSelectorTokensUpto1()
    ensures Tokenize("(") == Some([LeftParen])
  {
    MarkAlone(LeftParen);
  }

  lemma RowGroupSelectorTokensUpto2(x: string)
    requires IsWord(x) && x[0] != '-'
    ensures Tokenize("(" + x) == Some([LeftParen, Token(TPackage, x)])
  {
    assert [LeftParen] + [Token(TPackage, x)] == [LeftParen, Token(TPackage, x)];
    RowGroupSelectorTokensUpto1();
    PatternAlone(x);
    assert x[|x| - 1] in x;
    TokenizeAppend("(", x);
  }

  lemma RowGroupSelectorTokensUpto3(x: string)
    requires IsWord(x) && x[0] != '-'
    ensures Tokenize("(" + x + " ") == Some([LeftParen, Token(TPackage, x)])
  {
    assert [LeftParen, Token(TPackage, x)] + [] == [LeftParen, Token(TPackage, x)];
    RowGroupSelectorTokensUpto2(x);
    assert x[|x| - 1] in x;
    TokenizeBlanks(" ");
    TokenizeExtend("(", x, " ");
  }

  lemma RowGroupSelectorTokensUpto4(x: string)
    requires IsWord(x) && x[0] != '-'
    ensures Tokenize("(" + x + " " + "+") == Some([LeftParen, Token(TPackage, x), Token(TOp, "+")])
  {
    assert [LeftParen, Token(TPackage, x)] + [Token(TOp, "+")] == [LeftParen, Token(TPackage, x), Token(TOp, "+")];
    RowGroupSelectorTokensUpto3(x);
    MarkAlone(Token(TOp, "+"));
    TokenizeExtend("(" + x, " ", "+");
  }

  lemma RowGroupSelectorTokensUpto5(x: string)
    requires IsWord(x) && x[0] != '-'
    ensures Tokenize("(" + x + " " + "+" + " ") == Some([LeftParen, Token(TPackage, x), Token(TOp, "+")])
  {
    assert [LeftParen, Token(TPackage, x), Token(TOp, "+")] + [] == [LeftParen, Token(TPackage, x), Token(TOp, "+")];
    RowGroupSelectorTokensUpto4(x);
    TokenizeBlanks(" ");
    TokenizeExtend("(" + x + " ", "+", " ");
  }

  lemma RowGroupSelectorTokensUpto6(x: string, y: string)
    requires IsWord(x) && x[0] != '-' && IsWord(y) && y[0] != '-'
    ensures Tokenize("(" + x + " " + "+" + " " + y) == Some([LeftParen, Token(TPackage, x), Token(TOp, "+"), Token(TPackage, y)])
  {
    assert [LeftParen, Token(TPackage, x), Token(TOp, "+")] + [Token(TPackage, y)] == [LeftParen, Token(TPackage, x), Token(TOp, "+"), Token(TPackage, y)];
    RowGroupSelectorTokensUpto5(x);
    PatternAlone(y);
    assert y[|y| - 1] in y;
    TokenizeExtend("(" + x + " " + "+", " ", y);
  }

  lemma RowGroupSelectorTokensUpto7(x: string, y: string)
    requires IsWord(x) && x[0] != '-' && IsWord(y) && y[0] != '-'
    ensures Tokenize("(" + x + " " + "+" + " " + y + ")") == Some([LeftParen, Token(TPackage, x), Token(TOp, "+"), Token(TPackage, y), RightParen])
  {
    assert [LeftParen, Token(TPackage, x), Token(TOp, "+"), Token(TPackage, y)] + [RightParen] == [LeftParen, Token(TPackage, x), Token(TOp, "+"), Token(TPackage, y), RightParen];
    RowGroupSelectorTokensUpto6(x, y);
    assert y[|y| - 1] in y;
    MarkAlone(RightParen);
    TokenizeExtend("(" + x + " " + "+" + " ", y, ")");
  }

  lemma RowGroupSelectorTokens(x: string, y: string, s: string)
    requires IsWord(x) && x[0] != '-' && IsWord(y) && y[0] != '-' && IsSelectorText(s)
    ensures Tokenize("(" + x + " " + "+" + " " + y + ")" + (":" + s)) == Some([LeftParen, Token(TPackage, x), Token(TOp, "+"), Token(TPackage, y), RightParen, Token(TSelector, s)])
  {
    assert [LeftParen, Token(TPackage, x), Token(TOp, "+"), Token(TPackage, y), RightParen] + [Token(TSelector, s)] == [LeftParen, Token(TPackage, x), Token(TOp, "+"), Token(TPackage, y), RightParen, Token(TSelector, s)];
    RowGroupSelectorTokensUpto7(x, y);
    SelectorAlone(s);
    TokenizeExtend("(" + x + " " + "+" + " " + y, ")", (":" + s));
  }

  lemma RowGroupSelectorParse(x: string, y: string, s: string)
    ensures ParseTokens([LeftParen, Token(TPackage, x), Token(TOp, "+"), Token(TPackage, y), RightParen, Token(TSelector, s)]) == Parsed(Selected(Binary("+", PackageRef(x), PackageRef(y)), s))
  {
    assert IsOperand(PackageRef(x));
    assert IsOperand(PackageRef(y));
    assert IsOperand(Binary("+", PackageRef(x), PackageRef(y)));
    assert IsOperand(Selected(Binary("+", PackageRef(x), PackageRef(y)), s));
    assert EmitTerm(PackageRef(x)) == [Token(TPackage, x)];
    assert EmitExpression(PackageRef(x)) == EmitTerm(PackageRef(x));
    assert EmitTerm(PackageRef(y)) == [Token(TPackage, y)];
    assert EmitTerm(Binary("+", PackageRef(x), PackageRef(y))) == [LeftParen] + EmitExpression(PackageRef(x)) + [Token(TOp, "+")] + EmitTerm(PackageRef(y)) + [RightParen];
    assert EmitTerm(Selected(Binary("+", PackageRef(x), PackageRef(y)), s)) == EmitTerm(Binary("+", PackageRef(x), PackageRef(y))) + [Token(TSelector, s)];
    assert EmitExpression(Selected(Binary("+", PackageRef(x), PackageRef(y)), s)) == EmitTerm(Selected(Binary("+", PackageRef(x), PackageRef(y)), s));
    assert EmitValue(Selected(Binary("+", PackageRef(x), PackageRef(y)), s)) == EmitExpression(Selected(Binary("+", PackageRef(x), PackageRef(y)), s));
    assert EmitStatement(Selected(Binary("+", PackageRef(x), PackageRef(y)), s)) == EmitValue(Selected(Binary("+", PackageRef(x), PackageRef(y)), s));
    assert EmitQuery(Selected(Binary("+", PackageRef(x), PackageRef(y)), s)) == EmitStatement(Selected(Binary("+", PackageRef(x), PackageRef(y)), s));
    assert EmitQuery(Selected(Binary("+", PackageRef(x), PackageRef(y)), s)) == ([LeftParen] + ([Token(TPackage, x)]) + [Token(TOp, "+")] + ([Token(TPackage, y)]) + [RightParen]) + [Token(TSelector, s)];
    assert ([LeftParen] + ([Token(TPackage, x)]) + [Token(TOp, "+")] + ([Token(TPackage, y)]) + [RightParen]) + [Token(TSelector, s)] == [LeftParen, Token(TPackage, x), Token(TOp, "+"), Token(TPackage, y), RightParen, Token(TSelector, s)];
    ParseRound(Selected(Binary("+", PackageRef(x), PackageRef(y)), s));
  }

  lemma RowGroupSelectorPrint(x: string, y: string, s: string)
    ensures Print(Selected(Binary("+", PackageRef(x), PackageRef(y)), s)) == "+(" + x + ", " + y + "):" + s
  {
    assert Print(PackageRef(x)) == x;
    assert Print(PackageRef(y)) == y;
    assert Print(Binary("+", PackageRef(x), PackageRef(y))) == "+" + "(" + Print(PackageRef(x)) + ", " + Print(PackageRef(y)) + ")";
    assert Print(Selected(Binary("+", PackageRef(x), PackageRef(y)), s)) == Print(Binary("+", PackageRef(x), PackageRef(y))) + ":" + s;
    assert ("+" + "(" + (x) + ", " + (y) + ")") + ":" + s == "+(" + x + ", " + y + "):" + s;
  }

  /** The row as the test writes it, with the query "(x + y):+test". */
  lemma RowGroupSelector()
    ensures Row("(" + "x" + " " + "+" + " " + "y" + ")" + (":" + "+test"),
                [LeftParen, Token(TPackage, "x"), Token(TOp, "+"), Token(TPackage, "y"), RightParen, Token(TSelector, "+test")],
                Selected(Binary("+", PackageRef("x"), PackageRef("y")), "+test"),
                "+(" + "x" + ", " + "y" + "):" + "+test")
  {
    assert IsSelectorText("+test");
    RowGroupSelectorOf("x", "y", "+test");
  }

  /** `:=` and `;` are tokens of their own: an assignment, then a second statement. */
  lemma RowAssignmentOf(v: string, x: string, y: string, s: string)
    requires IsWord(v) && v[0] != '-' && IsWord(x) && x[0] != '-' && IsWord(y) && y[0] != '-' && IsSelectorText(s)
    ensures Row(v + (":=" + x) + (":" + s) + ";" + y + "+" + v,
                [Token(TPackage, v), Token(TAssign, ":="), Token(TPackage, x), Token(TSelector, s), Token(TSemicolon, ";"), Token(TPackage, y), Token(TOp, "+"), Token(TPackage, v)],
                Program([Assignment(v, Selected(PackageRef(x), s)), Binary("+", PackageRef(y), PackageRef(v))]),
                v + " := " + x + ":" + s + "; +(" + y + ", " + v + ")")
  {
    RowAssignmentTokens(v, x, y, s);
    RowAssignmentParse(v, x, y, s);
    RowAssignmentPrint(v, x, y, s);
  }

  lemma RowAssignmentTokensUpto2(v: string, x: string)
    requires IsWord(v) && v[0] != '-' && IsWord(x) && x[0] != '-'
    ensures Tokenize(v + (":=" + x)) == Some([Token(TPackage, v), Token(TAssign, ":="), Token(TPackage, x)])
  {
    assert [Token(TPackage, v)] + [Token(TAssign, ":="), Token(TPackage, x)] == [Token(TPackage, v), Token(TAssign, ":="), Token(TPackage, x)];
    RowPatternTokens(v);
    assert v[|v| - 1] in v;
    AssignTo(x);
    assert x[|x| - 1] in x;
    TokenizeAppend(v, (":=" + x));
  }

  lemma RowAssignmentTokensUpto3(v: string, x: string, s: string)
    requires IsWord(v) && v[0] != '-' && IsWord(x) && x[0] != '-' && IsSelectorText(s)
    ensures Tokenize(v + (":=" + x) + (":" + s)) == Some([Token(TPackage, v), Token(TAssign, ":="), Token(TPackage, x), Token(TSelector, s)])
  {
    assert [Token(TPackage, v), Token(TAssign, ":="), Token(TPackage, x)] + [Token(TSelector, s)] == [Token(TPackage, v), Token(TAssign, ":="), Token(TPackage, x), Token(TSelector, s)];
    RowAssignmentTokensUpto2(v, x);
    assert x[|x| - 1] in x;
    SelectorAlone(s);
    TokenizeExtend(v, (":=" + x), (":" + s));
  }

  lemma RowAssignmentTokensUpto4(v: string, x: string, s: string)
    requires IsWord(v) && v[0] != '-' && IsWord(x) && x[0] != '-' && IsSelectorText(s)
    ensures Tokenize(v + (":=" + x) + (":" + s) + ";") == Some([Token(TPackage, v), Token(TAssign, ":="), Token(TPackage, x), Token(TSelector, s), Token(TSemicolon, ";")])
  {
    assert [Token(TPackage, v), Token(TAssign, ":="), Token(TPackage, x), Token(TSelector, s)] + [Token(TSemicolon, ";")] == [Token(TPackage, v), Token(TAssign, ":="), Token(TPackage, x), Token(TSelector, s), Token(TSemicolon, ";")];
    RowAssignmentTokensUpto3(v, x, s);
    SelectorAlone(s);
    MarkAlone(Token(TSemicolon, ";"));
    TokenizeExtend(v + (":=" + x), (":" + s), ";");
  }

  lemma RowAssignmentTokensUpto5(v: string, x: string, y: string, s: string)
    requires IsWord(v) && v[0] != '-' && IsWord(x) && x[0] != '-' && IsWord(y) && y[0] != '-' && IsSelectorText(s)
    ensures Tokenize(v + (":=" + x) + (":" + s) + ";" + y) == Some([Token(TPackage, v), Token(TAssign, ":="), Token(TPackage, x), Token(TSelector, s), Token(TSemicolon, ";"), Token(TPackage, y)])
  {
    assert [Token(TPackage, v), Token(TAssign, ":="), Token(TPackage, x), Token(TSelector, s), Token(TSemicolon, ";")] + [Token(TPackage, y)] == [Token(TPackage, v), Token(TAssign, ":="), Token(TPackage, x), Token(TSelector, s), Token(TSemicolon, ";"), Token(TPackage, y)];
    RowAssignmentTokensUpto4(v, x, s);
    PatternAlone(y);
    assert y[|y| - 1] in y;
    TokenizeExtend(v + (":=" + x) + (":" + s), ";", y);
  }

  lemma RowAssignmentTokensUpto6(v: string, x: string, y: string, s: string)
    requires IsWord(v) && v[0] != '-' && IsWord(x) && x[0] != '-' && IsWord(y) && y[0] != '-' && IsSelectorText(s)
    ensures Tokenize(v + (":=" + x) + (":" + s) + ";" + y + "+") == Some([Token(TPackage, v), Token(TAssign, ":="), Token(TPackage, x), Token(TSelector, s), Token(TSemicolon, ";"), Token(TPackage, y), Token(TOp, "+")])
  {
    assert [Token(TPackage, v), Token(TAssign, ":="), Token(TPackage, x), Token(TSelector, s), Token(TSemicolon, ";"), Token(TPackage, y)] + [Token(TOp, "+")] == [Token(TPackage, v), Token(TAssign, ":="), Token(TPackage, x), Token(TSelector, s), Token(TSemicolon, ";"), Token(TPackage, y), Token(TOp, "+")];
    RowAssignmentTokensUpto5(v, x, y, s);
    assert y[|y| - 1] in y;
    MarkAlone(Token(TOp, "+"));
    TokenizeExtend(v + (":=" + x) + (":" + s) + ";", y, "+");
  }

  lemma RowAssignmentTokens(v: string, x: string, y: string, s: string)
    requires IsWord(v) && v[0] != '-' && IsWord(x) && x[0] != '-' && IsWord(y) && y[0] != '-' && IsSelectorText(s)
    ensures Tokenize(v + (":=" + x) + (":" + s) + ";" + y + "+" + v) == Some([Token(TPackage, v), Token(TAssign, ":="), Token(TPackage, x), Token(TSelector, s), Token(TSemicolon, ";"), Token(TPackage, y), Token(TOp, "+"), Token(TPackage, v)])
  {
    assert [Token(TPackage, v), Token(TAssign, ":="), Token(TPackage, x), Token(TSelector, s), Token(TSemicolon, ";"), Token(TPackage, y), Token(TOp, "+")] + [Token(TPackage, v)] == [Token(TPackage, v), Token(TAssign, ":="), Token(TPackage, x), Token(TSelector, s), Token(TSemicolon, ";"), Token(TPackage, y), Token(TOp, "+"), Token(TPackage, v)];
    RowAssignmentTokensUpto6(v, x, y, s);
    PatternAlone(v);
    assert v[|v| - 1] in v;
    TokenizeExtend(v + (":=" + x) + (":" + s) + ";" + y, "+", v);
  }

  lemma RowAssignmentParse(v: string, x: string, y: string, s: string)
    ensures ParseTokens([Token(TPackage, v), Token(TAssign, ":="), Token(TPackage, x), Token(TSelector, s), Token(TSemicolon, ";"), Token(TPackage, y), Token(TOp, "+"), Token(TPackage, v)]) == Parsed(Program([Assignment(v, Selected(PackageRef(x), s)), Binary("+", PackageRef(y), PackageRef(v))]))
  {
    assert IsOperand(PackageRef(x));
    assert IsOperand(Selected(PackageRef(x), s));
    assert IsStatement(Assignment(v, Selected(PackageRef(x), s)));
    assert IsOperand(PackageRef(y));
    assert IsOperand(PackageRef(v));
    assert IsOperand(Binary("+", PackageRef(y), PackageRef(v)));
    assert forall k :: 0 <= k < |[Assignment(v, Selected(PackageRef(x), s)), Binary("+", PackageRef(y), PackageRef(v))]| ==> IsStatement([Assignment(v, Selected(PackageRef(x), s)), Binary("+", PackageRef(y), PackageRef(v))][k]);
    assert EmitTerm(PackageRef(x)) == [Token(TPackage, x)];
    assert EmitTerm(Selected(PackageRef(x), s)) == EmitTerm(PackageRef(x)) + [Token(TSelector, s)];
    assert EmitExpression(Selected(PackageRef(x), s)) == EmitTerm(Selected(PackageRef(x), s));
    assert EmitValue(Selected(PackageRef(x), s)) == EmitExpression(Selected(PackageRef(x), s));
    assert EmitStatement(Assignment(v, Selected(PackageRef(x), s))) == [Token(TPackage, v), Token(TAssign, ":=")] + EmitValue(Selected(PackageRef(x), s));
    assert EmitTerm(PackageRef(y)) == [Token(TPackage, y)];
    assert EmitExpression(PackageRef(y)) == EmitTerm(PackageRef(y));
    assert EmitTerm(PackageRef(v)) == [Token(TPackage, v)];
    assert EmitExpression(Binary("+", PackageRef(y), PackageRef(v))) == EmitExpression(PackageRef(y)) + [Token(TOp, "+")] + EmitTerm(PackageRef(v));
    assert EmitValue(Binary("+", PackageRef(y), PackageRef(v))) == EmitExpression(Binary("+", PackageRef(y), PackageRef(v)));
    assert EmitStatement(Binary("+", PackageRef(y), PackageRef(v))) == EmitValue(Binary("+", PackageRef(y), PackageRef(v)));
    assert EmitStatements([Binary("+", PackageRef(y), PackageRef(v))]) == EmitStatement(Binary("+", PackageRef(y), PackageRef(v)));
    assert [Assignment(v, Selected(PackageRef(x), s)), Binary("+", PackageRef(y), PackageRef(v))][1..] == [Binary("+", PackageRef(y), PackageRef(v))];
    assert EmitStatements([Assignment(v, Selected(PackageRef(x), s)), Binary("+", PackageRef(y), PackageRef(v))]) == EmitStatement(Assignment(v, Selected(PackageRef(x), s))) + [Token(TSemicolon, ";")] + EmitStatements([Binary("+", PackageRef(y), PackageRef(v))]);
    assert EmitQuery(Program([Assignment(v, Selected(PackageRef(x), s)), Binary("+", PackageRef(y), PackageRef(v))])) == EmitStatements([Assignment(v, Selected(PackageRef(x), s)), Binary("+", PackageRef(y), PackageRef(v))]);
    assert EmitQuery(Program([Assignment(v, Selected(PackageRef(x), s)), Binary("+", PackageRef(y), PackageRef(v))])) == ([Token(TPackage, v), Token(TAssign, ":=")] + (([Token(TPackage, x)]) + [Token(TSelector, s)])) + [Token(TSemicolon, ";")] + (([Token(TPackage, y)]) + [Token(TOp, "+")] + ([Token(TPackage, v)]));
    assert ([Token(TPackage, v), Token(TAssign, ":=")] + (([Token(TPackage, x)]) + [Token(TSelector, s)])) + [Token(TSemicolon, ";")] + (([Token(TPackage, y)]) + [Token(TOp, "+")] + ([Token(TPackage, v)])) == [Token(TPackage, v), Token(TAssign, ":="), Token(TPackage, x), Token(TSelector, s), Token(TSemicolon, ";"), Token(TPackage, y), Token(TOp, "+"), Token(TPackage, v)];
    ParseRound(Program([Assignment(v, Selected(PackageRef(x), s)), Binary("+", PackageRef(y), PackageRef(v))]));
  }

  lemma RowAssignmentPrint(v: string, x: string, y: string, s: string)
    ensures Print(Program([Assignment(v, Selected(PackageRef(x), s)), Binary("+", PackageRef(y), PackageRef(v))])) == v + " := " + x + ":" + s + "; +(" + y + ", " + v + ")"
  {
    assert Print(PackageRef(x)) == x;
    assert Print(Selected(PackageRef(x), s)) == Print(PackageRef(x)) + ":" + s;
    assert Print(Assignment(v, Selected(PackageRef(x), s))) == v + " := " + Print(Selected(PackageRef(x), s));
    assert Print(PackageRef(y)) == y;
    assert Print(PackageRef(v)) == v;
    assert Print(Binary("+", PackageRef(y), PackageRef(v))) == "+" + "(" + Print(PackageRef(y)) + ", " + Print(PackageRef(v)) + ")";
    assert PrintList([Binary("+", PackageRef(y), PackageRef(v))], "; ") == Print(Binary("+", PackageRef(y), PackageRef(v)));
    assert [Assignment(v, Selected(PackageRef(x), s)), Binary("+", PackageRef(y), PackageRef(v))][1..] == [Binary("+", PackageRef(y), PackageRef(v))];
    assert PrintList([Assignment(v, Selected(PackageRef(x), s)), Binary("+", PackageRef(y), PackageRef(v))], "; ") == Print(Assignment(v, Selected(PackageRef(x), s))) + "; " + PrintList([Binary("+", PackageRef(y), PackageRef(v))], "; ");
    assert Print(Program([Assignment(v, Selected(PackageRef(x), s)), Binary("+", PackageRef(y), PackageRef(v))])) == PrintList([Assignment(v, Selected(PackageRef(x), s)), Binary("+", PackageRef(y), PackageRef(v))], "; ");
    assert (v + " := " + ((x) + ":" + s)) + "; " + ("+" + "(" + (y) + ", " + (v) + ")") == v + " := " + x + ":" + s + "; +(" + y + ", " + v + ")";
  }

  /** The row as the test writes it, with the query "q:=x:+test;y+q". */
  lemma RowAssignment()
    ensures Row("q" + (":=" + "x") + (":" + "+test") + ";" + "y" + "+" + "q",
                [Token(TPackage, "q"), Token(TAssign, ":="), Token(TPackage, "x"), Token(TSelector, "+test"), Token(TSemicolon, ";"), Token(TPackage, "y"), Token(TOp, "+"), Token(TPackage, "q")],
                Program([Assignment("q", Selected(PackageRef("x"), "+test")), Binary("+", PackageRef("y"), PackageRef("q"))]),
                "q" + " := " + "x" + ":" + "+test" + "; +(" + "y" + ", " + "q" + ")")
  {
    assert IsSelectorText("+test");
    RowAssignmentOf("q", "x", "y", "+test");
  }
}
