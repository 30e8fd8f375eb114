/**
 * The package-query language: its tokenizer, its parser and the canonical printer.
 */
module Query {
  import opened Wrappers
  import Strings

  // ---------------------------------------------------------------- tokens

  datatype Kind = TPackage | TOp | TLeftParen | TRightParen | TComma | TSelector | TFunc | TAssign | TSemicolon

  /** A token; a selector's text leaves out its `:` and keeps its sign. */
  datatype Token = Token(kind: Kind, text: string)

  predicate IsSpace(c: char) { c == ' ' || c == '\t' || c == '\n' || c == '\r' }

  /** Characters that may appear in a package pattern or function name (`-` and `=` included). */
  predicate IsWordChar(c: char)
  {
    !IsSpace(c) && c != '(' && c != ')' && c != ',' && c != ';' && c != ':' && c != '+'
  }

  predicate IsWord(w: string) { w != [] && forall c :: c in w ==> IsWordChar(c) }

  /** `t` cannot continue a word that ends just before it. */
  predicate Ends(t: string) { t == [] || !IsWordChar(t[0]) }

  /** The length of the longest word at the front of `s`. */
  function WordLen(s: string): (n: nat)
    ensures n <= |s|
  {
    if s != [] && IsWordChar(s[0]) then 1 + WordLen(s[1..]) else 0
  }

  function Cons(t: Token, rest: Option<seq<Token>>): Option<seq<Token>>
  {
    if rest.Some? then Some([t] + rest.value) else None
  }

  /** What the front of a query holds: a blank, a token of some width, or something unreadable. */
  datatype Lexed = Blank | Lexeme(t: Token, width: nat) | Invalid

  /**
   * Reads the token at the front of a query. Parentheses, `,` and `;` stand alone;
   * `:=` is an assignment; `+` or `-` at the start of a token is an operator; `:`
   * starts a selector (an optional sign and a word); any other run of word characters
   * is a package pattern, or a function name when `(` follows at once. A `:` with no
   * word after it is unreadable.
   */
  function Lex(s: string): (r: Lexed)
    requires s != []
    ensures r.Lexeme? ==> 1 <= r.width <= |s|
  {
    if IsSpace(s[0]) then Blank
    else if IsMark(s[0]) then Lexeme(Mark(s[0]), 1)
    else if s[0] == ':' then LexColon(s)
    else LexWord(s)
  }

  /** Characters that are a token by themselves. */
  predicate IsMark(c: char) { c == '(' || c == ')' || c == ',' || c == ';' || c == '+' || c == '-' }

  function Mark(c: char): Token
    requires IsMark(c)
  {
    if c == '(' then Token(TLeftParen, "(")
    else if c == ')' then Token(TRightParen, ")")
    else if c == ',' then Token(TComma, ",")
    else if c == ';' then Token(TSemicolon, ";")
    else Token(TOp, [c])
  }

  /** After a `:`: an assignment, or a selector made of an optional sign and a word. */
  function LexColon(s: string): (r: Lexed)
    requires s != [] && s[0] == ':'
    ensures r.Lexeme? ==> 2 <= r.width <= |s|
  {
    if |s| >= 2 && s[1] == '=' then Lexeme(Token(TAssign, ":="), 2)
    else if |s| >= 2 && (s[1] == '+' || s[1] == '-') then LexSelector(s, 2)
    else LexSelector(s, 1)
  }

  /** A selector whose word starts at `k`; its text runs from just after the `:` to the end of the word. */
  function LexSelector(s: string, k: nat): (r: Lexed)
    requires 1 <= k <= |s|
    ensures r.Lexeme? ==> k < r.width <= |s|
  {
    if WordLen(s[k..]) == 0 then Invalid
    else Lexeme(Token(TSelector, s[1..k + WordLen(s[k..])]), k + WordLen(s[k..]))
  }

  /** A run of word characters: a function name when `(` follows at once, a package pattern otherwise. */
  function LexWord(s: string): (r: Lexed)
    requires s != [] && IsWordChar(s[0])
    ensures r.Lexeme? && 1 <= r.width <= |s|
  {
    Lexeme(Token(if WordLen(s) < |s| && s[WordLen(s)] == '(' then TFunc else TPackage, s[..WordLen(s)]), WordLen(s))
  }

  /** Splits a query into tokens, dropping blanks; an unreadable spot rejects the whole query. */
  function Tokenize(s: string): Option<seq<Token>>
    decreases |s|
  {
    if s == [] then Some([])
    else match Lex(s)
      case Blank => Tokenize(s[1..])
      case Lexeme(t, n) => Cons(t, Tokenize(s[n..]))
      case Invalid => None
  }

  /** How a token is written in a query. */
  function Spell(t: Token): string
  {
    if t.kind == TSelector then ":" + t.text else t.text
  }

  /** A selector's text: a sign and a word, or a word that does not start with `=`. */
  predicate IsSelectorText(x: string)
  {
    if x != [] && (x[0] == '+' || x[0] == '-') then IsWord(x[1..]) else IsWord(x) && x[0] != '='
  }

  /** The tokens the tokenizer can produce. */
  predicate WellSpelled(t: Token)
  {
    match t.kind
    case TPackage => IsWord(t.text) && t.text[0] != '-'
    case TFunc => IsWord(t.text) && t.text[0] != '-'
    case TSelector => IsSelectorText(t.text)
    case TOp => t.text == "+" || t.text == "-"
    case TLeftParen => t.text == "("
    case TRightParen => t.text == ")"
    case TComma => t.text == ","
    case TSemicolon => t.text == ";"
    case TAssign => t.text == ":="
  }

  /** What may follow a token's spelling without changing how it is read. */
  predicate Follows(t: Token, rest: string)
  {
    match t.kind
    case TPackage => Ends(rest) && !(rest != [] && rest[0] == '(')
    case TFunc => rest != [] && rest[0] == '('
    case TSelector => Ends(rest)
    case _ => true
  }

  predicate IsBlank(gap: string) { forall c :: c in gap ==> c == ' ' }

  lemma {:induction false} WordLenOf(w: string, t: string)
    requires forall c :: c in w ==> IsWordChar(c)
    requires Ends(t)
    ensures WordLen(w + t) == |w|
  {
    if w != [] {
      assert (w + t)[0] == w[0] && w[0] in w;
      assert (w + t)[1..] == w[1..] + t;
      assert forall c :: c in w[1..] ==> c in w;
      WordLenOf(w[1..], t);
    } else {
      assert w + t == t;
    }
  }

  /** Blanks in front of a query change nothing. */
  lemma {:induction false} TokenizeBlank(gap: string, t: string)
    requires IsBlank(gap)
    ensures Tokenize(gap + t) == Tokenize(t)
  {
    if gap != [] {
      assert (gap + t)[0] == gap[0] && gap[0] in gap && (gap + t)[1..] == gap[1..] + t;
      assert forall c :: c in gap[1..] ==> c in gap;
      TokenizeBlank(gap[1..], t);
    } else {
      assert gap + t == t;
    }
  }

  /** A word followed by a rest that ends it is one package or function token. */
  lemma TokenizeWord(x: string, rest: string, ts: seq<Token>)
    requires IsWord(x) && x[0] != '-' && Ends(rest)
    requires Tokenize(rest) == Some(ts)
    ensures Tokenize(x + rest) == Some([Token(if rest != [] && rest[0] == '(' then TFunc else TPackage, x)] + ts)
  {
    WordLenOf(x, rest);
    var s := x + rest;
    assert s[0] == x[0] && x[0] in x;
    assert s[..|x|] == x && s[|x|..] == rest;
    assert Lex(s) == Lexeme(Token(if rest != [] && rest[0] == '(' then TFunc else TPackage, x), |x|);
  }

  lemma TokenizeSelected(x: string, rest: string, ts: seq<Token>)
    requires IsSelectorText(x) && Ends(rest)
    requires Tokenize(rest) == Some(ts)
    ensures Tokenize(":" + x + rest) == Some([Token(TSelector, x)] + ts)
  {
    var s := ":" + x + rest;
    LexSelected(x, rest);
    assert s[1 + |x|..] == rest;
  }

  lemma LexSelected(x: string, rest: string)
    requires IsSelectorText(x) && Ends(rest)
    ensures Lex(":" + x + rest) == Lexeme(Token(TSelector, x), 1 + |x|)
  {
    var s := ":" + x + rest;
    assert s[0] == ':' && s[1] == x[0];
    assert s[1..1 + |x|] == x;
    if x[0] == '+' || x[0] == '-' {
      WordLenOf(x[1..], rest);
      assert s[2..] == x[1..] + rest;
    } else {
      WordLenOf(x, rest);
      assert s[1..] == x + rest;
    }
  }

  /** A one-character token: a parenthesis, a comma, a semicolon or an operator. */
  lemma TokenizeMark(t: Token, rest: string, ts: seq<Token>)
    requires WellSpelled(t) && t.kind in {TOp, TLeftParen, TRightParen, TComma, TSemicolon}
    requires Tokenize(rest) == Some(ts)
    ensures Tokenize(t.text + rest) == Some([t] + ts)
  {
    var s := t.text + rest;
    assert s[0] == t.text[0] && [s[0]] == t.text && s[1..] == rest;
    assert Lex(s) == Lexeme(t, 1);
  }

  lemma TokenizeAssign(rest: string, ts: seq<Token>)
    requires Tokenize(rest) == Some(ts)
    ensures Tokenize(":=" + rest) == Some([Token(TAssign, ":=")] + ts)
  {
    var s := ":=" + rest;
    assert s[0] == ':' && s[1] == '=' && s[2..] == rest;
  }

  /** One token, spelled after some blanks and followed by a suitable rest, is read back. */
  lemma TokenizeLexeme(gap: string, t: Token, rest: string, ts: seq<Token>)
    requires IsBlank(gap) && WellSpelled(t) && Follows(t, rest)
    requires Tokenize(rest) == Some(ts)
    ensures Tokenize(gap + Spell(t) + rest) == Some([t] + ts)
  {
    assert gap + Spell(t) + rest == gap + (Spell(t) + rest);
    TokenizeBlank(gap, Spell(t) + rest);
    TokenizeToken(t, rest, ts);
  }

  /** One token, spelled right at the front and followed by a suitable rest, is read back. */
  lemma TokenizeToken(t: Token, rest: string, ts: seq<Token>)
    requires WellSpelled(t) && Follows(t, rest)
    requires Tokenize(rest) == Some(ts)
    ensures Tokenize(Spell(t) + rest) == Some([t] + ts)
  {
    if t.kind == TPackage || t.kind == TFunc {
      TokenizeWord(t.text, rest, ts);
    } else if t.kind == TSelector {
      TokenizeSelected(t.text, rest, ts);
    } else if t.kind == TAssign {
      TokenizeAssign(rest, ts);
    } else {
      TokenizeMark(t, rest, ts);
    }
  }

  /** Nothing but blanks reads as no tokens. */
  lemma TokenizeBlanks(gap: string)
    requires IsBlank(gap)
    ensures Tokenize(gap) == Some([])
  {
    TokenizeBlank(gap, "");
    assert gap + "" == gap;
  }

  /** Both token sequences, one after the other, when both texts were readable. */
  function Concat(a: Option<seq<Token>>, b: Option<seq<Token>>): Option<seq<Token>>
  {
    if a.Some? && b.Some? then Some(a.value + b.value) else None
  }

  /**
   * No token can straddle the point between `x` and `y`: `x` does not end in `:`, and
   * either it ends in a character that closes its token or `y` starts with one that
   * cannot continue a word or turn it into a function name.
   */
  predicate Seam(x: string, y: string)
  {
    x == [] || y == [] ||
      (x[|x| - 1] != ':' && (!IsWordChar(x[|x| - 1]) || (!IsWordChar(y[0]) && y[0] != '(')))
  }

  lemma {:induction false} WordLenAppend(w: string, y: string)
    requires WordLen(w) < |w| || Ends(y)
    ensures WordLen(w + y) == WordLen(w)
  {
    if w == [] {
      assert w + y == y;
    } else {
      assert (w + y)[0] == w[0] && (w + y)[1..] == w[1..] + y;
      if IsWordChar(w[0]) {
        WordLenAppend(w[1..], y);
      }
    }
  }

  /** Text after a seam does not change the token at the front. */
  lemma LexAppend(x: string, y: string)
    requires x != [] && Seam(x, y) && Lex(x) != Invalid
    ensures Lex(x + y) == Lex(x)
  {
    if y == [] {
      assert x + y == x;
    } else {
      assert (x + y)[0] == x[0];
      if x[0] == ':' {
        LexColonAppend(x, y);
      } else if !IsSpace(x[0]) && !IsMark(x[0]) {
        LexWordAppend(x, y);
      }
    }
  }

  lemma LexColonAppend(x: string, y: string)
    requires x != [] && x[0] == ':' && y != [] && Seam(x, y) && LexColon(x) != Invalid
    ensures LexColon(x + y) == LexColon(x)
  {
    var s := x + y;
    assert |x| >= 2;
    assert s[0] == ':' && s[1] == x[1];
    if x[1] != '=' {
      var k := if x[1] == '+' || x[1] == '-' then 2 else 1;
      LexSelectorAppend(x, y, k);
    }
  }

  lemma LexSelectorAppend(x: string, y: string, k: nat)
    requires 1 <= k <= |x| && y != [] && Seam(x, y) && LexSelector(x, k) != Invalid
    ensures LexSelector(x + y, k) == LexSelector(x, k)
  {
    var s := x + y;
    var w := x[k..];
    assert s[k..] == w + y;
    if WordLen(w) == |w| {
      assert x[|x| - 1] == w[|w| - 1];
      WordLenChar(w, |w| - 1);
    }
    WordLenAppend(w, y);
    assert s[1..k + WordLen(w)] == x[1..k + WordLen(w)];
  }

  lemma LexWordAppend(x: string, y: string)
    requires x != [] && IsWordChar(x[0]) && y != [] && Seam(x, y)
    ensures LexWord(x + y) == LexWord(x)
  {
    var s := x + y;
    assert s[0] == x[0];
    if WordLen(x) == |x| {
      WordLenChar(x, |x| - 1);
    }
    WordLenAppend(x, y);
    var n := WordLen(x);
    assert s[..n] == x[..n];
    if n == |x| {
      assert s[n] == y[0];
    } else {
      assert s[n] == x[n];
    }
  }

  /** Every character inside the front word is a word character. */
  lemma {:induction false} WordLenChar(w: string, k: nat)
    requires k < WordLen(w)
    ensures IsWordChar(w[k])
  {
    if k > 0 {
      WordLenChar(w[1..], k - 1);
    }
  }

  /** Reading a text cut at a seam reads each part and puts the tokens together. */
  lemma {:induction false} TokenizeAppend(x: string, y: string)
    requires Seam(x, y) && Tokenize(x).Some?
    ensures Tokenize(x + y) == Concat(Tokenize(x), Tokenize(y))
    decreases |x|
  {
    if x == [] {
      assert x + y == y;
      if Tokenize(y).Some? {
        assert [] + Tokenize(y).value == Tokenize(y).value;
      }
    } else {
      LexAppend(x, y);
      var n := if Lex(x).Blank? then 1 else Lex(x).width;
      assert (x + y)[n..] == x[n..] + y;
      assert Seam(x[n..], y) by {
        if x[n..] != [] {
          assert x[n..][|x[n..]| - 1] == x[|x| - 1];
        }
      }
      TokenizeAppend(x[n..], y);
      TokenizeAppendStep(x, y, n);
    }
  }

  lemma TokenizeAppendStep(x: string, y: string, n: nat)
    requires x != [] && Lex(x + y) == Lex(x) && Lex(x) != Invalid
    requires n == if Lex(x).Blank? then 1 else Lex(x).width
    requires Tokenize(x[n..]).Some? ==> Tokenize((x + y)[n..]) == Concat(Tokenize(x[n..]), Tokenize(y))
    ensures Tokenize(x).Some? ==> Tokenize(x + y) == Concat(Tokenize(x), Tokenize(y))
  {
    if Lex(x).Lexeme? && Tokenize(x).Some? && Tokenize(y).Some? {
      var t := Lex(x).t;
      assert [t] + (Tokenize(x[n..]).value + Tokenize(y).value) == [t] + Tokenize(x[n..]).value + Tokenize(y).value;
    }
  }

  /** What `Render` puts after a token: nothing after a function name, a blank otherwise. */
  function Gap(t: Token): string
  {
    if t.kind == TFunc then "" else " "
  }

  /** The tokens written out one after another, blank-separated except between a function name and its `(`. */
  function Render(ts: seq<Token>): string
  {
    if ts == [] then "" else Spell(ts[0]) + Gap(ts[0]) + Render(ts[1..])
  }

  /** Token sequences `Render` can write unambiguously: each function name is followed by `(`. */
  predicate Renderable(ts: seq<Token>)
  {
    ts == [] ||
      (WellSpelled(ts[0]) && (ts[0].kind == TFunc ==> |ts| >= 2 && ts[1].kind == TLeftParen) && Renderable(ts[1..]))
  }

  /** The tokenizer reads back every renderable token sequence. */
  lemma {:induction false} TokenizeRender(ts: seq<Token>)
    requires Renderable(ts)
    ensures Tokenize(Render(ts)) == Some(ts)
  {
    if ts != [] {
      TokenizeRender(ts[1..]);
      RenderFollows(ts);
      TokenizeSpelled(ts[0], Gap(ts[0]), Render(ts[1..]), ts[1..]);
      assert [ts[0]] + ts[1..] == ts;
    }
  }

  /** A token's spelling, then blanks, then a text it may be followed by. */
  lemma TokenizeSpelled(t: Token, gap: string, r: string, ts: seq<Token>)
    requires IsBlank(gap) && WellSpelled(t) && Follows(t, gap + r) && Tokenize(r) == Some(ts)
    ensures Tokenize(Spell(t) + gap + r) == Some([t] + ts)
  {
    TokenizeBlank(gap, r);
    TokenizeToken(t, gap + r, ts);
    Associate(Spell(t), gap, r);
  }


  lemma RenderFollows(ts: seq<Token>)
    requires Renderable(ts) && ts != []
    ensures Follows(ts[0], Gap(ts[0]) + Render(ts[1..]))
  {
    if ts[0].kind == TFunc {
      assert ts[1].kind == TLeftParen && WellSpelled(ts[1]);
      assert Render(ts[1..]) == "(" + Gap(ts[1]) + Render(ts[2..]);
    }
  }

  // ---------------------------------------------------------------- expressions

  datatype Expr =
    | PackageRef(pattern: string)
    | Selected(base: Expr, tag: string)
    | Binary(op: string, left: Expr, right: Expr)
    | Call(name: string, args: seq<Expr>)
    | Juxtaposed(items: seq<Expr>)
    | Assignment(name: string, value: Expr)
    | Program(statements: seq<Expr>)

  /** A parsed prefix: the expression and the tokens after it. */
  datatype Step = Step(e: Expr, rest: seq<Token>)

  /** The parser's verdict: an empty query, an expression, or a rejection. */
  datatype Parse = Nothing | Parsed(expr: Expr) | Rejected

  // Grammar:
  //   query      = statement { ";" statement }
  //   statement  = [ package ":=" ] value
  //   value      = expression { expression }        (two or more: a juxtaposition)
  //   expression = term { op term }                  (left associative)
  //   term       = primary { selector }
  //   primary    = package | func "(" expression { "," expression } ")" | "(" expression ")"

  function Primary(ts: seq<Token>): (r: Option<Step>)
    ensures r.Some? ==> |r.value.rest| < |ts|
    decreases |ts|, 1
  {
    if ts == [] then None
    else if ts[0].kind == TPackage then Some(Step(PackageRef(ts[0].text), ts[1..]))
    else if ts[0].kind == TFunc then
      if |ts| >= 2 && ts[1].kind == TLeftParen then Arguments(ts[2..], ts[0].text, []) else None
    else if ts[0].kind == TLeftParen then
      match Expression(ts[1..])
      case Some(Step(e, r)) => if r != [] && r[0].kind == TRightParen then Some(Step(e, r[1..])) else None
      case None => None
    else None
  }

  /** The arguments of a call after its `(`, up to and including the `)`. */
  function Arguments(ts: seq<Token>, name: string, acc: seq<Expr>): (r: Option<Step>)
    ensures r.Some? ==> |r.value.rest| < |ts|
    decreases |ts|, 4
  {
    match Expression(ts)
    case Some(Step(e, r)) =>
      if r != [] && r[0].kind == TComma then Arguments(r[1..], name, acc + [e])
      else if r != [] && r[0].kind == TRightParen then Some(Step(Call(name, acc + [e]), r[1..]))
      else None
    case None => None
  }

  function Selectors(e: Expr, ts: seq<Token>): (r: Step)
    ensures |r.rest| <= |ts|
    decreases |ts|, 0
  {
    if ts != [] && ts[0].kind == TSelector then Selectors(Selected(e, ts[0].text), ts[1..]) else Step(e, ts)
  }

  function Term(ts: seq<Token>): (r: Option<Step>)
    ensures r.Some? ==> |r.value.rest| < |ts|
    decreases |ts|, 2
  {
    match Primary(ts)
    case Some(Step(e, r)) => Some(Selectors(e, r))
    case None => None
  }

  function Operations(left: Expr, ts: seq<Token>): (r: Option<Step>)
    ensures r.Some? ==> |r.value.rest| <= |ts|
    decreases |ts|, 0
  {
    if ts != [] && ts[0].kind == TOp then
      match Term(ts[1..])
      case Some(Step(right, r)) => Operations(Binary(ts[0].text, left, right), r)
      case None => None
    else Some(Step(left, ts))
  }

  function Expression(ts: seq<Token>): (r: Option<Step>)
    ensures r.Some? ==> |r.value.rest| < |ts|
    decreases |ts|, 3
  {
    match Term(ts)
    case Some(Step(e, r)) => Operations(e, r)
    case None => None
  }

  predicate StartsExpression(k: Kind) { k == TPackage || k == TFunc || k == TLeftParen }

  /** One expression stands for itself; several side by side form a juxtaposition. */
  function Group(items: seq<Expr>): Expr
    requires items != []
  {
    if |items| == 1 then items[0] else Juxtaposed(items)
  }

  function Juxtaposition(items: seq<Expr>, ts: seq<Token>): (r: Option<Step>)
    requires items != []
    ensures r.Some? ==> |r.value.rest| <= |ts|
    decreases |ts|
  {
    if ts != [] && StartsExpression(ts[0].kind) then
      match Expression(ts)
      case Some(Step(e, r)) => Juxtaposition(items + [e], r)
      case None => None
    else Some(Step(Group(items), ts))
  }

  function Value(ts: seq<Token>): (r: Option<Step>)
    ensures r.Some? ==> |r.value.rest| < |ts|
  {
    match Expression(ts)
    case Some(Step(e, r)) => Juxtaposition([e], r)
    case None => None
  }

  function Statement(ts: seq<Token>): (r: Option<Step>)
    ensures r.Some? ==> |r.value.rest| < |ts|
  {
    if |ts| >= 2 && ts[0].kind == TPackage && ts[1].kind == TAssign then
      match Value(ts[2..])
      case Some(Step(v, r)) => Some(Step(Assignment(ts[0].text, v), r))
      case None => None
    else Value(ts)
  }

  function Statements(ts: seq<Token>, acc: seq<Expr>): Option<seq<Expr>>
    decreases |ts|
  {
    match Statement(ts)
    case Some(Step(s, r)) =>
      if r == [] then Some(acc + [s])
      else if r[0].kind == TSemicolon then Statements(r[1..], acc + [s])
      else None
    case None => None
  }

  /** Parses a whole token sequence; no tokens means no expression. */
  function ParseTokens(ts: seq<Token>): Parse
  {
    if ts == [] then Nothing
    else match Statements(ts, [])
      case Some(stmts) => Parsed(if |stmts| == 1 then stmts[0] else Program(stmts))
      case None => Rejected
  }

  // ---------------------------------------------------------------- canonical token forms

  /** Trees an expression can parse to. */
  predicate IsOperand(e: Expr)
  {
    match e
    case PackageRef(_) => true
    case Selected(b, _) => IsOperand(b)
    case Binary(_, l, r) => IsOperand(l) && IsOperand(r)
    case Call(_, args) => args != [] && forall k :: 0 <= k < |args| ==> IsOperand(args[k])
    case _ => false
  }

  predicate IsValue(e: Expr)
  {
    IsOperand(e) || (e.Juxtaposed? && |e.items| >= 2 && forall k :: 0 <= k < |e.items| ==> IsOperand(e.items[k]))
  }

  predicate IsStatement(e: Expr)
  {
    IsValue(e) || (e.Assignment? && IsValue(e.value))
  }

  /** Trees a whole query can parse to. */
  predicate IsQuery(e: Expr)
  {
    IsStatement(e) || (e.Program? && |e.statements| >= 2 && forall k :: 0 <= k < |e.statements| ==> IsStatement(e.statements[k]))
  }

  const LeftParen := Token(TLeftParen, "(")
  const RightParen := Token(TRightParen, ")")

  /** The fewest tokens that spell an expression: parentheses only around a right operand or selected base that is an operation. */
  function EmitExpression(e: Expr): seq<Token>
    decreases e, 1
  {
    match e
    case Binary(op, l, r) => EmitExpression(l) + [Token(TOp, op)] + EmitTerm(r)
    case _ => EmitTerm(e)
  }

  function EmitTerm(e: Expr): seq<Token>
    decreases e, 0
  {
    match e
    case PackageRef(p) => [Token(TPackage, p)]
    case Selected(b, tag) => EmitTerm(b) + [Token(TSelector, tag)]
    case Binary(op, l, r) => [LeftParen] + EmitExpression(l) + [Token(TOp, op)] + EmitTerm(r) + [RightParen]
    case Call(name, args) => [Token(TFunc, name), LeftParen] + EmitArguments(args) + [RightParen]
    case _ => []
  }

  function EmitArguments(args: seq<Expr>): seq<Token>
    decreases args, 2
  {
    if args == [] then []
    else if |args| == 1 then EmitExpression(args[0])
    else EmitExpression(args[0]) + [Token(TComma, ",")] + EmitArguments(args[1..])
  }

  function EmitItems(items: seq<Expr>): seq<Token>
  {
    if items == [] then [] else EmitExpression(items[0]) + EmitItems(items[1..])
  }

  function EmitValue(e: Expr): seq<Token>
  {
    if e.Juxtaposed? then EmitItems(e.items) else EmitExpression(e)
  }

  function EmitStatement(e: Expr): seq<Token>
  {
    if e.Assignment? then [Token(TPackage, e.name), Token(TAssign, ":=")] + EmitValue(e.value) else EmitValue(e)
  }

  function EmitStatements(ss: seq<Expr>): seq<Token>
  {
    if ss == [] then []
    else if |ss| == 1 then EmitStatement(ss[0])
    else EmitStatement(ss[0]) + [Token(TSemicolon, ";")] + EmitStatements(ss[1..])
  }

  function EmitQuery(e: Expr): seq<Token>
  {
    if e.Program? then EmitStatements(e.statements) else EmitStatement(e)
  }

  // ---------------------------------------------------------------- parsing reads back the canonical tokens

  function Size(e: Expr): (n: nat)
    ensures n >= 1
    decreases e, 1
  {
    match e
    case PackageRef(_) => 1
    case Selected(b, _) => 1 + Size(b)
    case Binary(_, l, r) => 1 + Size(l) + Size(r)
    case Call(_, args) => 1 + SizeList(args)
    case Juxtaposed(items) => 1 + SizeList(items)
    case Assignment(_, v) => 1 + Size(v)
    case Program(ss) => 1 + SizeList(ss)
  }

  function SizeList(es: seq<Expr>): nat
    decreases es, 0
  {
    if es == [] then 0 else Size(es[0]) + SizeList(es[1..])
  }

  /** Right operands still to be combined, each with its operator. */
  function SizeMore(more: seq<(string, Expr)>): nat
  {
    if more == [] then 0 else Size(more[0].1) + SizeMore(more[1..])
  }

  function SelTokens(tags: seq<string>): seq<Token>
  {
    if tags == [] then [] else [Token(TSelector, tags[0])] + SelTokens(tags[1..])
  }

  function WithTags(e: Expr, tags: seq<string>): Expr
    decreases |tags|
  {
    if tags == [] then e else WithTags(Selected(e, tags[0]), tags[1..])
  }

  function OpTokens(more: seq<(string, Expr)>): seq<Token>
  {
    if more == [] then [] else [Token(TOp, more[0].0)] + EmitTerm(more[0].1) + OpTokens(more[1..])
  }

  /** `e` combined, left to right, with each right operand of `more`. */
  function Fold(e: Expr, more: seq<(string, Expr)>): Expr
    decreases |more|
  {
    if more == [] then e else Fold(Binary(more[0].0, e, more[0].1), more[1..])
  }

  predicate AllOperands(es: seq<Expr>)
  {
    forall k :: 0 <= k < |es| ==> IsOperand(es[k])
  }

  predicate AllRight(more: seq<(string, Expr)>)
  {
    forall k :: 0 <= k < |more| ==> IsOperand(more[k].1)
  }

  /** A term is over once no selector follows. */
  predicate NoSelector(ts: seq<Token>) { ts == [] || ts[0].kind != TSelector }

  /** An expression is over once no selector and no operator follows. */
  predicate Closes(ts: seq<Token>) { ts == [] || (ts[0].kind != TSelector && ts[0].kind != TOp) }

  /** A value is over once nothing follows that could extend it or start another expression. */
  predicate ValueEnds(ts: seq<Token>) { ts == [] || (Closes(ts) && !StartsExpression(ts[0].kind)) }

  ghost predicate NoAssign(ts: seq<Token>) { forall t :: t in ts ==> t.kind != TAssign }

  lemma NoAssignAppend(a: seq<Token>, b: seq<Token>)
    ensures NoAssign(a + b) <==> NoAssign(a) && NoAssign(b)
  {
    assert forall t :: t in a + b <==> t in a || t in b;
  }

  /** Tokens that start an expression and hold no `:=`. */
  ghost predicate Shaped(ts: seq<Token>)
  {
    ts != [] && StartsExpression(ts[0].kind) && NoAssign(ts)
  }

  /** The canonical tokens of an operand start an expression and hold no `:=`. */
  lemma {:induction false} EmitShape(e: Expr)
    requires IsOperand(e)
    ensures EmitTerm(e) != [] && StartsExpression(EmitTerm(e)[0].kind) && NoAssign(EmitTerm(e))
    ensures EmitExpression(e) != [] && StartsExpression(EmitExpression(e)[0].kind) && NoAssign(EmitExpression(e))
    decreases e, 1
  {
    match e
    case PackageRef(_) =>
    case Selected(b, tag) =>
      EmitShape(b);
      ShapedSelected(EmitTerm(b), tag);
    case Binary(op, l, r) =>
      EmitShape(l);
      EmitShape(r);
      ShapedBinary(EmitExpression(l), op, EmitTerm(r));
    case Call(name, args) =>
      EmitArgumentsShape(args);
      ShapedCall(name, EmitArguments(args));
  }

  lemma ShapedSelected(t: seq<Token>, tag: string)
    requires Shaped(t)
    ensures Shaped(t + [Token(TSelector, tag)])
  {
    NoAssignAppend(t, [Token(TSelector, tag)]);
  }

  lemma ShapedBinary(a: seq<Token>, op: string, t: seq<Token>)
    requires Shaped(a) && Shaped(t)
    ensures Shaped(a + [Token(TOp, op)] + t)
    ensures Shaped([LeftParen] + a + [Token(TOp, op)] + t + [RightParen])
  {
    var inner := a + [Token(TOp, op)] + t;
    NoAssignAppend(a, [Token(TOp, op)]);
    NoAssignAppend(a + [Token(TOp, op)], t);
    NoAssignAppend([LeftParen], inner);
    NoAssignAppend([LeftParen] + inner, [RightParen]);
    assert [LeftParen] + a + [Token(TOp, op)] + t + [RightParen] == [LeftParen] + inner + [RightParen];
  }

  lemma ShapedCall(name: string, u: seq<Token>)
    requires NoAssign(u)
    ensures Shaped([Token(TFunc, name), LeftParen] + u + [RightParen])
  {
    NoAssignAppend([Token(TFunc, name), LeftParen], u);
    NoAssignAppend([Token(TFunc, name), LeftParen] + u, [RightParen]);
  }

  lemma {:induction false} EmitArgumentsShape(args: seq<Expr>)
    requires AllOperands(args)
    ensures NoAssign(EmitArguments(args))
    decreases args, 2
  {
    if args != [] {
      OperandsTail(args);
      EmitShape(args[0]);
      if |args| > 1 {
        EmitArgumentsShape(args[1..]);
        var first := EmitExpression(args[0]) + [Token(TComma, ",")];
        NoAssignAppend(EmitExpression(args[0]), [Token(TComma, ",")]);
        NoAssignAppend(first, EmitArguments(args[1..]));
      }
    }
  }

  lemma {:induction false} SelectorsRound(e: Expr, tags: seq<string>, rest: seq<Token>)
    requires NoSelector(rest)
    ensures Selectors(e, SelTokens(tags) + rest) == Step(WithTags(e, tags), rest)
    decreases tags
  {
    if tags == [] {
      assert SelTokens(tags) + rest == rest;
    } else {
      var t, u := Token(TSelector, tags[0]), SelTokens(tags[1..]) + rest;
      var ts := SelTokens(tags) + rest;
      assert ts == [t] + u;
      assert ts[0] == t && ts[1..] == u;
      assert Selectors(e, ts) == Selectors(Selected(e, tags[0]), u);
      SelectorsRound(Selected(e, tags[0]), tags[1..], rest);
    }
  }

  // One parsing step each, over arbitrary tokens.

  lemma PrimaryPackage(p: string, x: seq<Token>)
    ensures Primary([Token(TPackage, p)] + x) == Some(Step(PackageRef(p), x))
  {
    assert ([Token(TPackage, p)] + x)[1..] == x;
  }

  lemma PrimaryCall(name: string, u: seq<Token>)
    ensures Primary([Token(TFunc, name), LeftParen] + u) == Arguments(u, name, [])
  {
    assert ([Token(TFunc, name), LeftParen] + u)[2..] == u;
  }

  lemma PrimaryParen(u: seq<Token>, e: Expr, x: seq<Token>)
    requires Expression(u) == Some(Step(e, [RightParen] + x))
    ensures Primary([LeftParen] + u) == Some(Step(e, x))
  {
    assert ([LeftParen] + u)[1..] == u;
    assert ([RightParen] + x)[1..] == x;
  }

  lemma TermOf(ts: seq<Token>, e: Expr, x: seq<Token>)
    requires Primary(ts) == Some(Step(e, x))
    ensures Term(ts) == Some(Selectors(e, x))
  {
  }

  lemma ExpressionOf(ts: seq<Token>, e: Expr, x: seq<Token>)
    requires Term(ts) == Some(Step(e, x))
    ensures Expression(ts) == Operations(e, x)
  {
  }

  lemma OperationsStep(left: Expr, op: string, u: seq<Token>, t: Expr, y: seq<Token>)
    requires Term(u) == Some(Step(t, y))
    ensures Operations(left, [Token(TOp, op)] + u) == Operations(Binary(op, left, t), y)
  {
    assert ([Token(TOp, op)] + u)[1..] == u;
  }

  lemma ArgumentsComma(u: seq<Token>, name: string, acc: seq<Expr>, e: Expr, y: seq<Token>)
    requires Expression(u) == Some(Step(e, [Token(TComma, ",")] + y))
    ensures Arguments(u, name, acc) == Arguments(y, name, acc + [e])
  {
    assert ([Token(TComma, ",")] + y)[1..] == y;
  }

  lemma ArgumentsLast(u: seq<Token>, name: string, acc: seq<Expr>, e: Expr, x: seq<Token>)
    requires Expression(u) == Some(Step(e, [RightParen] + x))
    ensures Arguments(u, name, acc) == Some(Step(Call(name, acc + [e]), x))
  {
    assert ([RightParen] + x)[1..] == x;
  }

  /** A term's canonical tokens, followed by selectors, parse back to the term with those selectors applied. */
  lemma {:induction false} TermRound(e: Expr, tags: seq<string>, rest: seq<Token>)
    requires IsOperand(e) && NoSelector(rest)
    ensures Term(EmitTerm(e) + SelTokens(tags) + rest) == Some(Step(WithTags(e, tags), rest))
    decreases Size(e), 1
  {
    match e
    case Selected(b, tag) =>
      TermRound(b, [tag] + tags, rest);
      SelectedShift(b, tag, tags, rest);
    case PackageRef(p) =>
      SelectorsRound(e, tags, rest);
      TermPackage(p, tags, rest);
    case Call(name, args) =>
      ArgumentsRound(name, [], args, SelTokens(tags) + rest);
      SelectorsRound(e, tags, rest);
      TermCall(name, args, tags, rest);
    case Binary(op, l, r) =>
      assert AllRight([(op, r)]);
      assert SizeMore([(op, r)]) == Size(r) + SizeMore([]);
      ExpressionRound(l, [(op, r)], [RightParen] + SelTokens(tags) + rest);
      SelectorsRound(e, tags, rest);
      TermBinary(op, l, r, tags, rest);
  }

  /** A term's canonical tokens, with no selectors after them, parse back to the term. */
  lemma TermBare(e: Expr, rest: seq<Token>)
    requires IsOperand(e) && NoSelector(rest)
    ensures Term(EmitTerm(e) + rest) == Some(Step(e, rest))
    decreases Size(e), 2
  {
    TermRound(e, [], rest);
    assert EmitTerm(e) + SelTokens([]) + rest == EmitTerm(e) + rest;
  }

  lemma TermPackage(p: string, tags: seq<string>, rest: seq<Token>)
    requires Selectors(PackageRef(p), SelTokens(tags) + rest) == Step(WithTags(PackageRef(p), tags), rest)
    ensures Term(EmitTerm(PackageRef(p)) + SelTokens(tags) + rest) == Some(Step(WithTags(PackageRef(p), tags), rest))
  {
    var x := SelTokens(tags) + rest;
    var ts := EmitTerm(PackageRef(p)) + SelTokens(tags) + rest;
    assert ts == [Token(TPackage, p)] + x;
    PrimaryPackage(p, x);
    TermOf(ts, PackageRef(p), x);
  }

  lemma TermCall(name: string, args: seq<Expr>, tags: seq<string>, rest: seq<Token>)
    requires Arguments(EmitArguments(args) + [RightParen] + (SelTokens(tags) + rest), name, []) == Some(Step(Call(name, [] + args), SelTokens(tags) + rest))
    requires Selectors(Call(name, args), SelTokens(tags) + rest) == Step(WithTags(Call(name, args), tags), rest)
    ensures Term(EmitTerm(Call(name, args)) + SelTokens(tags) + rest) == Some(Step(WithTags(Call(name, args), tags), rest))
  {
    var x := SelTokens(tags) + rest;
    var u := EmitArguments(args) + [RightParen] + x;
    var ts := EmitTerm(Call(name, args)) + SelTokens(tags) + rest;
    assert ts == [Token(TFunc, name), LeftParen] + u;
    assert [] + args == args;
    PrimaryCall(name, u);
    TermOf(ts, Call(name, args), x);
  }

  lemma TermBinary(op: string, l: Expr, r: Expr, tags: seq<string>, rest: seq<Token>)
    requires Expression(EmitExpression(l) + OpTokens([(op, r)]) + ([RightParen] + SelTokens(tags) + rest))
      == Some(Step(Fold(l, [(op, r)]), [RightParen] + SelTokens(tags) + rest))
    requires Selectors(Binary(op, l, r), SelTokens(tags) + rest) == Step(WithTags(Binary(op, l, r), tags), rest)
    ensures Term(EmitTerm(Binary(op, l, r)) + SelTokens(tags) + rest) == Some(Step(WithTags(Binary(op, l, r), tags), rest))
  {
    var s := SelTokens(tags);
    var x := s + rest;
    var a := EmitExpression(l);
    var o := [Token(TOp, op)];
    var t := EmitTerm(r);
    var u := a + OpTokens([(op, r)]) + ([RightParen] + s + rest);
    assert OpTokens([(op, r)]) == o + t by {
      assert [(op, r)][1..] == [];
    }
    Regroup(a, o, t, s, rest);
    assert Fold(l, [(op, r)]) == Binary(op, l, r);
    PrimaryParen(u, Binary(op, l, r), x);
    TermOf(EmitTerm(Binary(op, l, r)) + s + rest, Binary(op, l, r), x);
  }

  /** The tokens of a parenthesised operation, regrouped around the opening parenthesis. */
  lemma Regroup(a: seq<Token>, o: seq<Token>, t: seq<Token>, s: seq<Token>, rest: seq<Token>)
    ensures [LeftParen] + a + o + t + [RightParen] + s + rest == [LeftParen] + (a + (o + t) + ([RightParen] + s + rest))
    ensures [RightParen] + s + rest == [RightParen] + (s + rest)
  {
  }

  lemma SelectedShift(b: Expr, tag: string, tags: seq<string>, rest: seq<Token>)
    ensures EmitTerm(b) + SelTokens([tag] + tags) + rest == EmitTerm(Selected(b, tag)) + SelTokens(tags) + rest
    ensures WithTags(b, [tag] + tags) == WithTags(Selected(b, tag), tags)
  {
    assert ([tag] + tags)[1..] == tags;
  }

  /** An expression's canonical tokens, followed by more operations, parse back to the combined expression. */
  lemma {:induction false} ExpressionRound(e: Expr, more: seq<(string, Expr)>, rest: seq<Token>)
    requires IsOperand(e) && AllRight(more) && Closes(rest)
    ensures Expression(EmitExpression(e) + OpTokens(more) + rest) == Some(Step(Fold(e, more), rest))
    decreases Size(e) + SizeMore(more), 3
  {
    if e.Binary? {
      var more' := [(e.op, e.right)] + more;
      assert more'[1..] == more;
      assert AllRight(more');
      ExpressionRound(e.left, more', rest);
      BinaryShift(e.op, e.left, e.right, more, rest);
    } else {
      var x := OpTokens(more) + rest;
      assert NoSelector(x) by {
        if more != [] {
          assert x[0] == Token(TOp, more[0].0);
        }
      }
      TermBare(e, x);
      OperationsRound(e, more, rest);
      ExpressionTerm(e, more, rest);
    }
  }

  lemma ExpressionTerm(e: Expr, more: seq<(string, Expr)>, rest: seq<Token>)
    requires !e.Binary?
    requires Term(EmitTerm(e) + (OpTokens(more) + rest)) == Some(Step(e, OpTokens(more) + rest))
    requires Operations(e, OpTokens(more) + rest) == Some(Step(Fold(e, more), rest))
    ensures Expression(EmitExpression(e) + OpTokens(more) + rest) == Some(Step(Fold(e, more), rest))
  {
    var x := OpTokens(more) + rest;
    var ts := EmitExpression(e) + OpTokens(more) + rest;
    assert EmitExpression(e) == EmitTerm(e);
    Associate(EmitTerm(e), OpTokens(more), rest);
    ExpressionOf(ts, e, x);
  }

  lemma Associate<T>(a: seq<T>, b: seq<T>, c: seq<T>)
    ensures a + (b + c) == a + b + c
  {
  }

  lemma BinaryShift(op: string, l: Expr, r: Expr, more: seq<(string, Expr)>, rest: seq<Token>)
    ensures EmitExpression(l) + OpTokens([(op, r)] + more) + rest == EmitExpression(Binary(op, l, r)) + OpTokens(more) + rest
    ensures Fold(l, [(op, r)] + more) == Fold(Binary(op, l, r), more)
  {
    var more' := [(op, r)] + more;
    assert more'[1..] == more;
    assert OpTokens(more') == [Token(TOp, op)] + EmitTerm(r) + OpTokens(more);
  }

  lemma {:induction false} OperationsRound(left: Expr, more: seq<(string, Expr)>, rest: seq<Token>)
    requires AllRight(more) && Closes(rest)
    ensures Operations(left, OpTokens(more) + rest) == Some(Step(Fold(left, more), rest))
    decreases SizeMore(more), 3
  {
    if more == [] {
      assert OpTokens(more) + rest == rest;
    } else {
      var op, t := more[0].0, more[0].1;
      var y := OpTokens(more[1..]) + rest;
      AllRightTail(more);
      OpTokensSplit(more, rest);
      TermBare(t, y);
      OperationsStep(left, op, EmitTerm(t) + y, t, y);
      OperationsRound(Binary(op, left, t), more[1..], rest);
    }
  }

  lemma AllRightTail(more: seq<(string, Expr)>)
    requires AllRight(more) && more != []
    ensures IsOperand(more[0].1) && AllRight(more[1..])
  {
    forall k | 0 <= k < |more[1..]| ensures IsOperand(more[1..][k].1) {
      assert more[1..][k] == more[k + 1];
    }
  }

  /** The first operator and operand of `more`, and what follows them. */
  lemma OpTokensSplit(more: seq<(string, Expr)>, rest: seq<Token>)
    requires more != [] && Closes(rest)
    ensures OpTokens(more) + rest == [Token(TOp, more[0].0)] + (EmitTerm(more[0].1) + (OpTokens(more[1..]) + rest))
    ensures NoSelector(OpTokens(more[1..]) + rest)
  {
    Reassociate([Token(TOp, more[0].0)], EmitTerm(more[0].1), OpTokens(more[1..]), rest);
    OpTokensClose(more[1..], rest);
  }

  lemma Reassociate(o: seq<Token>, m: seq<Token>, t: seq<Token>, rest: seq<Token>)
    ensures o + m + t + rest == o + (m + (t + rest))
  {
  }

  /** Operations followed by an expression's end are over before any selector. */
  lemma OpTokensClose(more: seq<(string, Expr)>, rest: seq<Token>)
    requires Closes(rest)
    ensures NoSelector(OpTokens(more) + rest)
  {
    if more != [] {
      var t := OpTokens(more);
      assert t[0] == Token(TOp, more[0].0);
      assert (t + rest)[0] == t[0];
    }
  }

  lemma {:induction false} ArgumentsRound(name: string, acc: seq<Expr>, args: seq<Expr>, x: seq<Token>)
    requires args != [] && AllOperands(args)
    ensures Arguments(EmitArguments(args) + [RightParen] + x, name, acc) == Some(Step(Call(name, acc + args), x))
    decreases SizeList(args), 5
  {
    OperandsTail(args);
    assert SizeList(args) == Size(args[0]) + SizeList(args[1..]);
    if |args| == 1 {
      assert EmitArguments(args) == EmitExpression(args[0]);
      ArgumentsOne(name, acc, args[0], x);
      assert acc + [args[0]] == acc + args;
    } else {
      var y := EmitArguments(args[1..]) + [RightParen] + x;
      assert EmitArguments(args) + [RightParen] + x == EmitExpression(args[0]) + [Token(TComma, ",")] + y;
      ArgumentsNext(name, acc, args[0], y);
      ArgumentsRound(name, acc + [args[0]], args[1..], x);
      assert acc + [args[0]] + args[1..] == acc + args;
    }
  }

  /** The last argument, then `)`. */
  lemma ArgumentsOne(name: string, acc: seq<Expr>, e: Expr, x: seq<Token>)
    requires IsOperand(e)
    ensures Arguments(EmitExpression(e) + [RightParen] + x, name, acc) == Some(Step(Call(name, acc + [e]), x))
    decreases Size(e), 4
  {
    ExpressionRound(e, [], [RightParen] + x);
    assert EmitExpression(e) + OpTokens([]) + ([RightParen] + x) == EmitExpression(e) + [RightParen] + x;
    ArgumentsLast(EmitExpression(e) + [RightParen] + x, name, acc, e, x);
  }

  /** An argument followed by a comma: parsing goes on with one more argument collected. */
  lemma ArgumentsNext(name: string, acc: seq<Expr>, e: Expr, y: seq<Token>)
    requires IsOperand(e)
    ensures Arguments(EmitExpression(e) + [Token(TComma, ",")] + y, name, acc) == Arguments(y, name, acc + [e])
    decreases Size(e), 4
  {
    ExpressionRound(e, [], [Token(TComma, ",")] + y);
    assert EmitExpression(e) + OpTokens([]) + ([Token(TComma, ",")] + y) == EmitExpression(e) + [Token(TComma, ",")] + y;
    ArgumentsComma(EmitExpression(e) + [Token(TComma, ",")] + y, name, acc, e, y);
  }

  lemma OperandsTail(es: seq<Expr>)
    requires es != [] && AllOperands(es)
    ensures IsOperand(es[0]) && AllOperands(es[1..])
  {
    forall k | 0 <= k < |es[1..]| ensures IsOperand(es[1..][k]) {
      assert es[1..][k] == es[k + 1];
    }
  }

  /** An operand's canonical tokens parse back to it when nothing follows that extends it. */
  lemma ExpressionRoundTrip(e: Expr, rest: seq<Token>)
    requires IsOperand(e) && Closes(rest)
    ensures Expression(EmitExpression(e) + rest) == Some(Step(e, rest))
  {
    ExpressionRound(e, [], rest);
    assert EmitExpression(e) + OpTokens([]) + rest == EmitExpression(e) + rest;
  }

  lemma {:induction false} EmitItemsShape(items: seq<Expr>)
    requires items != [] && AllOperands(items)
    ensures EmitItems(items) != [] && StartsExpression(EmitItems(items)[0].kind) && NoAssign(EmitItems(items))
    decreases |items|
  {
    EmitShape(items[0]);
    if |items| > 1 {
      assert AllOperands(items[1..]) by {
        forall k | 0 <= k < |items[1..]| ensures IsOperand(items[1..][k]) {
          assert items[1..][k] == items[k + 1];
        }
      }
      EmitItemsShape(items[1..]);
    } else {
      assert EmitItems(items[1..]) == [];
    }
  }

  lemma JuxtapositionStep(items: seq<Expr>, u: seq<Token>, e: Expr, r: seq<Token>)
    requires items != [] && u != [] && StartsExpression(u[0].kind)
    requires Expression(u) == Some(Step(e, r))
    ensures Juxtaposition(items, u) == Juxtaposition(items + [e], r)
  {
  }

  lemma {:induction false} JuxtapositionRound(acc: seq<Expr>, items: seq<Expr>, rest: seq<Token>)
    requires acc != [] && AllOperands(items) && ValueEnds(rest)
    ensures Juxtaposition(acc, EmitItems(items) + rest) == Some(Step(Group(acc + items), rest))
    decreases |items|
  {
    if items == [] {
      assert EmitItems(items) + rest == rest;
      assert acc + items == acc;
    } else {
      OperandsTail(items);
      JuxtapositionFirst(acc, items, rest);
      JuxtapositionRound(acc + [items[0]], items[1..], rest);
      assert acc + [items[0]] + items[1..] == acc + items;
    }
  }

  /** The first of the juxtaposed items is read as one whole expression. */
  lemma JuxtapositionFirst(acc: seq<Expr>, items: seq<Expr>, rest: seq<Token>)
    requires acc != [] && items != [] && AllOperands(items) && ValueEnds(rest)
    ensures Juxtaposition(acc, EmitItems(items) + rest) == Juxtaposition(acc + [items[0]], EmitItems(items[1..]) + rest)
  {
    OperandsTail(items);
    var y := EmitItems(items[1..]) + rest;
    var ts := EmitItems(items) + rest;
    assert ts == EmitExpression(items[0]) + y;
    ItemsClose(items[1..], rest);
    EmitShape(items[0]);
    assert ts[0] == EmitExpression(items[0])[0];
    ExpressionRoundTrip(items[0], y);
    JuxtapositionStep(acc, ts, items[0], y);
  }

  /** What follows an item, more items or the value's end, closes the expression before it. */
  lemma ItemsClose(items: seq<Expr>, rest: seq<Token>)
    requires AllOperands(items) && ValueEnds(rest)
    ensures Closes(EmitItems(items) + rest)
  {
    if items != [] {
      EmitItemsShape(items);
      assert (EmitItems(items) + rest)[0] == EmitItems(items)[0];
    } else {
      assert EmitItems(items) + rest == rest;
    }
  }

  lemma ValueStep(ts: seq<Token>, e: Expr, r: seq<Token>)
    requires Expression(ts) == Some(Step(e, r))
    ensures Value(ts) == Juxtaposition([e], r)
  {
  }

  /** A value's canonical tokens parse back to it when a statement boundary follows. */
  lemma ValueRound(v: Expr, rest: seq<Token>)
    requires IsValue(v) && ValueEnds(rest)
    ensures Value(EmitValue(v) + rest) == Some(Step(v, rest))
  {
    if v.Juxtaposed? {
      ValueItems(v.items, rest);
      assert Juxtaposed(v.items) == v;
    } else {
      ExpressionRoundTrip(v, rest);
      ValueStep(EmitValue(v) + rest, v, rest);
      assert Juxtaposition([v], rest) == Some(Step(Group([v]), rest));
    }
  }

  /** Two or more juxtaposed items parse back to their juxtaposition. */
  lemma ValueItems(items: seq<Expr>, rest: seq<Token>)
    requires |items| >= 2 && AllOperands(items) && ValueEnds(rest)
    ensures Value(EmitItems(items) + rest) == Some(Step(Juxtaposed(items), rest))
  {
    var tail := items[1..];
    ValueFirst(items, rest);
    JuxtapositionRound([items[0]], tail, rest);
    GroupSplit(items);
  }

  /** Two or more items, split after the first, group as their juxtaposition. */
  lemma GroupSplit(items: seq<Expr>)
    requires |items| >= 2
    ensures Group([items[0]] + items[1..]) == Juxtaposed(items)
  {
    assert [items[0]] + items[1..] == items;
  }

  /** A value's first item is read as one whole expression. */
  lemma ValueFirst(items: seq<Expr>, rest: seq<Token>)
    requires items != [] && AllOperands(items) && ValueEnds(rest)
    ensures AllOperands(items[1..])
    ensures Value(EmitItems(items) + rest) == Juxtaposition([items[0]], EmitItems(items[1..]) + rest)
  {
    OperandsTail(items);
    var y := EmitItems(items[1..]) + rest;
    var ts := EmitItems(items) + rest;
    assert ts == EmitExpression(items[0]) + y;
    ItemsClose(items[1..], rest);
    ExpressionRoundTrip(items[0], y);
    ValueStep(ts, items[0], y);
  }

  lemma EmitValueShape(v: Expr)
    requires IsValue(v)
    ensures EmitValue(v) != [] && NoAssign(EmitValue(v))
  {
    if v.Juxtaposed? {
      EmitItemsShape(v.items);
    } else {
      EmitShape(v);
    }
  }

  /** A statement is over at the end of the query or at a `;`. */
  predicate StatementEnds(ts: seq<Token>) { ts == [] || ts[0].kind == TSemicolon }

  lemma StatementAssign(name: string, u: seq<Token>, v: Expr, r: seq<Token>)
    requires Value(u) == Some(Step(v, r))
    ensures Statement([Token(TPackage, name), Token(TAssign, ":=")] + u) == Some(Step(Assignment(name, v), r))
  {
    assert ([Token(TPackage, name), Token(TAssign, ":=")] + u)[2..] == u;
  }

  lemma StatementValue(ts: seq<Token>)
    requires |ts| >= 2 ==> ts[1].kind != TAssign
    ensures Statement(ts) == Value(ts)
  {
  }

  /** A statement's canonical tokens parse back to it. */
  lemma StatementRound(s: Expr, rest: seq<Token>)
    requires IsStatement(s) && StatementEnds(rest)
    ensures Statement(EmitStatement(s) + rest) == Some(Step(s, rest))
  {
    if s.Assignment? {
      ValueRound(s.value, rest);
      var u := EmitValue(s.value) + rest;
      assert EmitStatement(s) + rest == [Token(TPackage, s.name), Token(TAssign, ":=")] + u;
      StatementAssign(s.name, u, s.value, rest);
    } else {
      ValueRound(s, rest);
      EmitValueShape(s);
      var w := EmitValue(s);
      var ts := w + rest;
      assert |ts| >= 2 ==> ts[1].kind != TAssign by {
        if |ts| >= 2 {
          if |w| >= 2 {
            assert ts[1] == w[1] && w[1] in w;
          } else {
            assert ts[1] == rest[0];
          }
        }
      }
      StatementValue(ts);
    }
  }

  lemma StatementsLast(ts: seq<Token>, acc: seq<Expr>, s: Expr)
    requires Statement(ts) == Some(Step(s, []))
    ensures Statements(ts, acc) == Some(acc + [s])
  {
  }

  lemma StatementsNext(ts: seq<Token>, acc: seq<Expr>, s: Expr, y: seq<Token>)
    requires Statement(ts) == Some(Step(s, [Token(TSemicolon, ";")] + y))
    ensures Statements(ts, acc) == Statements(y, acc + [s])
  {
    assert ([Token(TSemicolon, ";")] + y)[1..] == y;
  }

  /** Statements joined by `;` parse back to the same statements. */
  lemma {:induction false} StatementsRound(acc: seq<Expr>, ss: seq<Expr>)
    requires ss != [] && forall k :: 0 <= k < |ss| ==> IsStatement(ss[k])
    ensures Statements(EmitStatements(ss), acc) == Some(acc + ss)
    decreases |ss|
  {
    if |ss| == 1 {
      StatementsOne(acc, ss);
    } else {
      StatementsFirst(acc, ss);
      StatementsRound(acc + [ss[0]], ss[1..]);
      assert acc + [ss[0]] + ss[1..] == acc + ss;
    }
  }

  /** A single statement is the whole program. */
  lemma StatementsOne(acc: seq<Expr>, ss: seq<Expr>)
    requires |ss| == 1 && IsStatement(ss[0])
    ensures Statements(EmitStatements(ss), acc) == Some(acc + ss)
  {
    var ts := EmitStatements(ss);
    StatementRound(ss[0], []);
    assert EmitStatement(ss[0]) + [] == ts;
    StatementsLast(ts, acc, ss[0]);
    assert acc + [ss[0]] == acc + ss;
  }

  /** The first statement is read up to its `;`, and the rest are all statements. */
  lemma StatementsFirst(acc: seq<Expr>, ss: seq<Expr>)
    requires |ss| > 1 && forall k :: 0 <= k < |ss| ==> IsStatement(ss[k])
    ensures Statements(EmitStatements(ss), acc) == Statements(EmitStatements(ss[1..]), acc + [ss[0]])
    ensures forall k :: 0 <= k < |ss[1..]| ==> IsStatement(ss[1..][k])
  {
    var ts := EmitStatements(ss);
    var y := EmitStatements(ss[1..]);
    assert IsStatement(ss[0]);
    StatementRound(ss[0], [Token(TSemicolon, ";")] + y);
    assert ts == EmitStatement(ss[0]) + [Token(TSemicolon, ";")] + y;
    Associate(EmitStatement(ss[0]), [Token(TSemicolon, ";")], y);
    StatementsNext(ts, acc, ss[0], y);
    forall k | 0 <= k < |ss[1..]| ensures IsStatement(ss[1..][k]) {
      assert ss[1..][k] == ss[k + 1];
    }
  }

  /** Parsing the canonical tokens of any query tree gives back that tree. */
  lemma ParseRound(e: Expr)
    requires IsQuery(e)
    ensures ParseTokens(EmitQuery(e)) == Parsed(e)
  {
    if e.Program? {
      StatementsRound([], e.statements);
      assert [] + e.statements == e.statements;
    } else {
      StatementsRound([], [e]);
      assert EmitStatements([e]) == EmitStatement(e);
      assert [] + [e] == [e];
    }
  }

  // ---------------------------------------------------------------- printing

  /**
   * The clean form of a tree: an operation or juxtaposition in prefix form with its
   * operands in parentheses, call arguments and juxtaposed items separated by `", "`,
   * selectors after their base, an assignment as `name := value`, statements separated
   * by `"; "`.
   */
  function Print(e: Expr): string
    decreases e, 1
  {
    match e
    case PackageRef(p) => p
    case Selected(b, tag) => Print(b) + ":" + tag
    case Binary(op, l, r) => op + "(" + Print(l) + ", " + Print(r) + ")"
    case Call(name, args) => name + "(" + PrintList(args, ", ") + ")"
    case Juxtaposed(items) => "(" + PrintList(items, ", ") + ")"
    case Assignment(name, v) => name + " := " + Print(v)
    case Program(ss) => PrintList(ss, "; ")
  }

  function PrintList(es: seq<Expr>, sep: string): string
    decreases es, 0
  {
    if es == [] then ""
    else if |es| == 1 then Print(es[0])
    else Print(es[0]) + sep + PrintList(es[1..], sep)
  }

  /** Every element's clean form, in order. */
  function PrintAll(es: seq<Expr>): (r: seq<string>)
    ensures |r| == |es|
    ensures forall k :: 0 <= k < |es| ==> r[k] == Print(es[k])
  {
    if es == [] then [] else [Print(es[0])] + PrintAll(es[1..])
  }

  /** A list prints as its elements' clean forms joined by the separator. */
  lemma {:induction false} PrintListJoin(es: seq<Expr>, sep: string)
    ensures PrintList(es, sep) == Strings.Join(PrintAll(es), sep)
  {
    if |es| > 1 {
      PrintListJoin(es[1..], sep);
      Strings.JoinCons(Print(es[0]), PrintAll(es[1..]), sep);
      assert PrintAll(es) == [Print(es[0])] + PrintAll(es[1..]);
    }
  }

  /** Each selector written out as `:` and its text (sign included). */
  function TagsText(tags: seq<string>): string
  {
    if tags == [] then "" else ":" + tags[0] + TagsText(tags[1..])
  }

  /** Selectors print after their base, in the order they were applied, each with its sign. */
  lemma {:induction false} PrintWithTags(e: Expr, tags: seq<string>)
    ensures Print(WithTags(e, tags)) == Print(e) + TagsText(tags)
    decreases |tags|
  {
    if tags == [] {
      assert Print(e) + "" == Print(e);
    } else {
      PrintWithTags(Selected(e, tags[0]), tags[1..]);
      assert WithTags(e, tags) == WithTags(Selected(e, tags[0]), tags[1..]);
      assert Print(Selected(e, tags[0])) == Print(e) + ":" + tags[0];
      assert TagsText(tags) == ":" + tags[0] + TagsText(tags[1..]);
      Associate(Print(e), ":" + tags[0], TagsText(tags[1..]));
      Associate(Print(e), ":", tags[0]);
    }
  }

}
