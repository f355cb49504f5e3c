/** The printer is unambiguous on every expression the renderer emits: the text
    reads back as the expression that was printed. */
module ClickHousePrinting {
  import opened Decimals
  import opened ClickHouseText
  import opened ClickHouseTokens
  import opened ClickHouseParser
  import E = ClickHouseExpr

  /** How loosely an expression's outermost operator binds. */
  function Level(e: E.Expr): nat {
    match e
    case Call(f, _) => if f.Not? then 2 else 0
    case Binary(op, _, _) => (match op case Equal => 1 case And => 3 case Or => 4)
    case InList(_, _) => 1
    case _ => 0
  }

  /** A name that reads as itself when it stands bare. */
  predicate BareName(name: string) {
    IsWord(name) && !AllDigits(name) && name != "true" && name != "false" && name != "NOT"
  }

  /** Operands bind tightly enough for the parentheses that the printer writes. */
  predicate Printable(e: E.Expr) {
    match e
    case Hole => true
    case Ident(name, quoted) => quoted || BareName(name)
    case Number(_) => true
    case Truth(_) => true
    case Call(f, arg) => Printable(arg) && (f.Not? ==> Level(arg) <= 2)
    case Binary(op, left, right) =>
      && Printable(left) && Printable(right)
      && (match op
          case Equal => (left.Binary? || Level(left) == 0) && Level(right) == 0
          case And => Level(left) <= 2 && Level(right) <= 2
          case Or => Level(left) <= 3)
    case InList(item, _) => Printable(item) && Level(item) == 0
    case ArrayAll(variable, body, array_) => BareName(variable) && Printable(body) && Printable(array_)
  }

  // ----- tokens spell the text -----

  lemma {:induction false} SpellOne(t: Token)
    ensures Spell([t]) == Spelling(t)
  {
    hide Spelling;
    assert [t][1..] == [];
    assert Spell([]) == "";
  }

  lemma {:induction false} SpellNext(t: Token, ts: seq<Token>)
    ensures Spell([t] + ts) == Spelling(t) + Spell(ts)
  {
    hide Spelling;
    SpellOne(t);
    SpellJoin([t], ts);
  }

  lemma {:induction false} SpellThree(a: Token, b: Token, c: Token)
    ensures Spell([a, b, c]) == Spelling(a) + Spelling(b) + Spelling(c)
  {
    hide Spelling, Spell;
    assert [a, b, c] == [a] + ([b] + [c]);
    SpellNext(a, [b] + [c]);
    SpellNext(b, [c]);
    SpellOne(c);
  }

  lemma {:induction false} SpellTwo(a: Token, b: Token)
    ensures Spell([a, b]) == Spelling(a) + Spelling(b)
  {
    hide Spelling, Spell;
    assert [a, b] == [a] + [b];
    SpellNext(a, [b]);
    SpellOne(b);
  }

  lemma {:induction false} FixedSpelled()
    ensures Spell(SEPARATOR) == ", " && Spell(EQUALS) == " = " && Spell(OR_WORD) == " OR " && Spell(AND_WORD) == " AND "
    ensures Spell(IN_WORD) == " IN (" && Spell(NOT_WORD) == "NOT " && Spell(ARROW) == " -> ("
    ensures Spell([OPEN]) == "(" && Spell([CLOSE]) == ")" && Spell([]) == ""
  {
    SpellTwo(Mark(','), SPACE);
    SpellThree(SPACE, Mark('='), SPACE);
    SpellThree(SPACE, Word("OR"), SPACE);
    SpellThree(SPACE, Word("AND"), SPACE);
    SpellTwo(Word("NOT"), SPACE);
    SpellOne(OPEN);
    SpellOne(CLOSE);
    LongSpelled();
  }

  lemma {:induction false} LongSpelled()
    ensures Spell(IN_WORD) == " IN (" && Spell(ARROW) == " -> ("
  {
    hide Spell;
    assert IN_WORD == [SPACE, Word("IN")] + [SPACE, OPEN];
    SpellJoin([SPACE, Word("IN")], [SPACE, OPEN]);
    SpellTwo(SPACE, Word("IN"));
    SpellTwo(SPACE, OPEN);
    assert ARROW == [SPACE, Mark('-'), Mark('>')] + [SPACE, OPEN];
    SpellJoin([SPACE, Mark('-'), Mark('>')], [SPACE, OPEN]);
    SpellThree(SPACE, Mark('-'), Mark('>'));
  }

  lemma {:induction false} NumberSpelled(n: int)
    ensures Spell(NumberTokens(n)) == Signed(n)
  {
    hide Spell;
    if n < 0 {
      SpellTwo(Mark('-'), Word(Digits(-n)));
    } else {
      SpellOne(Word(Digits(n)));
    }
  }

  lemma {:induction false} ListSpelled(numbers: seq<int>)
    ensures Spell(ListTokens(numbers)) == Join(numbers)
  {
    hide Spell, NumberTokens, Signed;
    FixedSpelled();
    if |numbers| == 1 {
      NumberSpelled(numbers[0]);
    } else if |numbers| > 1 {
      NumberSpelled(numbers[0]);
      ListSpelled(numbers[1..]);
      SpellJoin(NumberTokens(numbers[0]), SEPARATOR);
      SpellJoin(NumberTokens(numbers[0]) + SEPARATOR, ListTokens(numbers[1..]));
    }
  }

  lemma {:induction false} OpeningSpelled(f: E.Function)
    ensures Spell(OpeningTokens(f)) == Opening(f)
  {
    hide Spell, FunctionName;
    FixedSpelled();
    if f.Not? {
      NotName();
    } else {
      SpellTwo(Word(FunctionName(f)), OPEN);
    }
  }

  lemma {:induction false} NotName()
    ensures FunctionName(E.Not) == "NOT "
  {
  }

  lemma {:induction false} ClosingSpelled(f: E.Function)
    ensures Spell(ClosingTokens(f)) == Closing(f)
  {
    if f.AccurateCastDecimal20? {
      CastClosing();
    } else {
      hide Spell, QuoteLiteral;
      FixedSpelled();
      if f.TupleElement? {
        LiteralSpelled(f.name);
      }
    }
  }

  lemma {:induction false} CastClosing()
    ensures Spell(ClosingTokens(E.AccurateCastDecimal20)) == Closing(E.AccurateCastDecimal20)
  {
    hide Spell, QuoteLiteral;
    LiteralSpelled("Decimal(20, 0)");
    CastQuoted();
    assert ", " + "'Decimal(20, 0)'" + ")" == ", 'Decimal(20, 0)')";
  }

  lemma {:induction false} LiteralSpelled(text: string)
    ensures Spell(SEPARATOR + [Literal(text), CLOSE]) == ", " + QuoteLiteral(text) + ")"
  {
    hide Spell, QuoteLiteral;
    FixedSpelled();
    SpellJoin(SEPARATOR, [Literal(text), CLOSE]);
    SpellTwo(Literal(text), CLOSE);
  }

  lemma {:induction false} PlainLiteral(text: string)
    requires forall k :: 0 <= k < |text| ==> text[k] !in {'\\', '\'', '\n', '\r', '\t'}
    ensures EscapedLiteral(text) == text
  {
    if text != "" {
      PlainLiteral(text[1..]);
      assert text == [text[0]] + text[1..];
    }
  }

  lemma {:induction false} CastQuoted()
    ensures QuoteLiteral("Decimal(20, 0)") == "'Decimal(20, 0)'"
  {
    hide EscapedLiteral;
    PlainLiteral("Decimal(20, 0)");
  }

  lemma {:induction false} EnclosedSpelled(enclose: bool, ts: seq<Token>)
    ensures Spell(Enclosed(enclose, ts)) == Parenthesized(enclose, Spell(ts))
  {
    hide Spell;
    FixedSpelled();
    SpellJoin([OPEN], ts);
    SpellJoin([OPEN] + ts, [CLOSE]);
  }

  lemma {:induction false} InfixSpelled(op: E.Operator)
    ensures Spell(InfixTokens(op)) == Infix(op)
  {
    hide Spell;
    FixedSpelled();
  }

  lemma {:induction false} TokensSpelled(e: E.Expr)
    ensures Spell(Tokens(e)) == Render(e)
  {
    hide Spell, Signed, QuoteIdentifier, NumberTokens, OpeningTokens, ClosingTokens, Opening, Closing, ListTokens, Join,
         InfixTokens, Infix, Enclosed, Parenthesized;
    match e
    case Hole => SpellOne(Value);
    case Ident(name, quoted) => SpellOne(if quoted then Quoted(name) else Word(name));
    case Number(n) => NumberSpelled(n);
    case Truth(b) => SpellOne(Word(if b then "true" else "false"));
    case Call(f, arg) =>
      TokensSpelled(arg);
      OpeningSpelled(f);
      ClosingSpelled(f);
      SpellJoin(OpeningTokens(f), Tokens(arg));
      SpellJoin(OpeningTokens(f) + Tokens(arg), ClosingTokens(f));
    case Binary(op, left, right) =>
      TokensSpelled(left);
      TokensSpelled(right);
      BinarySpelled(op, left, right);
    case InList(item, numbers) =>
      TokensSpelled(item);
      ListSpelled(numbers);
      FixedSpelled();
      SpellJoin(Tokens(item), IN_WORD);
      SpellJoin(Tokens(item) + IN_WORD, ListTokens(numbers));
      SpellJoin(Tokens(item) + IN_WORD + ListTokens(numbers), [CLOSE]);
    case ArrayAll(variable, body, array_) =>
      TokensSpelled(body);
      TokensSpelled(array_);
      LambdaSpelled(variable, Tokens(body), Tokens(array_));
  }

  lemma {:induction false} BinarySpelled(op: E.Operator, left: E.Expr, right: E.Expr)
    requires Spell(Tokens(left)) == Render(left) && Spell(Tokens(right)) == Render(right)
    ensures Spell(Tokens(E.Binary(op, left, right))) == Render(E.Binary(op, left, right))
  {
    hide Spell, InfixTokens, Infix, Enclosed, Parenthesized;
    var a := Enclosed(op == E.Equal && left.Binary?, Tokens(left));
    var b := Enclosed(op == E.Or, Tokens(right));
    EnclosedSpelled(op == E.Equal && left.Binary?, Tokens(left));
    EnclosedSpelled(op == E.Or, Tokens(right));
    InfixSpelled(op);
    SpellJoin(a, InfixTokens(op));
    SpellJoin(a + InfixTokens(op), b);
  }

  lemma {:induction false} LambdaSpelled(variable: string, body: seq<Token>, array_: seq<Token>)
    ensures Spell([Word("arrayAll"), OPEN, Word(variable)] + ARROW + body + [CLOSE] + SEPARATOR + array_ + [CLOSE])
         == LambdaHead(variable) + Spell(body) + "), " + Spell(array_) + ")"
  {
    hide Spell;
    FixedSpelled();
    SpellThree(Word("arrayAll"), OPEN, Word(variable));
    var a := [Word("arrayAll"), OPEN, Word(variable)];
    SpellJoin(a, ARROW);
    SpellJoin(a + ARROW, body);
    SpellJoin(a + ARROW + body, [CLOSE]);
    SpellJoin(a + ARROW + body + [CLOSE], SEPARATOR);
    SpellJoin(a + ARROW + body + [CLOSE] + SEPARATOR, array_);
    SpellJoin(a + ARROW + body + [CLOSE] + SEPARATOR + array_, [CLOSE]);
  }

  // ----- tokens are spaced -----

  lemma {:induction false} DigitsAreWords(n: nat)
    ensures IsWord(Digits(n))
  {
    hide Digits;
    var s := Digits(n);
    forall k | 0 <= k < |s|
      ensures WordChar(s[k])
    {
      assert IsDigit(s[k]);
    }
  }

  lemma {:induction false} NumberSpaced(n: int)
    ensures Spaced(NumberTokens(n)) && NumberTokens(n) != []
  {
    hide Digits, IsWord;
    if n < 0 {
      DigitsAreWords(-n);
    } else {
      DigitsAreWords(n);
    }
  }

  lemma {:induction false} ListSpaced(numbers: seq<int>)
    ensures Spaced(ListTokens(numbers))
  {
    hide Spaced, NumberTokens;
    if numbers == [] {
      NothingSpaced();
    } else {
      NumberSpaced(numbers[0]);
      if |numbers| > 1 {
        FixedSpaced();
        ListSpaced(numbers[1..]);
        SpacedJoin(NumberTokens(numbers[0]), SEPARATOR);
        SpacedJoin(NumberTokens(numbers[0]) + SEPARATOR, ListTokens(numbers[1..]));
      }
    }
  }

  lemma {:induction false} NothingSpaced()
    ensures Spaced([])
  {
  }

  lemma {:induction false} FixedSpaced()
    ensures Spaced(SEPARATOR) && Spaced(EQUALS) && Spaced(OR_WORD) && Spaced(AND_WORD) && Spaced(NOT_WORD)
    ensures Spaced(IN_WORD) && Spaced(ARROW) && Spaced([OPEN]) && Spaced([CLOSE]) && Spaced([])
  {
  }

  lemma {:induction false} NameIsWord(f: E.Function)
    requires !f.Not?
    ensures IsWord(FunctionName(f))
  {
    if f.AccurateCastDecimal20? || f.ToInt64? || f.ToUnixTimestamp64Nano? || f.TupleElement? {
      ConversionIsWord(f);
    } else {
      PredicateIsWord(f);
    }
  }

  lemma {:induction false} ConversionIsWord(f: E.Function)
    requires f.AccurateCastDecimal20? || f.ToInt64? || f.ToUnixTimestamp64Nano? || f.TupleElement?
    ensures IsWord(FunctionName(f))
  {
  }

  lemma {:induction false} PredicateIsWord(f: E.Function)
    requires !f.Not? && !f.AccurateCastDecimal20? && !f.ToInt64? && !f.ToUnixTimestamp64Nano? && !f.TupleElement?
    ensures IsWord(FunctionName(f))
  {
  }

  lemma {:induction false} OpeningSpaced(f: E.Function)
    ensures Spaced(OpeningTokens(f)) && !OpeningTokens(f)[|OpeningTokens(f)| - 1].Word?
  {
    hide FunctionName, IsWord;
    FixedSpaced();
    if !f.Not? {
      NameIsWord(f);
    }
  }

  lemma {:induction false} ClosingSpaced(f: E.Function)
    ensures Spaced(ClosingTokens(f)) && (ClosingTokens(f) == [] || !ClosingTokens(f)[0].Word?)
  {
  }

  lemma {:induction false} EnclosedSpaced(enclose: bool, ts: seq<Token>)
    requires Spaced(ts)
    ensures Spaced(Enclosed(enclose, ts))
  {
    hide Spaced;
    FixedSpaced();
    if enclose {
      SpacedJoin([OPEN], ts);
      SpacedJoin([OPEN] + ts, [CLOSE]);
    }
  }

  lemma {:induction false} TokensSpaced(e: E.Expr)
    requires Printable(e)
    ensures Spaced(Tokens(e))
  {
    hide Spaced, NumberTokens, OpeningTokens, ClosingTokens, ListTokens, InfixTokens, Enclosed, BareName, Level;
    match e
    case Hole => OneSpaced(Value);
    case Ident(name, quoted) => NameSpaced(name, quoted);
    case Number(n) => NumberSpaced(n);
    case Truth(b) => TruthSpaced(b);
    case Call(f, arg) =>
      TokensSpaced(arg);
      CallSpaced(f, Tokens(arg));
    case Binary(op, left, right) =>
      TokensSpaced(left);
      TokensSpaced(right);
      InfixSpaced(op);
      EnclosedSpaced(op == E.Equal && left.Binary?, Tokens(left));
      EnclosedSpaced(op == E.Or, Tokens(right));
      var a := Enclosed(op == E.Equal && left.Binary?, Tokens(left));
      SpacedJoin(a, InfixTokens(op));
      SpacedJoin(a + InfixTokens(op), Enclosed(op == E.Or, Tokens(right)));
    case InList(item, numbers) =>
      TokensSpaced(item);
      ListSpaced(numbers);
      FixedSpaced();
      SpacedJoin(Tokens(item), IN_WORD);
      SpacedJoin(Tokens(item) + IN_WORD, ListTokens(numbers));
      SpacedJoin(Tokens(item) + IN_WORD + ListTokens(numbers), [CLOSE]);
    case ArrayAll(variable, body, array_) =>
      TokensSpaced(body);
      TokensSpaced(array_);
      LambdaSpaced(variable, Tokens(body), Tokens(array_));
  }

  lemma {:induction false} OneSpaced(t: Token)
    requires Readable(t)
    ensures Spaced([t])
  {
    hide Readable;
  }

  lemma {:induction false} NameSpaced(name: string, quoted: bool)
    requires quoted || BareName(name)
    ensures Spaced(if quoted then [Quoted(name)] else [Word(name)])
  {
    hide IsWord;
  }

  lemma {:induction false} TruthSpaced(b: bool)
    ensures Spaced([Word(if b then "true" else "false")])
  {
  }

  lemma {:induction false} InfixSpaced(op: E.Operator)
    ensures Spaced(InfixTokens(op)) && |InfixTokens(op)| == 3
    ensures !InfixTokens(op)[0].Word? && !InfixTokens(op)[2].Word?
  {
    hide Spaced;
    FixedSpaced();
  }

  lemma {:induction false} CallSpaced(f: E.Function, arg: seq<Token>)
    requires Spaced(arg)
    ensures Spaced(OpeningTokens(f) + arg + ClosingTokens(f))
  {
    hide Spaced, OpeningTokens, ClosingTokens;
    OpeningSpaced(f);
    ClosingSpaced(f);
    SpacedJoin(OpeningTokens(f), arg);
    SpacedJoin(OpeningTokens(f) + arg, ClosingTokens(f));
  }

  lemma {:induction false} LambdaSpaced(variable: string, body: seq<Token>, array_: seq<Token>)
    requires BareName(variable) && Spaced(body) && Spaced(array_)
    ensures Spaced([Word("arrayAll"), OPEN, Word(variable)] + ARROW + body + [CLOSE] + SEPARATOR + array_ + [CLOSE])
  {
    hide Spaced;
    FixedSpaced();
    LambdaHeadSpaced(variable);
    var a := [Word("arrayAll"), OPEN, Word(variable)];
    SpacedJoin(a, ARROW);
    SpacedJoin(a + ARROW, body);
    SpacedJoin(a + ARROW + body, [CLOSE]);
    SpacedJoin(a + ARROW + body + [CLOSE], SEPARATOR);
    SpacedJoin(a + ARROW + body + [CLOSE] + SEPARATOR, array_);
    SpacedJoin(a + ARROW + body + [CLOSE] + SEPARATOR + array_, [CLOSE]);
  }

  lemma {:induction false} LambdaHeadSpaced(variable: string)
    requires BareName(variable)
    ensures Spaced([Word("arrayAll"), OPEN, Word(variable)])
  {
    assert IsWord("arrayAll");
  }
}
