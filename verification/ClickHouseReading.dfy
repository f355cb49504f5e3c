/** Parsing undoes printing, operator by operator. */
module ClickHouseReading {
  import opened Decimals
  import opened Results
  import opened ClickHouseText
  import opened ClickHouseTokens
  import opened ClickHouseParser
  import opened ClickHousePrinting
  import E = ClickHouseExpr

  // ----- skipping -----

  lemma {:induction false} SkipFront(front: seq<Token>, rest: seq<Token>)
    ensures Skip(front + rest, front) == Some(rest)
  {
    assert (front + rest)[..|front|] == front && (front + rest)[|front|..] == rest;
  }

  lemma {:induction false} SkipNothing(ts: seq<Token>, front: seq<Token>, k: nat)
    requires k < |front| && k < |ts| && ts[k] != front[k]
    ensures Skip(ts, front).None?
  {
    if |front| <= |ts| {
      assert ts[..|front|][k] != front[k];
    }
  }

  /** Nothing in front of the rest continues an expression of the level. */
  predicate Ends(rest: seq<Token>, level: nat) {
    && (rest == [] || rest[0] != OPEN)
    && (level >= 1 ==> Skip(rest, EQUALS).None? && Skip(rest, IN_WORD).None?)
    && (level >= 3 ==> Skip(rest, AND_WORD).None?)
    && (level >= 4 ==> Skip(rest, OR_WORD).None?)
  }

  lemma {:induction false} NothingEnds(level: nat)
    ensures Ends([], level)
  {
  }

  /** Punctuation other than a space or an opening parenthesis ends every level. */
  lemma {:induction false} MarkEnds(c: char, rest: seq<Token>, level: nat)
    requires c != ' ' && c != '('
    ensures Ends([Mark(c)] + rest, level)
  {
    hide Skip;
    var ts := [Mark(c)] + rest;
    SkipNothing(ts, EQUALS, 0);
    SkipNothing(ts, IN_WORD, 0);
    SkipNothing(ts, AND_WORD, 0);
    SkipNothing(ts, OR_WORD, 0);
  }

  /** An operator ends every tighter level. */
  lemma {:induction false} OperatorEnds(rest: seq<Token>)
    ensures Ends(EQUALS + rest, 0) && Ends(IN_WORD + rest, 0)
    ensures Ends(AND_WORD + rest, 2) && Ends(OR_WORD + rest, 3)
    ensures Skip(IN_WORD + rest, EQUALS).None?
  {
    hide Skip;
    SkipNothing(IN_WORD + rest, EQUALS, 1);
    SkipNothing(AND_WORD + rest, EQUALS, 1);
    SkipNothing(AND_WORD + rest, IN_WORD, 1);
    SkipNothing(OR_WORD + rest, EQUALS, 1);
    SkipNothing(OR_WORD + rest, IN_WORD, 1);
    SkipNothing(OR_WORD + rest, AND_WORD, 1);
  }

  lemma {:induction false} EndsTighter(rest: seq<Token>, level: nat, tighter: nat)
    requires Ends(rest, level) && tighter <= level
    ensures Ends(rest, tighter)
  {
    hide Skip;
  }

  // ----- levels -----

  function ParseAt(level: nat, ts: seq<Token>): Option<Parsed> {
    if level == 0 then ParsePrimary(ts)
    else if level == 1 then ParseCompare(ts)
    else if level == 2 then ParseNot(ts)
    else if level == 3 then ParseAnd(ts)
    else ParseOr(ts)
  }

  lemma {:induction false} ComparesOnly(left: E.Expr, rest: seq<Token>)
    requires Ends(rest, 1)
    ensures CompareTail(left, rest) == Some(Parsed(left, rest))
  {
    hide Skip, ParsePrimary, ParseNumbers;
  }

  lemma {:induction false} AndsOnly(left: E.Expr, rest: seq<Token>)
    requires Ends(rest, 3)
    ensures AndTail(left, rest) == Some(Parsed(left, rest))
  {
    hide Skip, ParseNot;
  }

  lemma {:induction false} OrsOnly(left: E.Expr, rest: seq<Token>)
    requires Ends(rest, 4)
    ensures OrTail(left, rest) == Some(Parsed(left, rest))
  {
    hide Skip, ParseAnd;
  }

  lemma {:induction false} Lift(level: nat, ts: seq<Token>, e: E.Expr, rest: seq<Token>)
    requires level < 4 && ParseAt(level, ts) == Some(Parsed(e, rest)) && Ends(rest, level + 1)
    requires level == 1 ==> ts != [] && ts[0] != NOT_WORD[0]
    ensures ParseAt(level + 1, ts) == Some(Parsed(e, rest))
  {
    if level == 0 {
      hide ParsePrimary, CompareTail, Ends;
      ComparesOnly(e, rest);
    } else if level == 1 {
      hide Skip, ParseCompare, Ends;
      SkipNothing(ts, NOT_WORD, 0);
    } else if level == 2 {
      hide ParseNot, AndTail, Ends;
      AndsOnly(e, rest);
    } else {
      hide ParseAnd, OrTail, Ends;
      OrsOnly(e, rest);
    }
  }

  lemma {:induction false} LiftTo(level: nat, goal: nat, ts: seq<Token>, e: E.Expr, rest: seq<Token>)
    requires level <= goal <= 4 && ParseAt(level, ts) == Some(Parsed(e, rest)) && Ends(rest, goal)
    requires level <= 1 < goal ==> ts != [] && ts[0] != NOT_WORD[0]
    ensures ParseAt(goal, ts) == Some(Parsed(e, rest))
    decreases goal - level
  {
    hide ParseAt, Ends;
    if level < goal {
      EndsTighter(rest, goal, level + 1);
      Lift(level, ts, e, rest);
      LiftTo(level + 1, goal, ts, e, rest);
    }
  }

  // ----- first tokens -----

  lemma {:induction false} NumberFirst(n: int)
    ensures NumberTokens(n) != [] && NumberTokens(n)[0] != NOT_WORD[0]
  {
    hide Digits;
    if n >= 0 {
      assert IsDigit(Digits(n)[0]);
    }
  }

  lemma {:induction false} NameFirst(f: E.Function)
    requires !f.Not?
    ensures FunctionName(f) != "NOT"
  {
    assert FunctionName(f)[0] != 'N';
  }

  lemma {:induction false} FirstToken(e: E.Expr)
    requires Printable(e)
    ensures Tokens(e) != [] && (Level(e) <= 1 ==> Tokens(e)[0] != NOT_WORD[0])
  {
    match e
    case Hole =>
    case Ident(_, _) =>
    case Number(n) =>
      hide NumberTokens;
      NumberFirst(n);
    case Call(f, arg) => CallFirst(f, arg);
    case Binary(op, left, right) =>
      hide Tokens, Printable, Level;
      BinaryOperands(op, left, right);
      FirstToken(left);
      BinaryFirst(op, left, right);
    case InList(item, numbers) =>
      hide ListTokens;
      FirstToken(item);
      assert Tokens(e)[0] == Tokens(item)[0];
    case Truth(b) => TruthFirst(b);
    case ArrayAll(variable, body, array_) =>
      ArrayFirst();
      LambdaTokens(variable, Tokens(body), Tokens(array_), []);
  }

  lemma {:induction false} CallFirst(f: E.Function, arg: E.Expr)
    ensures var e := E.Call(f, arg); Tokens(e) != [] && (Level(e) <= 1 ==> Tokens(e)[0] != NOT_WORD[0])
  {
    hide FunctionName, ClosingTokens;
    if !f.Not? {
      NameFirst(f);
    }
  }

  lemma {:induction false} BinaryOperands(op: E.Operator, left: E.Expr, right: E.Expr)
    requires Printable(E.Binary(op, left, right))
    ensures Printable(left) && Printable(right)
    ensures op == E.Equal ==> (left.Binary? || Level(left) == 0) && Level(right) == 0
    ensures op == E.And ==> Level(left) <= 2 && Level(right) <= 2
    ensures op == E.Or ==> Level(left) <= 3
    ensures Level(E.Binary(op, left, right)) == if op == E.Equal then 1 else if op == E.And then 3 else 4
  {
  }

  lemma {:induction false} BinaryFirst(op: E.Operator, left: E.Expr, right: E.Expr)
    requires Tokens(left) != []
    ensures var e := E.Binary(op, left, right);
            Tokens(e) != [] && Tokens(e)[0] == if op == E.Equal && left.Binary? then OPEN else Tokens(left)[0]
  {
    hide InfixTokens;
  }

  lemma {:induction false} TruthFirst(b: bool)
    ensures (if b then "true" else "false") != "NOT"
  {
    assert (if b then "true" else "false")[0] != 'N';
  }

  lemma {:induction false} ArrayFirst()
    ensures "arrayAll" != "NOT"
  {
    assert "arrayAll"[0] != 'N';
  }

  // ----- atoms -----

  lemma {:induction false} ReadsNumber(n: int, rest: seq<Token>)
    requires rest == [] || rest[0] != OPEN
    ensures ParseNumber(NumberTokens(n) + rest) == Some((n, rest))
    ensures ParsePrimary(NumberTokens(n) + rest) == Some(Parsed(E.Number(n), rest))
  {
    hide Digits, ValueOf, ParseCall, ParseOr;
    var ts := NumberTokens(n) + rest;
    if n < 0 {
      ValueOfDigits(-n);
      assert ts[0] == Mark('-') && ts[1] == Word(Digits(-n)) && ts[2..] == rest;
    } else {
      ValueOfDigits(n);
      assert ts[0] == Word(Digits(n)) && ts[1..] == rest;
      assert IsDigit(Digits(n)[0]);
      assert Digits(n) != "true" && Digits(n) != "false";
    }
  }

  lemma {:induction false} ReadsAtom(e: E.Expr, rest: seq<Token>)
    requires Printable(e) && (e.Hole? || e.Ident? || e.Truth?) && (rest == [] || rest[0] != OPEN)
    ensures ParsePrimary(Tokens(e) + rest) == Some(Parsed(e, rest))
  {
    hide ParseCall, ParseOr, ParseNumber, ValueOf;
    var ts := Tokens(e) + rest;
    assert ts[1..] == rest;
    assert "true"[0] != "false"[0];
  }

  // ----- calls -----

  lemma {:induction false} ReadsEnclosed(e: E.Expr, rest: seq<Token>)
    requires ParseOr(Tokens(e) + ([CLOSE] + rest)) == Some(Parsed(e, [CLOSE] + rest))
    ensures ParsePrimary([OPEN] + Tokens(e) + [CLOSE] + rest) == Some(Parsed(e, rest))
  {
    hide ParseOr, ParseCall, Tokens, ParseNumber;
    var ts := [OPEN] + Tokens(e) + [CLOSE] + rest;
    assert ts[0] == OPEN && ts[1..] == Tokens(e) + ([CLOSE] + rest);
    assert ([CLOSE] + rest)[1..] == rest;
  }

  lemma {:induction false} PlainIsNamed(f: E.Function)
    requires !f.Not? && !f.TupleElement?
    ensures PlainFunction(FunctionName(f)) == Some(f)
    ensures FunctionName(f) != "tupleElement" && FunctionName(f) != "arrayAll"
  {
    assert |FunctionName(f)| != 8;
    assert |FunctionName(f)| == 12 ==> FunctionName(f)[0] != 't';
    NamesDiffer(f);
  }

  lemma {:induction false} NamesDiffer(f: E.Function)
    requires !f.Not? && !f.TupleElement?
    ensures PlainFunction(FunctionName(f)) == Some(f)
  {
  }

  lemma {:induction false} ClosingEnds(f: E.Function, rest: seq<Token>)
    requires !f.Not?
    ensures Ends(ClosingTokens(f) + rest, 4)
  {
    hide Ends;
    var ts := ClosingTokens(f) + rest;
    if f.TupleElement? || f.AccurateCastDecimal20? {
      MarkEnds(',', ts[1..], 4);
      assert ts == [Mark(',')] + ts[1..];
    } else {
      MarkEnds(')', ts[1..], 4);
      assert ts == [Mark(')')] + ts[1..];
    }
  }

  lemma {:induction false} ReadsCall(f: E.Function, arg: E.Expr, rest: seq<Token>)
    requires !f.Not? && ParseOr(Tokens(arg) + (ClosingTokens(f) + rest)) == Some(Parsed(arg, ClosingTokens(f) + rest))
    ensures ParsePrimary(Tokens(E.Call(f, arg)) + rest) == Some(Parsed(E.Call(f, arg), rest))
  {
    hide ParseOr, ParseNumber, ParseLambda, FunctionName, PlainFunction, Skip, ClosingTokens, ParseCall, Numeral;
    var ts := Tokens(E.Call(f, arg)) + rest;
    var inside := Tokens(arg) + (ClosingTokens(f) + rest);
    assert ts == [Word(FunctionName(f)), OPEN] + inside;
    assert ts[2..] == inside;
    if f.TupleElement? {
      ReadsElement(f.name, arg, rest);
    } else {
      ReadsPlain(f, arg, rest);
    }
  }

  lemma {:induction false} ReadsPlain(f: E.Function, arg: E.Expr, rest: seq<Token>)
    requires !f.Not? && !f.TupleElement?
    requires ParseOr(Tokens(arg) + (ClosingTokens(f) + rest)) == Some(Parsed(arg, ClosingTokens(f) + rest))
    ensures ParseCall(FunctionName(f), Tokens(arg) + (ClosingTokens(f) + rest)) == Some(Parsed(E.Call(f, arg), rest))
  {
    hide ParseOr, FunctionName, PlainFunction, Skip, ClosingTokens, Tokens, ParseLambda;
    PlainIsNamed(f);
    SkipFront(ClosingTokens(f), rest);
  }

  lemma {:induction false} ReadsElement(name: string, arg: E.Expr, rest: seq<Token>)
    requires var closing := ClosingTokens(E.TupleElement(name));
             ParseOr(Tokens(arg) + (closing + rest)) == Some(Parsed(arg, closing + rest))
    ensures ParseCall(FunctionName(E.TupleElement(name)), Tokens(arg) + (ClosingTokens(E.TupleElement(name)) + rest))
         == Some(Parsed(E.Call(E.TupleElement(name), arg), rest))
  {
    hide ParseOr, PlainFunction, Skip, Tokens, ParseLambda;
    var closing := ClosingTokens(E.TupleElement(name));
    var tail := [Literal(name), CLOSE] + rest;
    assert closing + rest == SEPARATOR + tail;
    SkipFront(SEPARATOR, tail);
    assert tail[2..] == rest;
    assert "tupleElement"[0] != "arrayAll"[0];
  }

  lemma {:induction false} ReadsLambda(variable: string, body: E.Expr, array_: E.Expr, rest: seq<Token>)
    requires var after := Tokens(array_) + ([CLOSE] + rest);
             && ParseOr(Tokens(body) + ([CLOSE] + SEPARATOR + after)) == Some(Parsed(body, [CLOSE] + SEPARATOR + after))
             && ParseOr(after) == Some(Parsed(array_, [CLOSE] + rest))
    ensures ParsePrimary(Tokens(E.ArrayAll(variable, body, array_)) + rest)
         == Some(Parsed(E.ArrayAll(variable, body, array_), rest))
  {
    hide ParseOr, ParseNumber, Skip, Numeral, ParseLambda;
    var after := Tokens(array_) + ([CLOSE] + rest);
    var inside := Tokens(body) + ([CLOSE] + SEPARATOR + after);
    var ts := Tokens(E.ArrayAll(variable, body, array_)) + rest;
    LambdaTokens(variable, Tokens(body), Tokens(array_), rest);
    assert ts[0] == Word("arrayAll") && ts[1] == OPEN;
    assert ts[2..] == [Word(variable)] + (ARROW + inside);
    ReadsBody(variable, body, array_, rest);
  }

  lemma {:induction false} LambdaTokens(variable: string, body: seq<Token>, array_: seq<Token>, rest: seq<Token>)
    ensures [Word("arrayAll"), OPEN, Word(variable)] + ARROW + body + [CLOSE] + SEPARATOR + array_ + [CLOSE] + rest
         == [Word("arrayAll"), OPEN]
            + ([Word(variable)] + (ARROW + (body + ([CLOSE] + SEPARATOR + (array_ + ([CLOSE] + rest))))))
  {
  }

  lemma {:induction false} ReadsBody(variable: string, body: E.Expr, array_: E.Expr, rest: seq<Token>)
    requires var after := Tokens(array_) + ([CLOSE] + rest);
             && ParseOr(Tokens(body) + ([CLOSE] + SEPARATOR + after)) == Some(Parsed(body, [CLOSE] + SEPARATOR + after))
             && ParseOr(after) == Some(Parsed(array_, [CLOSE] + rest))
    ensures var after := Tokens(array_) + ([CLOSE] + rest);
            ParseLambda([Word(variable)] + (ARROW + (Tokens(body) + ([CLOSE] + SEPARATOR + after))))
              == Some(Parsed(E.ArrayAll(variable, body, array_), rest))
  {
    hide ParseOr, Skip, Tokens;
    var after := Tokens(array_) + ([CLOSE] + rest);
    var inside := Tokens(body) + ([CLOSE] + SEPARATOR + after);
    var ts := [Word(variable)] + (ARROW + inside);
    assert ts[1..] == ARROW + inside;
    SkipFront(ARROW, inside);
    SkipFront([CLOSE] + SEPARATOR, after);
    assert ([CLOSE] + rest)[1..] == rest;
  }

  // ----- lists of numbers -----

  lemma {:induction false} ReadsNumbers(numbers: seq<int>, rest: seq<Token>)
    ensures ParseNumbers(ListTokens(numbers) + ([CLOSE] + rest)) == Some((numbers, rest))
    decreases |numbers|
  {
    hide ParseNumber, Skip, NumberTokens;
    var ts := ListTokens(numbers) + ([CLOSE] + rest);
    if numbers == [] {
      assert ts == [CLOSE] + rest && ts[1..] == rest;
    } else if |numbers| == 1 {
      LastNumber(numbers[0], rest);
      assert numbers == [numbers[0]];
    } else {
      var more := ListTokens(numbers[1..]) + ([CLOSE] + rest);
      ReadsNumbers(numbers[1..], rest);
      assert ts == NumberTokens(numbers[0]) + (SEPARATOR + more);
      NextNumber(numbers[0], more);
      assert numbers == [numbers[0]] + numbers[1..];
    }
  }

  lemma {:induction false} NotClosing(n: int, rest: seq<Token>)
    ensures NumberTokens(n) != [] && (NumberTokens(n) + rest)[0] != CLOSE
  {
    hide Digits;
  }

  lemma {:induction false} LastNumber(n: int, rest: seq<Token>)
    ensures ParseNumbers(NumberTokens(n) + ([CLOSE] + rest)) == Some(([n], rest))
  {
    hide ParseNumber, Skip, NumberTokens, ParsePrimary;
    NotClosing(n, [CLOSE] + rest);
    ReadsNumber(n, [CLOSE] + rest);
    assert ([CLOSE] + rest)[1..] == rest;
  }

  lemma {:induction false} NextNumber(n: int, more: seq<Token>)
    ensures ParseNumbers(NumberTokens(n) + (SEPARATOR + more)) ==
              match ParseNumbers(more)
              case None => None
              case Some(others) => Some(([n] + others.0, others.1))
  {
    hide ParseNumber, Skip, NumberTokens, ParsePrimary;
    NotClosing(n, SEPARATOR + more);
    ReadsNumber(n, SEPARATOR + more);
    SkipFront(SEPARATOR, more);
  }

  // ----- operators -----

  lemma {:induction false} ReadsEqual(left: E.Expr, right: E.Expr, rest: seq<Token>)
    requires Ends(rest, 1)
    requires ParsePrimary(Enclosed(left.Binary?, Tokens(left)) + (EQUALS + (Tokens(right) + rest)))
          == Some(Parsed(left, EQUALS + (Tokens(right) + rest)))
    requires ParsePrimary(Tokens(right) + rest) == Some(Parsed(right, rest))
    ensures ParseCompare(Tokens(E.Binary(E.Equal, left, right)) + rest)
         == Some(Parsed(E.Binary(E.Equal, left, right), rest))
  {
    hide ParsePrimary, CompareTail, Ends, Tokens, Enclosed;
    EqualTokens(left, right, rest);
    EqualTail(left, right, rest);
  }

  lemma {:induction false} EqualTokens(left: E.Expr, right: E.Expr, rest: seq<Token>)
    ensures Tokens(E.Binary(E.Equal, left, right)) + rest
         == Enclosed(left.Binary?, Tokens(left)) + (EQUALS + (Tokens(right) + rest))
  {
    hide Tokens, Enclosed;
    BinaryTokens(E.Equal, left, right);
    Unenclosed(Tokens(right));
    Regroup(Enclosed(left.Binary?, Tokens(left)), EQUALS, Tokens(right), rest);
  }

  lemma {:induction false} BinaryTokens(op: E.Operator, left: E.Expr, right: E.Expr)
    ensures Tokens(E.Binary(op, left, right))
         == Enclosed(op == E.Equal && left.Binary?, Tokens(left)) + InfixTokens(op)
            + Enclosed(op == E.Or, Tokens(right))
  {
    hide Enclosed, InfixTokens;
  }

  lemma {:induction false} Regroup(a: seq<Token>, b: seq<Token>, c: seq<Token>, rest: seq<Token>)
    ensures a + b + c + rest == a + (b + (c + rest))
  {
  }

  lemma {:induction false} Unenclosed(ts: seq<Token>)
    ensures Enclosed(false, ts) == ts
  {
  }

  lemma {:induction false} EqualTail(left: E.Expr, right: E.Expr, rest: seq<Token>)
    requires Ends(rest, 1) && ParsePrimary(Tokens(right) + rest) == Some(Parsed(right, rest))
    ensures CompareTail(left, EQUALS + (Tokens(right) + rest)) == Some(Parsed(E.Binary(E.Equal, left, right), rest))
  {
    hide ParsePrimary, Skip, Ends, ParseNumbers, Tokens;
    SkipFront(EQUALS, Tokens(right) + rest);
    ComparesOnly(E.Binary(E.Equal, left, right), rest);
  }

  lemma {:induction false} ReadsIn(item: E.Expr, numbers: seq<int>, rest: seq<Token>)
    requires Ends(rest, 1)
    requires var tail := IN_WORD + (ListTokens(numbers) + ([CLOSE] + rest));
             ParsePrimary(Tokens(item) + tail) == Some(Parsed(item, tail))
    ensures ParseCompare(Tokens(E.InList(item, numbers)) + rest) == Some(Parsed(E.InList(item, numbers), rest))
  {
    hide ParsePrimary, Skip, Ends, ParseNumbers, ListTokens;
    var list := ListTokens(numbers) + ([CLOSE] + rest);
    assert Tokens(E.InList(item, numbers)) + rest == Tokens(item) + (IN_WORD + list);
    OperatorEnds(list);
    SkipFront(IN_WORD, list);
    ReadsNumbers(numbers, rest);
    ComparesOnly(E.InList(item, numbers), rest);
  }

  lemma {:induction false} ReadsNot(arg: E.Expr, rest: seq<Token>)
    requires ParseNot(Tokens(arg) + rest) == Some(Parsed(arg, rest))
    ensures ParseNot(Tokens(E.Call(E.Not, arg)) + rest) == Some(Parsed(E.Call(E.Not, arg), rest))
  {
    hide Skip, ParseCompare;
    var more := Tokens(arg) + rest;
    assert Tokens(E.Call(E.Not, arg)) + rest == NOT_WORD + more;
    SkipFront(NOT_WORD, more);
  }

  lemma {:induction false} ReadsAnd(left: E.Expr, right: E.Expr, rest: seq<Token>)
    requires Ends(rest, 3)
    requires ParseNot(Tokens(left) + (AND_WORD + (Tokens(right) + rest)))
          == Some(Parsed(left, AND_WORD + (Tokens(right) + rest)))
    requires ParseNot(Tokens(right) + rest) == Some(Parsed(right, rest))
    ensures ParseAnd(Tokens(E.Binary(E.And, left, right)) + rest) == Some(Parsed(E.Binary(E.And, left, right), rest))
  {
    hide ParseNot, AndTail, Ends, Tokens;
    AndTokens(left, right, rest);
    AndTailReads(left, right, Tokens(right) + rest, rest);
  }

  lemma {:induction false} AndTokens(left: E.Expr, right: E.Expr, rest: seq<Token>)
    ensures Tokens(E.Binary(E.And, left, right)) + rest == Tokens(left) + (AND_WORD + (Tokens(right) + rest))
  {
    hide Tokens, Enclosed;
    BinaryTokens(E.And, left, right);
    Unenclosed(Tokens(left));
    Unenclosed(Tokens(right));
    Regroup(Tokens(left), AND_WORD, Tokens(right), rest);
  }

  lemma {:induction false} AndTailReads(left: E.Expr, right: E.Expr, ts: seq<Token>, rest: seq<Token>)
    requires Ends(rest, 3) && ParseNot(ts) == Some(Parsed(right, rest))
    ensures AndTail(left, AND_WORD + ts) == Some(Parsed(E.Binary(E.And, left, right), rest))
  {
    hide ParseNot, Skip, Ends;
    SkipFront(AND_WORD, ts);
    AndsOnly(E.Binary(E.And, left, right), rest);
  }

  lemma {:induction false} ReadsOr(left: E.Expr, right: E.Expr, rest: seq<Token>)
    requires Ends(rest, 4)
    requires var tail := OR_WORD + (Enclosed(true, Tokens(right)) + rest);
             ParseAnd(Tokens(left) + tail) == Some(Parsed(left, tail))
    requires ParseAnd(Enclosed(true, Tokens(right)) + rest) == Some(Parsed(right, rest))
    ensures ParseOr(Tokens(E.Binary(E.Or, left, right)) + rest) == Some(Parsed(E.Binary(E.Or, left, right), rest))
  {
    hide ParseAnd, OrTail, Ends, Tokens, Enclosed;
    OrTokens(left, right, rest);
    OrTailReads(left, right, Enclosed(true, Tokens(right)) + rest, rest);
  }

  lemma {:induction false} OrTokens(left: E.Expr, right: E.Expr, rest: seq<Token>)
    ensures Tokens(E.Binary(E.Or, left, right)) + rest
         == Tokens(left) + (OR_WORD + (Enclosed(true, Tokens(right)) + rest))
  {
    hide Tokens, Enclosed;
    BinaryTokens(E.Or, left, right);
    Unenclosed(Tokens(left));
    Regroup(Tokens(left), OR_WORD, Enclosed(true, Tokens(right)), rest);
  }

  lemma {:induction false} OrTailReads(left: E.Expr, right: E.Expr, ts: seq<Token>, rest: seq<Token>)
    requires Ends(rest, 4) && ParseAnd(ts) == Some(Parsed(right, rest))
    ensures OrTail(left, OR_WORD + ts) == Some(Parsed(E.Binary(E.Or, left, right), rest))
  {
    hide ParseAnd, Skip, Ends;
    SkipFront(OR_WORD, ts);
    OrsOnly(E.Binary(E.Or, left, right), rest);
  }

  // ----- every printable expression -----

  /** At any level that its operator allows. */
  lemma {:induction false} Reads(e: E.Expr, level: nat, rest: seq<Token>)
    requires Printable(e) && Level(e) <= level <= 4 && Ends(rest, level)
    ensures ParseAt(level, Tokens(e) + rest) == Some(Parsed(e, rest))
    decreases e, 1
  {
    hide Printable, Tokens, ParseAt, Ends, Level;
    EndsTighter(rest, level, Level(e));
    ReadsExactly(e, rest);
    FirstToken(e);
    LiftTo(Level(e), level, Tokens(e) + rest, e, rest);
  }

  lemma {:induction false} ReadsExactly(e: E.Expr, rest: seq<Token>)
    requires Printable(e) && Ends(rest, Level(e))
    ensures ParseAt(Level(e), Tokens(e) + rest) == Some(Parsed(e, rest))
    decreases e, 0
  {
    hide ParsePrimary, ParseCompare, ParseNot, ParseAnd, ParseOr, Tokens;
    match e
    case Call(f, arg) =>
      if f.Not? {
        Reads(arg, 2, rest);
        ReadsNot(arg, rest);
      } else {
        ClosingEnds(f, rest);
        Reads(arg, 4, ClosingTokens(f) + rest);
        ReadsCall(f, arg, rest);
      }
    case Binary(op, left, right) => ReadsBinary(op, left, right, rest);
    case InList(item, numbers) =>
      OperatorEnds(ListTokens(numbers) + ([CLOSE] + rest));
      Reads(item, 0, IN_WORD + (ListTokens(numbers) + ([CLOSE] + rest)));
      ReadsIn(item, numbers, rest);
    case ArrayAll(variable, body, array_) =>
      MarkEnds(')', rest, 4);
      Reads(array_, 4, [CLOSE] + rest);
      var after := Tokens(array_) + ([CLOSE] + rest);
      MarkEnds(')', SEPARATOR + after, 4);
      assert [CLOSE] + SEPARATOR + after == [CLOSE] + (SEPARATOR + after);
      Reads(body, 4, [CLOSE] + SEPARATOR + after);
      ReadsLambda(variable, body, array_, rest);
    case Number(n) =>
      NumberIs(n);
      ReadsNumber(n, rest);
    case _ => ReadsAtom(e, rest);
  }

  lemma {:induction false} NumberIs(n: int)
    ensures Tokens(E.Number(n)) == NumberTokens(n)
  {
  }

  lemma {:induction false} ReadsBinary(op: E.Operator, left: E.Expr, right: E.Expr, rest: seq<Token>)
    requires Printable(E.Binary(op, left, right)) && Ends(rest, Level(E.Binary(op, left, right)))
    ensures ParseAt(Level(E.Binary(op, left, right)), Tokens(E.Binary(op, left, right)) + rest)
         == Some(Parsed(E.Binary(op, left, right), rest))
    decreases E.Binary(op, left, right), -1
  {
    hide ParsePrimary, ParseCompare, ParseNot, ParseAnd, ParseOr, Tokens, Printable, Level, Ends, Enclosed;
    BinaryOperands(op, left, right);
    match op
    case Equal =>
      var tail := EQUALS + (Tokens(right) + rest);
      OperatorEnds(Tokens(right) + rest);
      EndsTighter(rest, 1, 0);
      Reads(right, 0, rest);
      if left.Binary? {
        EnclosedReads(left, tail);
      } else {
        Unenclosed(Tokens(left));
        Reads(left, 0, tail);
      }
      ReadsEqual(left, right, rest);
    case And =>
      OperatorEnds(Tokens(right) + rest);
      EndsTighter(rest, 3, 2);
      Reads(left, 2, AND_WORD + (Tokens(right) + rest));
      Reads(right, 2, rest);
      ReadsAnd(left, right, rest);
    case Or =>
      var enclosed := Enclosed(true, Tokens(right));
      OperatorEnds(enclosed + rest);
      Reads(left, 3, OR_WORD + (enclosed + rest));
      EnclosedReads(right, rest);
      EndsTighter(rest, 4, 3);
      EnclosedFirst(Tokens(right), rest);
      LiftTo(0, 3, enclosed + rest, right, rest);
      ReadsOr(left, right, rest);
  }

  lemma {:induction false} EnclosedFirst(ts: seq<Token>, rest: seq<Token>)
    ensures (Enclosed(true, ts) + rest) != [] && (Enclosed(true, ts) + rest)[0] == OPEN
  {
  }

  lemma {:induction false} EnclosedReads(e: E.Expr, rest: seq<Token>)
    requires Printable(e)
    ensures ParsePrimary(Enclosed(true, Tokens(e)) + rest) == Some(Parsed(e, rest))
    decreases e, 2
  {
    hide ParsePrimary, ParseCompare, ParseNot, ParseAnd, ParseOr, Tokens, Printable, Level, Ends;
    MarkEnds(')', rest, 4);
    LevelBound(e);
    Reads(e, 4, [CLOSE] + rest);
    ReadsEnclosed(e, rest);
  }

  lemma {:induction false} LevelBound(e: E.Expr)
    ensures Level(e) <= 4
  {
  }

  /** The text of a printable expression reads back as that expression. */
  lemma {:induction false} ParseUndoesRender(e: E.Expr)
    requires Printable(e)
    ensures Parse(Render(e)) == Some(e)
  {
    hide Read, Render, Tokens, ParsePrimary, ParseCompare, ParseNot, ParseAnd, ParseOr, Printable, Level, Ends;
    TokensSpelled(e);
    TokensSpaced(e);
    ReadSpelled(Tokens(e));
    NothingEnds(4);
    LevelBound(e);
    Reads(e, 4, []);
    assert Tokens(e) + [] == Tokens(e);
  }

  /** Two printable expressions never share a text. */
  lemma {:induction false} RenderInjective(a: E.Expr, b: E.Expr)
    requires Printable(a) && Printable(b) && Render(a) == Render(b)
    ensures a == b
  {
    hide Render, Parse, Printable;
    ParseUndoesRender(a);
    ParseUndoesRender(b);
  }
}
