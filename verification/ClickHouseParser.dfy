/** Reading the emitted text back, second part: tokens to expressions, with the
    precedence of SQL (OR, then AND, then NOT, then = and IN). */
module ClickHouseParser {
  import opened Decimals
  import opened Results
  import opened ClickHouseText
  import opened ClickHouseTokens
  import E = ClickHouseExpr

  const OPEN := Mark('(')
  const CLOSE := Mark(')')
  const SPACE := Mark(' ')
  const SEPARATOR := [Mark(','), SPACE]
  const EQUALS := [SPACE, Mark('='), SPACE]
  const OR_WORD := [SPACE, Word("OR"), SPACE]
  const AND_WORD := [SPACE, Word("AND"), SPACE]
  const IN_WORD := [SPACE, Word("IN"), SPACE, OPEN]
  const NOT_WORD := [Word("NOT"), SPACE]
  const ARROW := [SPACE, Mark('-'), Mark('>'), SPACE, OPEN]

  // ----- expressions as tokens -----

  function NumberTokens(n: int): seq<Token> {
    if n < 0 then [Mark('-'), Word(Digits(-n))] else [Word(Digits(n))]
  }

  function ListTokens(numbers: seq<int>): seq<Token> {
    if numbers == [] then []
    else if |numbers| == 1 then NumberTokens(numbers[0])
    else NumberTokens(numbers[0]) + SEPARATOR + ListTokens(numbers[1..])
  }

  function OpeningTokens(f: E.Function): seq<Token> {
    if f.Not? then NOT_WORD else [Word(FunctionName(f)), OPEN]
  }

  function ClosingTokens(f: E.Function): seq<Token> {
    match f
    case Not => []
    case TupleElement(name) => SEPARATOR + [Literal(name), CLOSE]
    case AccurateCastDecimal20 => SEPARATOR + [Literal("Decimal(20, 0)"), CLOSE]
    case _ => [CLOSE]
  }

  function InfixTokens(op: E.Operator): seq<Token> {
    match op
    case Equal => EQUALS
    case Or => OR_WORD
    case And => AND_WORD
  }

  function Enclosed(enclose: bool, ts: seq<Token>): seq<Token> {
    if enclose then [OPEN] + ts + [CLOSE] else ts
  }

  function Tokens(e: E.Expr): seq<Token> {
    match e
    case Hole => [Value]
    case Ident(name, quoted) => if quoted then [Quoted(name)] else [Word(name)]
    case Number(n) => NumberTokens(n)
    case Truth(b) => [Word(if b then "true" else "false")]
    case Call(f, arg) => OpeningTokens(f) + Tokens(arg) + ClosingTokens(f)
    case Binary(op, left, right) =>
      Enclosed(op == E.Equal && left.Binary?, Tokens(left)) + InfixTokens(op) + Enclosed(op == E.Or, Tokens(right))
    case InList(item, numbers) => Tokens(item) + IN_WORD + ListTokens(numbers) + [CLOSE]
    case ArrayAll(variable, body, array_) =>
      [Word("arrayAll"), OPEN, Word(variable)] + ARROW + Tokens(body) + [CLOSE] + SEPARATOR + Tokens(array_) + [CLOSE]
  }

  // ----- the parser -----

  datatype Parsed = Parsed(expr: E.Expr, rest: seq<Token>)

  /** What follows the given tokens, if they are in front. */
  function Skip(ts: seq<Token>, front: seq<Token>): (r: Option<seq<Token>>)
    ensures r.Some? ==> |r.value| == |ts| - |front|
  {
    if |front| <= |ts| && ts[..|front|] == front then Some(ts[|front|..]) else None
  }

  predicate Numeral(s: string) { s != "" && AllDigits(s) }

  function ParseNumber(ts: seq<Token>): (r: Option<(int, seq<Token>)>)
    ensures r.Some? ==> |r.value.1| < |ts|
  {
    if ts != [] && ts[0].Word? && Numeral(ts[0].text) then Some((ValueOf(ts[0].text), ts[1..]))
    else if |ts| > 1 && ts[0] == Mark('-') && ts[1].Word? && Numeral(ts[1].text) then
      Some((0 - ValueOf(ts[1].text), ts[2..]))
    else None
  }

  /** Numbers up to the closing parenthesis. */
  function ParseNumbers(ts: seq<Token>): (r: Option<(seq<int>, seq<Token>)>)
    ensures r.Some? ==> |r.value.1| < |ts|
    decreases |ts|
  {
    if ts != [] && ts[0] == CLOSE then Some(([], ts[1..]))
    else
      match ParseNumber(ts)
      case None => None
      case Some(first) =>
        if first.1 != [] && first.1[0] == CLOSE then Some(([first.0], first.1[1..]))
        else
          match Skip(first.1, SEPARATOR)
          case None => None
          case Some(more) =>
            match ParseNumbers(more)
            case None => None
            case Some(others) => Some(([first.0] + others.0, others.1))
  }

  /** The functions that take one argument and nothing else. */
  function PlainFunction(w: string): Option<E.Function> {
    if w == "isNull" then Some(E.IsNull)
    else if w == "isNotNull" then Some(E.IsNotNull)
    else if w == "assumeNotNull" then Some(E.AssumeNotNull)
    else if w == "length" then Some(E.Length)
    else if w == "mapKeys" then Some(E.MapKeys)
    else if w == "mapValues" then Some(E.MapValues)
    else if w == "arrayDistinct" then Some(E.ArrayDistinct)
    else if w == "isValidUTF8" then Some(E.IsValidUTF8)
    else if w == "isValidJSON" then Some(E.IsValidJSON)
    else if w == "accurateCast" then Some(E.AccurateCastDecimal20)
    else if w == "toInt64" then Some(E.ToInt64)
    else if w == "toUnixTimestamp64Nano" then Some(E.ToUnixTimestamp64Nano)
    else None
  }

  function ParsePrimary(ts: seq<Token>): (r: Option<Parsed>)
    ensures r.Some? ==> |r.value.rest| < |ts|
    decreases |ts|, 0
  {
    if ts == [] then None
    else
      match ts[0]
      case Value => Some(Parsed(E.Hole, ts[1..]))
      case Quoted(name) => Some(Parsed(E.Ident(name, true), ts[1..]))
      case Literal(_) => None
      case Mark(c) =>
        if c == '(' then
          match ParseOr(ts[1..]) {
            case None => None
            case Some(inner) =>
              if inner.rest != [] && inner.rest[0] == CLOSE then Some(Parsed(inner.expr, inner.rest[1..])) else None
          }
        else
          match ParseNumber(ts) {
            case None => None
            case Some(number) => Some(Parsed(E.Number(number.0), number.1))
          }
      case Word(w) =>
        if |ts| > 1 && ts[1] == OPEN then ParseCall(w, ts[2..])
        else if w == "true" then Some(Parsed(E.Truth(true), ts[1..]))
        else if w == "false" then Some(Parsed(E.Truth(false), ts[1..]))
        else if Numeral(w) then Some(Parsed(E.Number(ValueOf(w)), ts[1..]))
        else Some(Parsed(E.Ident(w, false), ts[1..]))
  }

  /** What follows a function name and its opening parenthesis. */
  function ParseCall(w: string, ts: seq<Token>): (r: Option<Parsed>)
    ensures r.Some? ==> |r.value.rest| < |ts|
    decreases |ts|, 6
  {
    if w == "arrayAll" then ParseLambda(ts)
    else
      match ParseOr(ts)
      case None => None
      case Some(arg) =>
        if w == "tupleElement" then
          match Skip(arg.rest, SEPARATOR) {
            case None => None
            case Some(more) =>
              if |more| > 1 && more[0].Literal? && more[1] == CLOSE then
                Some(Parsed(E.Call(E.TupleElement(more[0].text), arg.expr), more[2..]))
              else None
          }
        else
          match PlainFunction(w)
          case None => None
          case Some(f) =>
            match Skip(arg.rest, ClosingTokens(f))
            case None => None
            case Some(more) => Some(Parsed(E.Call(f, arg.expr), more))
  }

  function ParseLambda(ts: seq<Token>): (r: Option<Parsed>)
    ensures r.Some? ==> |r.value.rest| < |ts|
    decreases |ts|, 5
  {
    if ts == [] || !ts[0].Word? then None
    else
      match Skip(ts[1..], ARROW)
      case None => None
      case Some(inside) =>
        match ParseOr(inside)
        case None => None
        case Some(body) =>
          match Skip(body.rest, [CLOSE] + SEPARATOR)
          case None => None
          case Some(after) =>
            match ParseOr(after)
            case None => None
            case Some(array_) =>
              if array_.rest != [] && array_.rest[0] == CLOSE then
                Some(Parsed(E.ArrayAll(ts[0].text, body.expr, array_.expr), array_.rest[1..]))
              else None
  }

  function CompareTail(left: E.Expr, ts: seq<Token>): (r: Option<Parsed>)
    ensures r.Some? ==> |r.value.rest| <= |ts|
    decreases |ts|, 1
  {
    match Skip(ts, EQUALS)
    case Some(more) =>
      (match ParsePrimary(more)
       case None => None
       case Some(right) => CompareTail(E.Binary(E.Equal, left, right.expr), right.rest))
    case None =>
      match Skip(ts, IN_WORD)
      case None => Some(Parsed(left, ts))
      case Some(more) =>
        match ParseNumbers(more)
        case None => None
        case Some(list) => CompareTail(E.InList(left, list.0), list.1)
  }

  function ParseCompare(ts: seq<Token>): (r: Option<Parsed>)
    ensures r.Some? ==> |r.value.rest| < |ts|
    decreases |ts|, 1
  {
    match ParsePrimary(ts)
    case None => None
    case Some(left) => CompareTail(left.expr, left.rest)
  }

  function ParseNot(ts: seq<Token>): (r: Option<Parsed>)
    ensures r.Some? ==> |r.value.rest| < |ts|
    decreases |ts|, 2
  {
    match Skip(ts, NOT_WORD)
    case None => ParseCompare(ts)
    case Some(more) =>
      match ParseNot(more)
      case None => None
      case Some(inner) => Some(Parsed(E.Call(E.Not, inner.expr), inner.rest))
  }

  function AndTail(left: E.Expr, ts: seq<Token>): (r: Option<Parsed>)
    ensures r.Some? ==> |r.value.rest| <= |ts|
    decreases |ts|, 3
  {
    match Skip(ts, AND_WORD)
    case None => Some(Parsed(left, ts))
    case Some(more) =>
      match ParseNot(more)
      case None => None
      case Some(right) => AndTail(E.Binary(E.And, left, right.expr), right.rest)
  }

  function ParseAnd(ts: seq<Token>): (r: Option<Parsed>)
    ensures r.Some? ==> |r.value.rest| < |ts|
    decreases |ts|, 3
  {
    match ParseNot(ts)
    case None => None
    case Some(left) => AndTail(left.expr, left.rest)
  }

  function OrTail(left: E.Expr, ts: seq<Token>): (r: Option<Parsed>)
    ensures r.Some? ==> |r.value.rest| <= |ts|
    decreases |ts|, 4
  {
    match Skip(ts, OR_WORD)
    case None => Some(Parsed(left, ts))
    case Some(more) =>
      match ParseAnd(more)
      case None => None
      case Some(right) => OrTail(E.Binary(E.Or, left, right.expr), right.rest)
  }

  function ParseOr(ts: seq<Token>): (r: Option<Parsed>)
    ensures r.Some? ==> |r.value.rest| < |ts|
    decreases |ts|, 4
  {
    match ParseAnd(ts)
    case None => None
    case Some(left) => OrTail(left.expr, left.rest)
  }

  /** A whole text. */
  function Parse(text: string): Option<E.Expr> {
    match Read(text)
    case None => None
    case Some(ts) =>
      match ParseOr(ts)
      case None => None
      case Some(parsed) => if parsed.rest == [] then Some(parsed.expr) else None
  }
}
