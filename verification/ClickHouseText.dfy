/** The expressions as text.  The compiler never builds a tree: it keeps strings
    and replaces the placeholder with strings.ReplaceAll.  That is substitution
    because a placeholder starts with NUL and no identifier contains one. */
module ClickHouseText {
  import opened ClickHouseExpr
  import opened Decimals

  const NUL: char := '\0'
  const PLACEHOLDER: string := [NUL] + "invariant-value" + [NUL]

  // ----- quoting and numbers -----

  function EscapedIdentifier(name: string): string {
    if name == "" then ""
    else (if name[0] == '\\' then "\\\\" else if name[0] == '`' then "\\`" else [name[0]])
         + EscapedIdentifier(name[1..])
  }

  function EscapedLiteral(text: string): string {
    if text == "" then ""
    else
      (if text[0] == '\\' then "\\\\"
       else if text[0] == '\'' then "\\'"
       else if text[0] == '\n' then "\\n"
       else if text[0] == '\r' then "\\r"
       else if text[0] == '\t' then "\\t"
       else [text[0]])
      + EscapedLiteral(text[1..])
  }

  function QuoteIdentifier(name: string): string { "`" + EscapedIdentifier(name) + "`" }

  function QuoteLiteral(text: string): string { "'" + EscapedLiteral(text) + "'" }

  function Join(numbers: seq<int>): string {
    if numbers == [] then ""
    else if |numbers| == 1 then Signed(numbers[0])
    else Signed(numbers[0]) + ", " + Join(numbers[1..])
  }

  // ----- rendering -----

  function FunctionName(f: Function): string {
    match f
    case IsNull => "isNull"
    case IsNotNull => "isNotNull"
    case AssumeNotNull => "assumeNotNull"
    case Length => "length"
    case MapKeys => "mapKeys"
    case MapValues => "mapValues"
    case ArrayDistinct => "arrayDistinct"
    case IsValidUTF8 => "isValidUTF8"
    case IsValidJSON => "isValidJSON"
    case Not => "NOT "
    case TupleElement(_) => "tupleElement"
    case AccurateCastDecimal20 => "accurateCast"
    case ToInt64 => "toInt64"
    case ToUnixTimestamp64Nano => "toUnixTimestamp64Nano"
  }

  /** What follows the argument of a call. */
  function Closing(f: Function): string {
    match f
    case Not => ""
    case TupleElement(name) => ", " + QuoteLiteral(name) + ")"
    case AccurateCastDecimal20 => ", 'Decimal(20, 0)')"
    case _ => ")"
  }

  function Opening(f: Function): string {
    if f.Not? then FunctionName(f) else FunctionName(f) + "("
  }

  function Infix(op: Operator): string {
    match op
    case Equal => " = "
    case Or => " OR "
    case And => " AND "
  }

  /** The text that the renderer emits. */
  function Render(e: Expr): string {
    match e
    case Hole => PLACEHOLDER
    case Ident(name, quoted) => if quoted then QuoteIdentifier(name) else name
    case Number(n) => Signed(n)
    case Truth(b) => if b then "true" else "false"
    case Call(f, arg) => Opening(f) + Render(arg) + Closing(f)
    case Binary(op, left, right) =>
      // `(a = b) = c` and `a OR (b)`
      Parenthesized(op == Equal && left.Binary?, Render(left))
      + Infix(op) + Parenthesized(op == Or, Render(right))
    case InList(item, numbers) => Render(item) + (" IN (" + Join(numbers) + ")")
    case ArrayAll(variable, body, array_) =>
      LambdaHead(variable) + Render(body) + "), " + Render(array_) + ")"
  }

  function LambdaHead(variable: string): string {
    "arrayAll(" + variable + " -> ("
  }

  function Parenthesized(parenthesize: bool, text: string): string {
    if parenthesize then "(" + text + ")" else text
  }

  // ----- strings.ReplaceAll -----

  /** Leftmost, non-overlapping occurrences, replaced in one pass. */
  function ReplaceAll(s: string, old_: string, new_: string): string
    requires old_ != ""
  {
    if |s| < |old_| then s
    else if s[..|old_|] == old_ then new_ + ReplaceAll(s[|old_|..], old_, new_)
    else [s[0]] + ReplaceAll(s[1..], old_, new_)
  }

  function ReplaceValue(text: string, replacement: string): string {
    ReplaceAll(text, PLACEHOLDER, replacement)
  }

  /** Text without NUL is passed over. */
  lemma {:induction false} PlainText(t: string, rest: string, replacement: string)
    requires Clean(t)
    ensures ReplaceValue(t + rest, replacement) == t + ReplaceValue(rest, replacement)
  {
    if t == "" {
      assert t + rest == rest;
    } else {
      var s := t + rest;
      PlainText(t[1..], rest, replacement);
      assert s[1..] == t[1..] + rest;
      if |s| >= |PLACEHOLDER| {
        assert s[..|PLACEHOLDER|][0] == t[0] != PLACEHOLDER[0];
      }
      assert [t[0]] + (t[1..] + ReplaceValue(rest, replacement)) == t + ReplaceValue(rest, replacement);
    }
  }

  lemma {:induction false} PlaceholderText(rest: string, replacement: string)
    ensures ReplaceValue(PLACEHOLDER + rest, replacement) == replacement + ReplaceValue(rest, replacement)
  {
    var s := PLACEHOLDER + rest;
    assert s[..|PLACEHOLDER|] == PLACEHOLDER && s[|PLACEHOLDER|..] == rest;
  }

  lemma {:induction false} EscapedIdentifierClean(name: string)
    requires Clean(name)
    ensures Clean(EscapedIdentifier(name))
  {
    if name != "" {
      EscapedIdentifierClean(name[1..]);
    }
  }

  lemma {:induction false} EscapedLiteralClean(text: string)
    requires Clean(text)
    ensures Clean(EscapedLiteral(text))
  {
    if text != "" {
      EscapedLiteralClean(text[1..]);
    }
  }

  lemma {:induction false} SignedClean(n: int)
    ensures Clean(Signed(n))
  {
  }

  lemma {:induction false} JoinClean(numbers: seq<int>)
    ensures Clean(Join(numbers))
  {
    if numbers != [] {
      SignedClean(numbers[0]);
      JoinClean(numbers[1..]);
    }
  }

  lemma {:induction false} FunctionNameClean(f: Function)
    ensures Clean(FunctionName(f))
  {
    var name := FunctionName(f);
    forall i | 0 <= i < |name|
      ensures name[i] != '\0'
    {
      LettersOnly(f, i);
    }
  }

  lemma {:induction false} LettersOnly(f: Function, i: nat)
    requires i < |FunctionName(f)|
    ensures FunctionName(f)[i] >= ' '
  {
  }

  lemma {:induction false} OpeningClean(f: Function)
    ensures Clean(Opening(f))
  {
    hide FunctionName;
    FunctionNameClean(f);
  }

  lemma {:induction false} ClosingClean(f: Function)
    requires f.TupleElement? ==> Clean(f.name)
    ensures Clean(Closing(f))
  {
    if f.TupleElement? {
      hide EscapedLiteral;
      EscapedLiteralClean(f.name);
    }
  }

  lemma {:induction false} ReplaceLeaf(e: Expr, into: Expr, rest: string)
    requires CleanNames(e) && (e.Ident? || e.Number? || e.Truth?)
    ensures ReplaceValue(Render(e) + rest, Render(into)) == Render(Replace(e, into)) + ReplaceValue(rest, Render(into))
  {
    hide ReplaceValue, EscapedIdentifier, Signed;
    if e.Ident? {
      EscapedIdentifierClean(e.name);
    } else if e.Number? {
      SignedClean(e.n);
    }
    assert Clean(Render(e));
    PlainText(Render(e), rest, Render(into));
  }

  lemma {:induction false} ReplaceCall(e: Expr, into: Expr, rest: string)
    requires e.Call? && CleanNames(e) && !into.Binary?
    ensures ReplaceValue(Render(e) + rest, Render(into)) == Render(Replace(e, into)) + ReplaceValue(rest, Render(into))
    decreases e, 0
  {
    hide ReplaceValue, Opening, Closing;
    OpeningClean(e.function_);
    ClosingClean(e.function_);
    var tail := Closing(e.function_) + rest;
    assert Render(e) + rest == Opening(e.function_) + (Render(e.arg) + tail);
    PlainText(Opening(e.function_), Render(e.arg) + tail, Render(into));
    ReplaceRendered(e.arg, into, tail);
    PlainText(Closing(e.function_), rest, Render(into));
  }

  lemma {:induction false} ReplaceParenthesized(p: bool, e: Expr, into: Expr, rest: string)
    requires CleanNames(e) && !into.Binary?
    ensures ReplaceValue(Parenthesized(p, Render(e)) + rest, Render(into))
         == Parenthesized(p, Render(Replace(e, into))) + ReplaceValue(rest, Render(into))
    decreases e, 2
  {
    hide ReplaceValue, Render, Replace;
    if p {
      assert Parenthesized(p, Render(e)) + rest == "(" + (Render(e) + (")" + rest));
      PlainText("(", Render(e) + (")" + rest), Render(into));
      ReplaceRendered(e, into, ")" + rest);
      PlainText(")", rest, Render(into));
    } else {
      ReplaceRendered(e, into, rest);
    }
  }

  lemma {:induction false} ReplaceBinary(e: Expr, into: Expr, rest: string)
    requires e.Binary? && CleanNames(e) && !into.Binary?
    ensures ReplaceValue(Render(e) + rest, Render(into)) == Render(Replace(e, into)) + ReplaceValue(rest, Render(into))
    decreases e, 0
  {
    hide ReplaceValue, Parenthesized, Infix, Clean;
    var p, q := e.op == Equal && e.left.Binary?, e.op == Or;
    var right := Parenthesized(q, Render(e.right));
    InfixClean(e.op);
    ReplaceParenthesized(p, e.left, into, Infix(e.op) + (right + rest));
    ReplaceParenthesized(q, e.right, into, rest);
    assert Replace(e.left, into).Binary? == e.left.Binary?;
    ReplaceTwo(Parenthesized(p, Render(e.left)), Infix(e.op), right, rest,
      Parenthesized(p, Render(Replace(e.left, into))), Parenthesized(q, Render(Replace(e.right, into))), Render(into));
  }

  lemma {:induction false} InfixClean(op: Operator)
    ensures Clean(Infix(op))
  {
  }

  /** Two replaced parts around a plain one. */
  lemma {:induction false} ReplaceTwo(
    first: string, middle: string, second: string, rest: string, first': string, second': string, replacement: string)
    requires Clean(middle)
    requires ReplaceValue(first + (middle + (second + rest)), replacement)
          == first' + ReplaceValue(middle + (second + rest), replacement)
    requires ReplaceValue(second + rest, replacement) == second' + ReplaceValue(rest, replacement)
    ensures ReplaceValue(first + middle + second + rest, replacement)
         == first' + middle + second' + ReplaceValue(rest, replacement)
  {
    hide ReplaceValue, Clean;
    PlainText(middle, second + rest, replacement);
    assert first + middle + second + rest == first + (middle + (second + rest));
    var done := ReplaceValue(rest, replacement);
    assert first' + (middle + (second' + done)) == first' + middle + second' + done;
  }

  lemma {:induction false} ReplaceInList(e: Expr, into: Expr, rest: string)
    requires e.InList? && CleanNames(e) && !into.Binary?
    ensures ReplaceValue(Render(e) + rest, Render(into)) == Render(Replace(e, into)) + ReplaceValue(rest, Render(into))
    decreases e, 0
  {
    hide ReplaceValue, Join;
    var tail := " IN (" + Join(e.numbers) + ")";
    JoinClean(e.numbers);
    ReplaceRendered(e.item, into, tail + rest);
    PlainText(tail, rest, Render(into));
    assert Render(e) + rest == Render(e.item) + (tail + rest);
  }

  /** Two replaced parts between three plain ones. */
  lemma {:induction false} ReplaceBetween(
    head: string, first: string, middle: string, second: string, close: string, rest: string,
    first': string, second': string, replacement: string)
    requires Clean(head) && Clean(middle) && Clean(close)
    requires ReplaceValue(first + (middle + (second + (close + rest))), replacement)
          == first' + ReplaceValue(middle + (second + (close + rest)), replacement)
    requires ReplaceValue(second + (close + rest), replacement) == second' + ReplaceValue(close + rest, replacement)
    ensures ReplaceValue(head + first + middle + second + close + rest, replacement)
         == head + first' + middle + second' + close + ReplaceValue(rest, replacement)
  {
    hide ReplaceValue, Clean;
    PlainText(head, first + (middle + (second + (close + rest))), replacement);
    PlainText(middle, second + (close + rest), replacement);
    PlainText(close, rest, replacement);
    assert head + first + middle + second + close + rest == head + (first + (middle + (second + (close + rest))));
    var done := ReplaceValue(rest, replacement);
    assert head + (first' + (middle + (second' + (close + done)))) == head + first' + middle + second' + close + done;
  }

  lemma {:induction false} ReplaceArrayAll(e: Expr, into: Expr, rest: string)
    requires e.ArrayAll? && CleanNames(e) && !into.Binary?
    ensures ReplaceValue(Render(e) + rest, Render(into)) == Render(Replace(e, into)) + ReplaceValue(rest, Render(into))
    decreases e, 0
  {
    hide ReplaceValue, Clean, LambdaHead;
    LambdaHeadClean(e.variable);
    PunctuationClean();
    ReplaceRendered(e.body, into, "), " + (Render(e.array_) + (")" + rest)));
    ReplaceRendered(e.array_, into, ")" + rest);
    ReplaceBetween(LambdaHead(e.variable), Render(e.body), "), ", Render(e.array_), ")", rest,
      Render(Replace(e.body, into)), Render(Replace(e.array_, into)), Render(into));
  }

  lemma {:induction false} LambdaHeadClean(variable: string)
    requires Clean(variable)
    ensures Clean(LambdaHead(variable))
  {
  }

  lemma {:induction false} PunctuationClean()
    ensures Clean("), ") && Clean(")")
  {
  }

  /** Text replacement is substitution. */
  lemma {:induction false} ReplaceRendered(e: Expr, into: Expr, rest: string)
    requires CleanNames(e) && !into.Binary?
    ensures ReplaceValue(Render(e) + rest, Render(into)) == Render(Replace(e, into)) + ReplaceValue(rest, Render(into))
    decreases e, 1
  {
    hide ReplaceValue;
    match e
    case Hole => PlaceholderText(rest, Render(into));
    case Call(_, _) => ReplaceCall(e, into, rest);
    case Binary(_, _, _) => ReplaceBinary(e, into, rest);
    case InList(_, _) => ReplaceInList(e, into, rest);
    case ArrayAll(_, _, _) => ReplaceArrayAll(e, into, rest);
    case _ => ReplaceLeaf(e, into, rest);
  }

  /** strings.ReplaceAll on the text of an emitted check is substitution in it. */
  lemma {:induction false} TextReplacementIsSubstitution(e: Expr, into: Expr)
    requires CleanNames(e) && !into.Binary?
    ensures ReplaceValue(Render(e), Render(into)) == Render(Replace(e, into))
  {
    hide Render, Replace;
    ReplaceRendered(e, into, "");
    assert Render(e) + "" == Render(e);
    assert ReplaceValue("", Render(into)) == "";
  }
}
