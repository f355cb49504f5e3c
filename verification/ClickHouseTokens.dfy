/** Reading the emitted text back, first part: characters to tokens. */
module ClickHouseTokens {
  import opened Results
  import opened ClickHouseText

  /** Words, quoted strings, quoted identifiers, the placeholder, and single
      characters of punctuation, spaces included. */
  datatype Token = Word(text: string) | Literal(text: string) | Quoted(text: string) | Value | Mark(c: char)

  predicate WordChar(c: char) {
    'a' <= c <= 'z' || 'A' <= c <= 'Z' || '0' <= c <= '9' || c == '_' || c == '{' || c == '}'
  }

  predicate IsWord(s: string) {
    s != "" && forall k :: 0 <= k < |s| ==> WordChar(s[k])
  }

  function Spelling(t: Token): string {
    match t
    case Word(text) => text
    case Literal(text) => QuoteLiteral(text)
    case Quoted(text) => QuoteIdentifier(text)
    case Value => PLACEHOLDER
    case Mark(c) => [c]
  }

  function Spell(ts: seq<Token>): string {
    if ts == [] then "" else Spelling(ts[0]) + Spell(ts[1..])
  }

  predicate Readable(t: Token) {
    match t
    case Word(text) => IsWord(text)
    case Mark(c) => !WordChar(c) && c != '\'' && c != '`' && c != NUL
    case _ => true
  }

  /** No two words meet. */
  predicate Spaced(ts: seq<Token>) {
    && (forall k :: 0 <= k < |ts| ==> Readable(ts[k]))
    && (forall k :: 0 <= k < |ts| - 1 ==> !(ts[k].Word? && ts[k + 1].Word?))
  }

  // ----- the reader -----

  /** The character that a backslash and c stand for. */
  function Unescaped(c: char, literal: bool): char {
    if literal && c == 'n' then '\n' else if literal && c == 'r' then '\r' else if literal && c == 't' then '\t' else c
  }

  /** The text up to the closing quote, and what follows the quote. */
  function ReadQuoted(s: string, quote: char, literal: bool): (r: Option<(string, string)>)
    ensures r.Some? ==> |r.value.1| < |s|
  {
    if s == "" then None
    else if s[0] == quote then Some(("", s[1..]))
    else if s[0] == '\\' then
      if |s| == 1 then None
      else
        match ReadQuoted(s[2..], quote, literal)
        case None => None
        case Some(more) => Some(([Unescaped(s[1], literal)] + more.0, more.1))
    else
      match ReadQuoted(s[1..], quote, literal)
      case None => None
      case Some(more) => Some(([s[0]] + more.0, more.1))
  }

  /** The length of the longest word in front. */
  function WordLength(s: string): (n: nat)
    ensures n <= |s|
  {
    if s != "" && WordChar(s[0]) then 1 + WordLength(s[1..]) else 0
  }

  function Prepend(t: Token, more: Option<seq<Token>>): Option<seq<Token>> {
    match more
    case None => None
    case Some(ts) => Some([t] + ts)
  }

  function Read(s: string): Option<seq<Token>>
    decreases |s|
  {
    if s == "" then Some([])
    else if WordChar(s[0]) then Prepend(Word(s[..WordLength(s)]), Read(s[WordLength(s)..]))
    else if s[0] == '\'' then
      match ReadQuoted(s[1..], '\'', true)
      case None => None
      case Some(q) => Prepend(Literal(q.0), Read(q.1))
    else if s[0] == '`' then
      match ReadQuoted(s[1..], '`', false)
      case None => None
      case Some(q) => Prepend(Quoted(q.0), Read(q.1))
    else if s[0] == NUL then
      if PLACEHOLDER <= s then Prepend(Value, Read(s[|PLACEHOLDER|..])) else None
    else Prepend(Mark(s[0]), Read(s[1..]))
  }

  // ----- reading undoes spelling -----

  lemma {:induction false} ReadLiteral(text: string, rest: string)
    ensures ReadQuoted(EscapedLiteral(text) + "'" + rest, '\'', true) == Some((text, rest))
  {
    var s := EscapedLiteral(text) + "'" + rest;
    if text == "" {
      assert s == "'" + rest;
      assert s[1..] == rest;
    } else {
      var tail := EscapedLiteral(text[1..]) + "'" + rest;
      ReadLiteral(text[1..], rest);
      LiteralStep(text, rest);
      if text[0] in {'\\', '\'', '\n', '\r', '\t'} {
        assert s[2..] == tail;
      } else {
        assert s[1..] == tail;
      }
      assert text == [text[0]] + text[1..];
    }
  }

  lemma {:induction false} LiteralStep(text: string, rest: string)
    requires text != ""
    ensures var s := EscapedLiteral(text) + "'" + rest;
            var tail := EscapedLiteral(text[1..]) + "'" + rest;
            if text[0] in {'\\', '\'', '\n', '\r', '\t'} then
              |s| > 1 && s == ['\\', s[1]] + tail && Unescaped(s[1], true) == text[0]
            else s == [text[0]] + tail
  {
  }

  lemma {:induction false} ReadIdentifier(name: string, rest: string)
    ensures ReadQuoted(EscapedIdentifier(name) + "`" + rest, '`', false) == Some((name, rest))
  {
    var s := EscapedIdentifier(name) + "`" + rest;
    if name == "" {
      assert s == "`" + rest;
      assert s[1..] == rest;
    } else {
      var tail := EscapedIdentifier(name[1..]) + "`" + rest;
      ReadIdentifier(name[1..], rest);
      IdentifierStep(name, rest);
      if name[0] in {'\\', '`'} {
        assert s[2..] == tail;
      } else {
        assert s[1..] == tail;
      }
      assert name == [name[0]] + name[1..];
    }
  }

  lemma {:induction false} IdentifierStep(name: string, rest: string)
    requires name != ""
    ensures var s := EscapedIdentifier(name) + "`" + rest;
            var tail := EscapedIdentifier(name[1..]) + "`" + rest;
            if name[0] in {'\\', '`'} then |s| > 1 && s == ['\\', s[1]] + tail && Unescaped(s[1], false) == name[0]
            else s == [name[0]] + tail
  {
  }

  lemma {:induction false} WholeWord(w: string, rest: string)
    requires (forall k :: 0 <= k < |w| ==> WordChar(w[k])) && (rest == "" || !WordChar(rest[0]))
    ensures WordLength(w + rest) == |w|
  {
    hide WordChar;
    if w == "" {
      assert w + rest == rest;
    } else {
      assert (w + rest)[1..] == w[1..] + rest;
      WholeWord(w[1..], rest);
    }
  }

  lemma {:induction false} NoWordNext(ts: seq<Token>)
    requires Spaced(ts) && (ts == [] || !ts[0].Word?)
    ensures Spell(ts) == "" || !WordChar(Spell(ts)[0])
  {
    if ts != [] {
      assert Readable(ts[0]);
      assert Spell(ts)[0] == Spelling(ts[0])[0];
    }
  }

  lemma {:induction false} SpacedTail(ts: seq<Token>)
    requires ts != [] && Spaced(ts)
    ensures Spaced(ts[1..]) && Readable(ts[0]) && (ts[0].Word? ==> ts[1..] == [] || !ts[1..][0].Word?)
  {
    hide Readable;
    var rest := ts[1..];
    assert forall k :: 0 <= k < |rest| ==> rest[k] == ts[k + 1];
    if |ts| > 1 {
      assert !(ts[0].Word? && ts[0 + 1].Word?);
    }
    forall k | 0 <= k < |rest| - 1
      ensures !(rest[k].Word? && rest[k + 1].Word?)
    {
      assert !(ts[k + 1].Word? && ts[k + 1 + 1].Word?);
    }
  }

  lemma {:induction false} ReadToken(t: Token, rest: string)
    requires Readable(t) && (t.Word? ==> rest == "" || !WordChar(rest[0]))
    ensures Read(Spelling(t) + rest) == Prepend(t, Read(rest))
  {
    hide Read, QuoteLiteral, QuoteIdentifier, WordChar;
    match t
    case Word(text) => ReadWord(text, rest);
    case Literal(text) => ReadLiteralToken(text, rest);
    case Quoted(text) => ReadQuotedToken(text, rest);
    case Value => ReadValue(rest);
    case Mark(c) => ReadMark(c, rest);
  }

  lemma {:induction false} ReadWord(w: string, rest: string)
    requires IsWord(w) && (rest == "" || !WordChar(rest[0]))
    ensures Read(w + rest) == Prepend(Word(w), Read(rest))
  {
    hide WordChar, WordLength;
    var s := w + rest;
    WholeWord(w, rest);
    assert s[0] == w[0];
    assert s[..|w|] == w && s[|w|..] == rest;
  }

  lemma {:induction false} ReadLiteralToken(text: string, rest: string)
    ensures Read(QuoteLiteral(text) + rest) == Prepend(Literal(text), Read(rest))
  {
    hide ReadQuoted, EscapedLiteral;
    var s := QuoteLiteral(text) + rest;
    ReadLiteral(text, rest);
    assert s[0] == '\'' && s[1..] == EscapedLiteral(text) + "'" + rest;
  }

  lemma {:induction false} ReadQuotedToken(name: string, rest: string)
    ensures Read(QuoteIdentifier(name) + rest) == Prepend(Quoted(name), Read(rest))
  {
    hide ReadQuoted, EscapedIdentifier;
    var s := QuoteIdentifier(name) + rest;
    ReadIdentifier(name, rest);
    assert s[0] == '`' && s[1..] == EscapedIdentifier(name) + "`" + rest;
  }

  lemma {:induction false} ReadValue(rest: string)
    ensures Read(PLACEHOLDER + rest) == Prepend(Value, Read(rest))
  {
    var s := PLACEHOLDER + rest;
    assert s[0] == NUL && PLACEHOLDER <= s && s[|PLACEHOLDER|..] == rest;
  }

  lemma {:induction false} ReadMark(c: char, rest: string)
    requires !WordChar(c) && c != '\'' && c != '`' && c != NUL
    ensures Read([c] + rest) == Prepend(Mark(c), Read(rest))
  {
    var s := [c] + rest;
    assert s[0] == c && s[1..] == rest;
  }

  /** Every spaced token sequence is read back from its spelling. */
  lemma {:induction false} ReadSpelled(ts: seq<Token>)
    requires Spaced(ts)
    ensures Read(Spell(ts)) == Some(ts)
  {
    hide Read, Spelling, Readable;
    if ts == [] {
      NothingRead();
    } else {
      SpacedTail(ts);
      ReadSpelled(ts[1..]);
      if ts[0].Word? {
        NoWordNext(ts[1..]);
      }
      ReadToken(ts[0], Spell(ts[1..]));
      assert ts == [ts[0]] + ts[1..];
    }
  }

  lemma {:induction false} NothingRead()
    ensures Read("") == Some([])
  {
  }

  // ----- joining -----

  lemma {:induction false} SpellJoin(a: seq<Token>, b: seq<Token>)
    ensures Spell(a + b) == Spell(a) + Spell(b)
  {
    hide Spelling;
    if a == [] {
      assert a + b == b;
    } else {
      assert (a + b)[0] == a[0] && (a + b)[1..] == a[1..] + b;
      SpellJoin(a[1..], b);
    }
  }

  lemma {:induction false} SpacedJoin(a: seq<Token>, b: seq<Token>)
    requires Spaced(a) && Spaced(b) && (a == [] || b == [] || !a[|a| - 1].Word? || !b[0].Word?)
    ensures Spaced(a + b)
  {
    hide Readable;
    var all := a + b;
    forall k | 0 <= k < |all| - 1
      ensures !(all[k].Word? && all[k + 1].Word?)
    {
      if k < |a| - 1 {
        assert all[k] == a[k] && all[k + 1] == a[k + 1];
      } else if k == |a| - 1 {
        assert all[k] == a[|a| - 1] && all[k + 1] == b[0];
      } else {
        assert all[k] == b[k - |a|] && all[k + 1] == b[k - |a| + 1];
      }
    }
  }
}
