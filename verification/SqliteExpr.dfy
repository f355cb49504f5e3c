/** The fragment of SQLite expressions the generated CHECK constraints use.

    Characters are code points, which UTF-8 orders like its bytes.  length,
    substr and GLOB stop at the first U+0000; instr and comparisons do not. */
module SqliteExpr {

  const NUL: char := '\0'

  /** A stored value; `Other` is a result no constraint here depends on. */
  datatype Value = Null | Integer(n: int) | Real | Text(s: string) | Blob | Other

  datatype Range = Range(lo: char, hi: char)

  datatype GlobToken = Star | OutsideOf(ranges: seq<Range>)

  predicate Within(ranges: seq<Range>, c: char) {
    exists k :: 0 <= k < |ranges| && ranges[k].lo <= c <= ranges[k].hi
  }

  datatype Expr =
    | Column
    | Num(n: int)
    | Str(s: string)
    | TypeOf(e: Expr)
    | Length(e: Expr)
    | Minus(a: Expr, b: Expr)
    | From(e: Expr, start: Expr)
    | Substr(e: Expr, start: Expr, count: Expr)
    | Instr(e: Expr, part: Expr)
    | Remove(e: Expr, c: char)
    | NotGlob(e: Expr, pattern: seq<GlobToken>)
    | Eq(a: Expr, b: Expr)
    | Ne(a: Expr, b: Expr)
    | Lt(a: Expr, b: Expr)
    | Le(a: Expr, b: Expr)
    | Between(e: Expr, lo: Expr, hi: Expr)
    | And(a: Expr, b: Expr)
    | Or(a: Expr, b: Expr)
    | Case(when: Expr, then_: Expr, else_: Expr)

  function Bool(b: bool): Value {
    if b then Integer(1) else Integer(0)
  }

  /** What the C-string functions see of a text. */
  function Visible(s: string): string {
    if s == "" || s[0] == NUL then "" else [s[0]] + Visible(s[1..])
  }

  function TypeName(v: Value): Value {
    match v
    case Null => Text("null")
    case Integer(_) => Text("integer")
    case Real => Text("real")
    case Text(_) => Text("text")
    case Blob => Text("blob")
    case Other => Other
  }

  /** The order of two texts. */
  predicate TextLt(a: string, b: string) {
    b != "" && (a == "" || a[0] < b[0] || (a[0] == b[0] && TextLt(a[1..], b[1..])))
  }

  predicate Comparable(a: Value, b: Value) {
    (a.Integer? && b.Integer?) || (a.Text? && b.Text?)
  }

  function Less(a: Value, b: Value): Value {
    if !Comparable(a, b) then Other
    else if a.Integer? then Bool(a.n < b.n)
    else Bool(TextLt(a.s, b.s))
  }

  function Equal(a: Value, b: Value): Value {
    if !Comparable(a, b) then Other else Bool(a == b)
  }

  function Not(v: Value): Value {
    if v.Integer? then Bool(v.n == 0) else v
  }

  /** Conjunction is false as soon as one side is. */
  function Both(a: Value, b: Value): Value {
    if a == Integer(0) || b == Integer(0) then Integer(0)
    else if a.Integer? && b.Integer? then Integer(1)
    else Other
  }

  function Either(a: Value, b: Value): Value {
    if (a.Integer? && a.n != 0) || (b.Integer? && b.n != 0) then Integer(1)
    else if a.Integer? && b.Integer? then Integer(0)
    else Other
  }

  function Max0(n: int): nat {
    if n < 0 then 0 else n
  }

  function Clip(s: string, start: nat, count: nat): string {
    if start >= |s| then "" else if start + count >= |s| then s[start..] else s[start..start + count]
  }

  /** substr(s, start): from a position counted from 1, or from the end when it
      is negative. */
  function Tail(s: string, start: int): string {
    var from := if start < 0 then Max0(start + |s|) else if start > 0 then start - 1 else 0;
    if from >= |s| then "" else s[from..]
  }

  /** substr(s, start, count), including negative counts. */
  function Slice(s: string, start: int, count: int): string {
    var size := if count < 0 then -count else count;
    var from, size1 :=
      if start < 0 then
        if start + |s| < 0 then 0 else start + |s|
      else if start > 0 then
        start - 1
      else
        0,
      if start < 0 && start + |s| < 0 then
        Max0(size + start + |s|)
      else if start == 0 && size > 0 then
        size - 1
      else
        size;
    if count >= 0 then
      Clip(s, from, size1)
    else if from - size1 < 0 then
      Clip(s, 0, Max0(from))
    else
      Clip(s, from - size1, size1)
  }

  predicate OccursAt(s: string, part: string, k: nat) {
    k + |part| <= |s| && s[k..k + |part|] == part
  }

  /** instr: the first position counted from 1, or 0. */
  function Position(s: string, part: string, k: nat): nat
    requires k <= |s|
    decreases |s| - k
  {
    if OccursAt(s, part, k) then k + 1 else if k == |s| then 0 else Position(s, part, k + 1)
  }

  function Without(s: string, c: char): string {
    if s == "" then "" else (if s[0] == c then "" else [s[0]]) + Without(s[1..], c)
  }

  predicate Glob(pattern: seq<GlobToken>, s: string)
    decreases |pattern|, |s|
  {
    if pattern == [] then
      s == ""
    else match pattern[0]
         case Star => Glob(pattern[1..], s) || (s != "" && Glob(pattern, s[1..]))
         case OutsideOf(ranges) => s != "" && !Within(ranges, s[0]) && Glob(pattern[1..], s[1..])
  }

  function Eval(e: Expr, v: Value): Value {
    match e
    case Column => v
    case Num(n) => Integer(n)
    case Str(s) => Text(s)
    case TypeOf(a) => TypeName(Eval(a, v))
    case Length(a) =>
      var x := Eval(a, v);
      if x.Text? then Integer(|Visible(x.s)|) else Other
    case Minus(a, b) =>
      var x, y := Eval(a, v), Eval(b, v);
      if x.Integer? && y.Integer? then Integer(x.n - y.n) else Other
    case From(a, start) =>
      var x, y := Eval(a, v), Eval(start, v);
      if x.Text? && y.Integer? then Text(Tail(Visible(x.s), y.n)) else Other
    case Substr(a, start, count) =>
      var x, y, z := Eval(a, v), Eval(start, v), Eval(count, v);
      if x.Text? && y.Integer? && z.Integer? then Text(Slice(Visible(x.s), y.n, z.n)) else Other
    case Instr(a, part) =>
      var x, y := Eval(a, v), Eval(part, v);
      if x.Text? && y.Text? then Integer(Position(x.s, y.s, 0)) else Other
    case Remove(a, c) =>
      var x := Eval(a, v);
      if x.Text? then Text(Without(x.s, c)) else Other
    case NotGlob(a, pattern) =>
      var x := Eval(a, v);
      if x.Text? then Bool(!Glob(pattern, Visible(x.s))) else Other
    case Eq(a, b) => Equal(Eval(a, v), Eval(b, v))
    case Ne(a, b) => Not(Equal(Eval(a, v), Eval(b, v)))
    case Lt(a, b) => Less(Eval(a, v), Eval(b, v))
    case Le(a, b) => Not(Less(Eval(b, v), Eval(a, v)))
    case Between(a, lo, hi) => Both(Not(Less(Eval(a, v), Eval(lo, v))), Not(Less(Eval(hi, v), Eval(a, v))))
    case And(a, b) => Both(Eval(a, v), Eval(b, v))
    case Or(a, b) => Either(Eval(a, v), Eval(b, v))
    case Case(when, then_, else_) =>
      var w := Eval(when, v);
      if w.Integer? && w.n != 0 then Eval(then_, v) else Eval(else_, v)
  }

  // ----- connectives on truth values -----

  lemma {:induction false} JoinTwo(a: Expr, b: Expr, v: Value, p: bool, q: bool)
    requires Eval(a, v) == Bool(p) && Eval(b, v) == Bool(q)
    ensures Eval(And(a, b), v) == Bool(p && q)
    ensures Eval(Or(a, b), v) == Bool(p || q)
  {
  }

  lemma {:induction false} FalseStays(a: Expr, b: Expr, v: Value)
    requires Eval(a, v) == Integer(0)
    ensures Eval(And(a, b), v) == Integer(0)
  {
  }

  // ----- text without U+0000 -----

  lemma {:induction false} VisibleWhole(s: string)
    requires forall k :: 0 <= k < |s| ==> s[k] != NUL
    ensures Visible(s) == s
  {
    if s != "" {
      VisibleWhole(s[1..]);
    }
  }

  lemma {:induction false} PositionOfChar(s: string, c: char, k: nat)
    requires k <= |s|
    ensures Position(s, [c], k) == 0 <==> forall j :: k <= j < |s| ==> s[j] != c
    decreases |s| - k
  {
    if k < |s| {
      assert OccursAt(s, [c], k) <==> s[k] == c by {
        assert s[k..k + 1] == [s[k]];
      }
      PositionOfChar(s, c, k + 1);
    }
  }

  lemma {:induction false} GlobStar(s: string)
    ensures Glob([Star], s)
  {
    if s == "" {
      assert [Star][1..] == [];
      assert Glob([], s);
    } else {
      GlobStar(s[1..]);
    }
  }

  /** The pattern `*[^...]*` finds a character outside the ranges. */
  lemma {:induction false} GlobOutside(ranges: seq<Range>, s: string)
    ensures Glob([Star, OutsideOf(ranges), Star], s) <==> exists k :: 0 <= k < |s| && !Within(ranges, s[k])
  {
    hide Within;
    var pattern := [Star, OutsideOf(ranges), Star];
    assert pattern[1..] == [OutsideOf(ranges), Star] && pattern[1..][1..] == [Star];
    if s != "" {
      GlobOutside(ranges, s[1..]);
      GlobStar(s[1..]);
      assert Glob(pattern[1..], s) <==> !Within(ranges, s[0]);
      if exists k :: 0 <= k < |s[1..]| && !Within(ranges, s[1..][k]) {
        var k :| 0 <= k < |s[1..]| && !Within(ranges, s[1..][k]);
        assert !Within(ranges, s[k + 1]);
      }
      if exists k :: 0 <= k < |s| && !Within(ranges, s[k]) {
        var k :| 0 <= k < |s| && !Within(ranges, s[k]);
        assert k > 0 ==> s[1..][k - 1] == s[k];
      }
    }
  }
}
