/** ClickHouse column types, stored values and the CHECK expressions that the
    renderer emits, with an evaluator for them. */
module ClickHouseExpr {

  type byte = n: int | 0 <= n < 256

  datatype SqlType =
    | Bool | Int32 | Int64 | UInt32 | UInt64 | Float32 | Float64
    | String
    | FixedString(width: nat)
    | DateTime64Nano
    | Decimal(precision: nat, scale: nat)
    | UUID
    | Nullable(inner: SqlType)
    | Array(element: SqlType)
    | Map(key: SqlType, value: SqlType)
    | Tuple(elements: seq<Element>)

  datatype Element = Element(name: string, typ: SqlType)

  /** A stored value.  A Map column is an array of pairs and may repeat a key;
      a tuple is addressed by element name.  A float is its bit pattern. */
  datatype Stored =
    | B(b: bool)
    | I(n: int)
    | F(bits: nat)
    | S(bytes: seq<byte>)
    | Null
    | Arr(items: seq<Stored>)
    | MapOf(entries: seq<Entry>)
    | Tup(elements: map<string, Stored>)

  datatype Entry = Entry(key: Stored, value: Stored)

  function Pow10(exponent: nat): (r: int)
    ensures r >= 1
  {
    if exponent == 0 then 1 else 10 * Pow10(exponent - 1)
  }

  predicate InInt32(n: int) { -0x8000_0000 <= n < 0x8000_0000 }
  predicate InInt64(n: int) { -0x8000_0000_0000_0000 <= n < 0x8000_0000_0000_0000 }
  predicate InUInt32(n: int) { 0 <= n < 0x1_0000_0000 }
  predicate InUInt64(n: int) { 0 <= n < 0x1_0000_0000_0000_0000 }

  function Names(elements: seq<Element>): set<string> {
    set e | e in elements :: e.name
  }

  /** What a column of the given type can physically hold. */
  predicate HasType(p: Stored, t: SqlType)
    decreases t
  {
    match t
    case Bool => p.B?
    case Int32 => p.I? && InInt32(p.n)
    case Int64 => p.I? && InInt64(p.n)
    case UInt32 => p.I? && InUInt32(p.n)
    case UInt64 => p.I? && InUInt64(p.n)
    case Float32 => p.F? && p.bits < 0x1_0000_0000
    case Float64 => p.F? && p.bits < 0x1_0000_0000_0000_0000
    case String => p.S?
    case FixedString(width) => p.S? && |p.bytes| == width
    case DateTime64Nano => p.I? && InInt64(p.n)
    case Decimal(precision, _) => p.I? && -Pow10(precision) < p.n < Pow10(precision)
    case UUID => p.S? && |p.bytes| == 16
    case Nullable(inner) => p.Null? || HasType(p, inner)
    case Array(element) => p.Arr? && forall i :: 0 <= i < |p.items| ==> HasType(p.items[i], element)
    case Map(key, value) =>
      && p.MapOf?
      && forall i :: 0 <= i < |p.entries| ==> HasType(p.entries[i].key, key) && HasType(p.entries[i].value, value)
    case Tuple(elements) =>
      && p.Tup?
      && p.elements.Keys == Names(elements)
      && forall i :: 0 <= i < |elements| ==> HasType(p.elements[elements[i].name], elements[i].typ)
  }

  datatype Function =
    | IsNull | IsNotNull | AssumeNotNull
    | Length | MapKeys | MapValues | ArrayDistinct
    | IsValidUTF8 | IsValidJSON
    | Not
    | TupleElement(name: string)
    | AccurateCastDecimal20 | ToInt64 | ToUnixTimestamp64Nano

  datatype Operator = Equal | Or | And

  /** An emitted expression.  `Hole` is the value placeholder; an identifier,
      quoted (a column) or not (a lambda variable), is looked up by name alone,
      so a lambda variable hides a column of the same name. */
  datatype Expr =
    | Hole
    | Ident(name: string, quoted: bool)
    | Number(n: int)
    | Truth(b: bool)
    | Call(function_: Function, arg: Expr)
    | Binary(op: Operator, left: Expr, right: Expr)
    | InList(item: Expr, numbers: seq<int>)
    | ArrayAll(variable: string, body: Expr, array_: Expr)

  /** What the database decides about byte strings: UTF-8 and JSON validity. */
  datatype Oracle = Oracle(utf8: seq<byte> -> bool, json: seq<byte> -> bool)

  type Env = map<string, Stored>

  function Lookup(env: Env, name: string): Stored {
    if name in env then env[name] else Null
  }

  function Distinct(items: seq<Stored>): seq<Stored> {
    if items == [] then []
    else
      var rest := Distinct(items[..|items| - 1]);
      var last := items[|items| - 1];
      if last in rest then rest else rest + [last]
  }

  function Keys(entries: seq<Entry>): seq<Stored> {
    seq(|entries|, i requires 0 <= i < |entries| => entries[i].key)
  }

  function Values(entries: seq<Entry>): seq<Stored> {
    seq(|entries|, i requires 0 <= i < |entries| => entries[i].value)
  }

  /** Conversion of an integer to a signed 64-bit one, with wrap-around. */
  function WrapInt64(n: int): int {
    var low := n % 0x1_0000_0000_0000_0000;
    if low < 0x8000_0000_0000_0000 then low else low - 0x1_0000_0000_0000_0000
  }

  /** Applies a ClickHouse function; a misapplied one yields NULL. */
  function Apply(o: Oracle, f: Function, v: Stored): Stored {
    match f
    case IsNull => B(v.Null?)
    case IsNotNull => B(!v.Null?)
    case AssumeNotNull => v
    case Length => if v.Arr? then I(|v.items|) else Null
    case MapKeys => if v.MapOf? then Arr(Keys(v.entries)) else Null
    case MapValues => if v.MapOf? then Arr(Values(v.entries)) else Null
    case ArrayDistinct => if v.Arr? then Arr(Distinct(v.items)) else Null
    case IsValidUTF8 => if v.S? then B(o.utf8(v.bytes)) else Null
    case IsValidJSON => if v.S? then B(o.json(v.bytes)) else Null
    case Not => if v.B? then B(!v.b) else Null
    case TupleElement(name) => if v.Tup? && name in v.elements then v.elements[name] else Null
    case AccurateCastDecimal20 => if v.I? && -Pow10(20) < v.n < Pow10(20) then v else Null
    case ToInt64 => if v.I? then I(WrapInt64(v.n)) else Null
    case ToUnixTimestamp64Nano => if v.I? then v else Null
  }

  /** Three-valued comparison and connectives. */
  function Combine(op: Operator, a: Stored, b: Stored): Stored {
    match op
    case Equal => if a.Null? || b.Null? then Null else B(a == b)
    case Or =>
      if a == B(true) || b == B(true) then B(true)
      else if a == B(false) && b == B(false) then B(false)
      else Null
    case And =>
      if a == B(false) || b == B(false) then B(false)
      else if a == B(true) && b == B(true) then B(true)
      else Null
  }

  function ItemsOf(v: Stored): seq<Stored> {
    if v.Arr? then v.items else []
  }

  predicate AllTrue(results: seq<Stored>) {
    forall i :: 0 <= i < |results| ==> results[i] == B(true)
  }

  function Eval(o: Oracle, e: Expr, hole: Stored, env: Env): Stored
    decreases e, 0
  {
    match e
    case Hole => hole
    case Ident(name, _) => Lookup(env, name)
    case Number(n) => I(n)
    case Truth(b) => B(b)
    case Call(f, arg) => Apply(o, f, Eval(o, arg, hole, env))
    case Binary(op, left, right) => Combine(op, Eval(o, left, hole, env), Eval(o, right, hole, env))
    case InList(item, numbers) =>
      var v := Eval(o, item, hole, env);
      if v.I? then B(v.n in numbers) else Null
    case ArrayAll(variable, body, array_) =>
      var v := Eval(o, array_, hole, env);
      if v.Arr? then B(AllTrue(EvalEach(o, variable, body, ItemsOf(v), hole, env))) else Null
  }

  /** A lambda's body, evaluated for each element of an array. */
  function EvalEach(
    o: Oracle, variable: string, body: Expr, items: seq<Stored>, hole: Stored, env: Env): (r: seq<Stored>)
    ensures |r| == |items|
    ensures forall i :: 0 <= i < |items| ==> r[i] == Eval(o, body, hole, env[variable := items[i]])
    decreases body, 1
  {
    seq(|items|, i requires 0 <= i < |items| => Eval(o, body, hole, env[variable := items[i]]))
  }

  /** A CHECK accepts a row only when its expression is true; NULL rejects. */
  predicate Holds(o: Oracle, e: Expr, hole: Stored, env: Env) {
    Eval(o, e, hole, env) == B(true)
  }

  /** Textual replacement of the placeholder: every occurrence, lambda bodies
      included. */
  function Replace(e: Expr, into: Expr): Expr {
    match e
    case Hole => into
    case Ident(_, _) => e
    case Number(_) => e
    case Truth(_) => e
    case Call(f, arg) => Call(f, Replace(arg, into))
    case Binary(op, left, right) => Binary(op, Replace(left, into), Replace(right, into))
    case InList(item, numbers) => InList(Replace(item, into), numbers)
    case ArrayAll(variable, body, array_) => ArrayAll(variable, Replace(body, into), Replace(array_, into))
  }

  predicate HasHole(e: Expr) {
    match e
    case Hole => true
    case Ident(_, _) => false
    case Number(_) => false
    case Truth(_) => false
    case Call(_, arg) => HasHole(arg)
    case Binary(_, left, right) => HasHole(left) || HasHole(right)
    case InList(item, _) => HasHole(item)
    case ArrayAll(_, body, array_) => HasHole(body) || HasHole(array_)
  }

  /** The placeholder occurs in no lambda body, at any depth. */
  predicate NoHoleUnderLambda(e: Expr) {
    match e
    case Hole => true
    case Ident(_, _) => true
    case Number(_) => true
    case Truth(_) => true
    case Call(_, arg) => NoHoleUnderLambda(arg)
    case Binary(_, left, right) => NoHoleUnderLambda(left) && NoHoleUnderLambda(right)
    case InList(item, _) => NoHoleUnderLambda(item)
    case ArrayAll(_, body, array_) => !HasHole(body) && NoHoleUnderLambda(array_)
  }

  /** Identifiers that an expression takes from its surroundings. */
  function Free(e: Expr): set<string> {
    match e
    case Hole => {}
    case Ident(name, _) => {name}
    case Number(_) => {}
    case Truth(_) => {}
    case Call(_, arg) => Free(arg)
    case Binary(_, left, right) => Free(left) + Free(right)
    case InList(item, _) => Free(item)
    case ArrayAll(variable, body, array_) => (Free(body) - {variable}) + Free(array_)
  }

  /** A name without the NUL character, with which the placeholder's text
      begins and ends. */
  predicate Clean(name: string) {
    forall i :: 0 <= i < |name| ==> name[i] != '\0'
  }

  predicate CleanNames(e: Expr) {
    match e
    case Hole => true
    case Ident(name, _) => Clean(name)
    case Number(_) => true
    case Truth(_) => true
    case Call(f, arg) => (f.TupleElement? ==> Clean(f.name)) && CleanNames(arg)
    case Binary(_, left, right) => CleanNames(left) && CleanNames(right)
    case InList(item, _) => CleanNames(item)
    case ArrayAll(variable, body, array_) => Clean(variable) && CleanNames(body) && CleanNames(array_)
  }

  /** An emitted per-value check: it speaks of the placeholder and nothing else. */
  predicate Scoped(e: Expr) {
    NoHoleUnderLambda(e) && Free(e) == {} && CleanNames(e)
  }

  predicate Agree(names: set<string>, env1: Env, env2: Env) {
    forall x :: x in names ==> Lookup(env1, x) == Lookup(env2, x)
  }

  lemma {:induction false} AgreeUnderBinder(names: set<string>, x: string, v: Stored, env1: Env, env2: Env)
    requires Agree(names - {x}, env1, env2)
    ensures Agree(names, env1[x := v], env2[x := v])
  {
    forall y | y in names
      ensures Lookup(env1[x := v], y) == Lookup(env2[x := v], y)
    {
      assert y == x || y in names - {x};
    }
  }

  lemma {:induction false} EvalDependsOnFree(o: Oracle, e: Expr, h1: Stored, h2: Stored, env1: Env, env2: Env)
    requires Agree(Free(e), env1, env2)
    requires HasHole(e) ==> h1 == h2
    ensures Eval(o, e, h1, env1) == Eval(o, e, h2, env2)
    decreases e, 0
  {
    match e
    case Hole =>
    case Ident(_, _) =>
    case Number(_) =>
    case Truth(_) =>
    case Call(_, arg) => EvalDependsOnFree(o, arg, h1, h2, env1, env2);
    case Binary(_, left, right) =>
      EvalDependsOnFree(o, left, h1, h2, env1, env2);
      EvalDependsOnFree(o, right, h1, h2, env1, env2);
    case InList(item, _) => EvalDependsOnFree(o, item, h1, h2, env1, env2);
    case ArrayAll(x, body, array_) =>
      EvalDependsOnFree(o, array_, h1, h2, env1, env2);
      EachDependsOnFree(o, x, body, ItemsOf(Eval(o, array_, h1, env1)), h1, h2, env1, env2);
  }

  lemma {:induction false} EachDependsOnFree(
    o: Oracle, x: string, body: Expr, items: seq<Stored>, h1: Stored, h2: Stored, env1: Env, env2: Env)
    requires Agree(Free(body) - {x}, env1, env2)
    requires HasHole(body) ==> h1 == h2
    ensures EvalEach(o, x, body, items, h1, env1) == EvalEach(o, x, body, items, h2, env2)
    decreases body, 1
  {
    forall i | 0 <= i < |items|
      ensures Eval(o, body, h1, env1[x := items[i]]) == Eval(o, body, h2, env2[x := items[i]])
    {
      AgreeUnderBinder(Free(body), x, items[i], env1, env2);
      EvalDependsOnFree(o, body, h1, h2, env1[x := items[i]], env2[x := items[i]]);
    }
  }

  /** Replacing the placeholder is evaluating with the replacement's value: no
      variable of the replacement is captured. */
  lemma {:induction false} ReplaceEvaluates(o: Oracle, e: Expr, into: Expr, hole: Stored, env: Env)
    requires NoHoleUnderLambda(e)
    ensures Eval(o, Replace(e, into), hole, env) == Eval(o, e, Eval(o, into, hole, env), env)
  {
    var h := Eval(o, into, hole, env);
    match e
    case Hole =>
    case Ident(_, _) =>
    case Number(_) =>
    case Truth(_) =>
    case Call(_, arg) => ReplaceEvaluates(o, arg, into, hole, env);
    case Binary(_, left, right) =>
      ReplaceEvaluates(o, left, into, hole, env);
      ReplaceEvaluates(o, right, into, hole, env);
    case InList(item, _) => ReplaceEvaluates(o, item, into, hole, env);
    case ArrayAll(x, body, array_) =>
      ReplaceEvaluates(o, array_, into, hole, env);
      ReplaceWithoutHole(body, into);
      EachDependsOnFree(o, x, body, ItemsOf(Eval(o, array_, h, env)), hole, h, env, env);
  }

  lemma {:induction false} ReplaceWithoutHole(e: Expr, into: Expr)
    requires !HasHole(e)
    ensures Replace(e, into) == e
  {
    match e
    case Ident(_, _) =>
    case Number(_) =>
    case Truth(_) =>
    case Call(_, arg) => ReplaceWithoutHole(arg, into);
    case Binary(_, left, right) => ReplaceWithoutHole(left, into); ReplaceWithoutHole(right, into);
    case InList(item, _) => ReplaceWithoutHole(item, into);
    case ArrayAll(_, body, array_) => ReplaceWithoutHole(body, into); ReplaceWithoutHole(array_, into);
  }

  /** What a replacement can add: its own identifiers and its own placeholders. */
  lemma {:induction false} ReplaceShape(e: Expr, into: Expr)
    requires NoHoleUnderLambda(e) && NoHoleUnderLambda(into) && CleanNames(e) && CleanNames(into)
    ensures NoHoleUnderLambda(Replace(e, into)) && CleanNames(Replace(e, into))
    ensures Free(Replace(e, into)) <= Free(e) + Free(into)
    ensures HasHole(Replace(e, into)) ==> HasHole(into)
  {
    match e
    case Hole =>
    case Ident(_, _) =>
    case Number(_) =>
    case Truth(_) =>
    case Call(_, arg) => ReplaceShape(arg, into);
    case Binary(_, left, right) => ReplaceShape(left, into); ReplaceShape(right, into);
    case InList(item, _) => ReplaceShape(item, into);
    case ArrayAll(_, body, array_) =>
      ReplaceWithoutHole(body, into);
      ReplaceShape(array_, into);
  }

  /** Quantifying a check over an array: `arrayAll(x -> check[x], a)`.  The name
      of the variable does not matter, whatever the surroundings bind it to. */
  function Quantified(variable: string, check: Expr, array_: Expr): Expr {
    ArrayAll(variable, Replace(check, Ident(variable, false)), array_)
  }

  lemma {:induction false} QuantifiedScoped(variable: string, check: Expr, array_: Expr)
    requires Scoped(check) && Scoped(array_) && Clean(variable)
    ensures Scoped(Quantified(variable, check, array_))
  {
    ReplaceShape(check, Ident(variable, false));
  }

  lemma {:induction false} QuantifiedAtElement(
    o: Oracle, variable: string, check: Expr, item: Stored, hole: Stored, env: Env)
    requires Scoped(check)
    ensures Eval(o, Replace(check, Ident(variable, false)), hole, env[variable := item]) == Eval(o, check, item, map[])
  {
    var inner := env[variable := item];
    ReplaceEvaluates(o, check, Ident(variable, false), hole, inner);
    EvalDependsOnFree(o, check, item, item, inner, map[]);
  }

  /** A check holds of every element. */
  predicate HoldsOfAll(o: Oracle, check: Expr, items: seq<Stored>) {
    forall i :: 0 <= i < |items| ==> Holds(o, check, items[i], map[])
  }

  lemma {:induction false} EachElement(
    o: Oracle, variable: string, check: Expr, items: seq<Stored>, hole: Stored, env: Env)
    requires Scoped(check)
    ensures AllTrue(EvalEach(o, variable, Replace(check, Ident(variable, false)), items, hole, env))
       <==> HoldsOfAll(o, check, items)
  {
    var results := EvalEach(o, variable, Replace(check, Ident(variable, false)), items, hole, env);
    forall i | 0 <= i < |items|
      ensures results[i] == Eval(o, check, items[i], map[])
    {
      QuantifiedAtElement(o, variable, check, items[i], hole, env);
    }
  }

  lemma {:induction false} QuantifiedMeans(
    o: Oracle, variable: string, check: Expr, array_: Expr, hole: Stored, env: Env)
    requires Scoped(check)
    requires Eval(o, array_, hole, env).Arr?
    ensures Holds(o, Quantified(variable, check, array_), hole, env)
       <==> HoldsOfAll(o, check, Eval(o, array_, hole, env).items)
  {
    EachElement(o, variable, check, Eval(o, array_, hole, env).items, hole, env);
  }

  /** `arrayDistinct` keeps the length of an array exactly when nothing repeats. */
  lemma {:induction false} DistinctKeepsLength(items: seq<Stored>)
    ensures forall x :: x in Distinct(items) <==> x in items
    ensures |Distinct(items)| <= |items|
    ensures |Distinct(items)| == |items| <==> forall i, j :: 0 <= i < j < |items| ==> items[i] != items[j]
  {
    if items != [] {
      var front, last := items[..|items| - 1], items[|items| - 1];
      DistinctKeepsLength(front);
      assert items == front + [last];
      if last in front {
        var k :| 0 <= k < |front| && front[k] == last;
        assert items[k] == items[|items| - 1];
      }
    }
  }
}
