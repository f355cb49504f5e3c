/** Protobuf names and the storage names derived from them.

    Descriptor names are ASCII identifiers, so the letter classes below are the
    ASCII ones. */
module ProtoNames {

  predicate IsLower(c: char) { 'a' <= c <= 'z' }

  predicate IsUpper(c: char) { 'A' <= c <= 'Z' }

  predicate IsDigit(c: char) { '0' <= c <= '9' }

  function ToLower(c: char): char {
    if IsUpper(c) then 'a' + (c - 'A') else c
  }

  predicate NameChar(c: char) {
    IsLower(c) || IsUpper(c) || IsDigit(c) || c == '_'
  }

  /** An exact protobuf identifier. */
  predicate ValidName(s: string) {
    && s != ""
    && !IsDigit(s[0])
    && forall i :: 0 <= i < |s| ==> NameChar(s[i])
  }

  /** The part of a full name after its last dot. */
  function ShortName(s: string): string {
    if s == "" || s[|s| - 1] == '.' then "" else ShortName(s[..|s| - 1]) + [s[|s| - 1]]
  }

  /** A dotted sequence of identifiers. */
  predicate ValidFullName(s: string)
    decreases |s|
  {
    var short := ShortName(s);
    ShortNameIsSuffix(s);
    && ValidName(short)
    && (|short| == |s| || ValidFullName(s[..|s| - |short| - 1]))
  }

  lemma {:induction false} ShortNameIsSuffix(s: string)
    ensures |ShortName(s)| <= |s| && ShortName(s) == s[|s| - |ShortName(s)|..]
  {
    if s != "" && s[|s| - 1] != '.' {
      ShortNameIsSuffix(s[..|s| - 1]);
    }
  }

  function Qualified(scope: string, name: string): string {
    if scope == "" then name else scope + "." + name
  }

  lemma {:induction false} ShortNameOfPlain(s: string)
    requires forall i :: 0 <= i < |s| ==> s[i] != '.'
    ensures ShortName(s) == s
  {
    if s != "" {
      ShortNameOfPlain(s[..|s| - 1]);
    }
  }

  lemma {:induction false} ShortNameOfDotted(scope: string, name: string)
    requires forall i :: 0 <= i < |name| ==> name[i] != '.'
    ensures ShortName(scope + "." + name) == name
  {
    var s := scope + "." + name;
    if name == "" {
      assert s == scope + ".";
    } else {
      ShortNameOfDotted(scope, name[..|name| - 1]);
      assert s[..|s| - 1] == scope + "." + name[..|name| - 1];
    }
  }

  /** The exact field name is recovered from a field's full name. */
  lemma {:induction false} QualifiedName(scope: string, name: string)
    requires ValidFullName(scope) && ValidName(name)
    ensures ValidFullName(Qualified(scope, name)) && ShortName(Qualified(scope, name)) == name
  {
    ShortNameOfDotted(scope, name);
    var s := scope + "." + name;
    assert s[..|s| - |name| - 1] == scope;
  }

  // ----- storage names -----

  predicate EndsUnderscore(b: string) {
    b != "" && b[|b| - 1] == '_'
  }

  /** Whether an underscore separates the i-th character from what came before. */
  predicate Breaks(s: string, i: nat)
    requires i < |s|
  {
    && IsUpper(s[i])
    && i > 0
    && (IsLower(s[i - 1]) || IsDigit(s[i - 1]) || (IsUpper(s[i - 1]) && i + 1 < |s| && IsLower(s[i + 1])))
  }

  /** What the builder holds after the first i characters. */
  function Built(s: string, i: nat): string
    requires i <= |s|
  {
    if i == 0 then
      ""
    else
      Append(s, i - 1, Built(s, i - 1))
  }

  function Append(s: string, i: nat, b: string): string
    requires i < |s|
  {
    var separated := if b != "" && !EndsUnderscore(b) then b + "_" else b;
    if s[i] == '.' || s[i] == '-' then
      separated
    else if Breaks(s, i) then
      separated + [ToLower(s[i])]
    else
      b + [ToLower(s[i])]
  }

  function TrimLeft(s: string): string {
    if s != "" && s[0] == '_' then TrimLeft(s[1..]) else s
  }

  function TrimRight(s: string): string {
    if EndsUnderscore(s) then TrimRight(s[..|s| - 1]) else s
  }

  function StorageName(s: string): string {
    TrimRight(TrimLeft(Built(s, |s|)))
  }

  predicate Plain(s: string) {
    forall i :: 0 <= i < |s| ==> !IsUpper(s[i]) && s[i] != '.' && s[i] != '-'
  }

  /** A storage name that needs no further normalization. */
  predicate Canonical(s: string) {
    Plain(s) && (s != "" ==> s[0] != '_' && s[|s| - 1] != '_')
  }

  lemma {:induction false} BuiltPlain(s: string, i: nat)
    requires i <= |s|
    ensures Plain(Built(s, i))
  {
    if i > 0 {
      BuiltPlain(s, i - 1);
    }
  }

  lemma {:induction false} TrimLeftPlain(s: string)
    requires Plain(s)
    ensures Plain(TrimLeft(s)) && (TrimLeft(s) != "" ==> TrimLeft(s)[0] != '_')
  {
    if s != "" && s[0] == '_' {
      TrimLeftPlain(s[1..]);
    }
  }

  lemma {:induction false} TrimRightPlain(s: string)
    requires Plain(s) && (s != "" ==> s[0] != '_')
    ensures Canonical(TrimRight(s))
  {
    if EndsUnderscore(s) {
      TrimRightPlain(s[..|s| - 1]);
    }
  }

  lemma {:induction false} BuiltOfPlain(s: string, i: nat)
    requires Plain(s) && i <= |s|
    ensures Built(s, i) == s[..i]
  {
    if i > 0 {
      BuiltOfPlain(s, i - 1);
      assert ToLower(s[i - 1]) == s[i - 1];
      assert s[..i - 1] + [s[i - 1]] == s[..i];
    }
  }

  /** Normalizing produces canonical names and changes no canonical name. */
  lemma {:induction false} StorageNameIsCanonical(s: string)
    ensures Canonical(StorageName(s))
    ensures StorageName(s) == s <==> Canonical(s)
    ensures StorageName(StorageName(s)) == StorageName(s)
  {
    CanonicalResult(s);
    CanonicalResult(StorageName(s));
    CanonicalFixed(StorageName(s));
    if Canonical(s) {
      CanonicalFixed(s);
    }
  }

  lemma {:induction false} CanonicalResult(s: string)
    ensures Canonical(StorageName(s))
  {
    BuiltPlain(s, |s|);
    TrimLeftPlain(Built(s, |s|));
    TrimRightPlain(TrimLeft(Built(s, |s|)));
  }

  lemma {:induction false} CanonicalFixed(s: string)
    requires Canonical(s)
    ensures StorageName(s) == s
  {
    BuiltOfPlain(s, |s|);
    assert s[..|s|] == s;
  }

  /** storageName's own loop over the characters. */
  method ComputeStorageName(s: string) returns (r: string)
    ensures r == StorageName(s)
  {
    var b := "";
    for i := 0 to |s|
      invariant b == Built(s, i)
    {
      if s[i] == '.' || s[i] == '-' {
        if b != "" && !EndsUnderscore(b) {
          b := b + "_";
        }
        continue;
      }
      if IsUpper(s[i]) {
        var previousIsLowerOrDigit := i > 0 && (IsLower(s[i - 1]) || IsDigit(s[i - 1]));
        var nextIsLower := i + 1 < |s| && IsLower(s[i + 1]);
        var previousIsUpper := i > 0 && IsUpper(s[i - 1]);
        if b != "" && (previousIsLowerOrDigit || (previousIsUpper && nextIsLower)) && !EndsUnderscore(b) {
          b := b + "_";
        }
      }
      b := b + [ToLower(s[i])];
    }
    r := TrimRight(TrimLeft(b));
  }
}
