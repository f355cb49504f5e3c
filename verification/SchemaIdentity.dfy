/** Compiler identities: the path of protobuf field numbers and synthetic
    collection segments that names one logical field for life. */
module SchemaIdentity {

  import opened LogicalSchema

  const MAX_FIELD_NUMBER := 0x1FFF_FFFF

  datatype Segment = Number(n: int) | Element | Key | Value

  /** The empty identity is the root message. */
  type Identity = seq<Segment>

  function RoleOf(s: Segment): Role {
    match s
    case Number(_) => ProtoField
    case Element => ListElement
    case Key => MapKey
    case Value => MapValue
  }

  function Last(i: Identity): Segment
    requires i != []
  {
    i[|i| - 1]
  }

  /** The logical scope an identity lives in. */
  function Scope(i: Identity): Identity {
    if i == [] then [] else i[..|i| - 1]
  }

  predicate ValidSegment(s: Segment) {
    s.Number? ==> 1 <= s.n <= MAX_FIELD_NUMBER
  }

  /** Whether a segment may stand after another one. */
  predicate MayFollow(previous: Segment, s: Segment) {
    previous != Key && (s.Number? || previous.Number?)
  }

  /** The identities compilerIdentityRole accepts. */
  predicate ValidIdentity(i: Identity) {
    && i != []
    && i[0].Number?
    && (forall k :: 0 <= k < |i| ==> ValidSegment(i[k]))
    && (forall k :: 0 < k < |i| ==> MayFollow(i[k - 1], i[k]))
  }

  lemma {:induction false} ExtendValid(i: Identity, s: Segment)
    requires ValidSegment(s) && (if i == [] then s.Number? else ValidIdentity(i) && MayFollow(Last(i), s))
    ensures ValidIdentity(i + [s]) && Scope(i + [s]) == i && Last(i + [s]) == s
  {
  }
}
