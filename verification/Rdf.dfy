/** The messages of model/model.proto and the operators of model/rdf_operators.

    A message field that may be absent is an `Option`; a `oneof` has a constructor for
    the unset case. The accessors return the default instance for an absent field, as
    protobuf's do. */
module Rdf {
  import opened Bytes

  datatype URI = URI(uri: Bytes)

  datatype BNode = BNode(id: Bytes)

  datatype Resource = UriResource(uri: URI) | BNodeResource(bnode: BNode) | NoResource

  datatype StringLiteral = StringLiteral(content: Bytes, language: Bytes)

  datatype DatatypeLiteral = DatatypeLiteral(content: Bytes, datatype_: Option<URI>)

  datatype Literal = Plain(stringliteral: StringLiteral) | Typed(dataliteral: DatatypeLiteral) | NoLiteral

  datatype Value = ResourceValue(resource: Resource) | LiteralValue(literal: Literal) | NoValue

  datatype Namespace = Namespace(prefix: Bytes, uri: Bytes)

  /** Also used for patterns, where an absent field is a wildcard. */
  datatype Statement = Statement(
    subj: Option<Resource>, pred: Option<URI>, obj: Option<Value>, ctx: Option<Resource>)
  {
    function Subject(): Resource { if subj.Some? then subj.value else NoResource }
    function Predicate(): URI { if pred.Some? then pred.value else URI([]) }
    function Object(): Value { if obj.Some? then obj.value else NoValue }
    function Context(): Resource { if ctx.Some? then ctx.value else NoResource }
  }

  const ANY := Statement(None, None, None, None)

  function DatatypeUri(l: DatatypeLiteral): Bytes { if l.datatype_.Some? then l.datatype_.value.uri else [] }

  predicate EqUri(a: URI, b: URI) { a.uri == b.uri }

  predicate EqBNode(a: BNode, b: BNode) { a.id == b.id }

  predicate EqStringLiteral(a: StringLiteral, b: StringLiteral) {
    a.content == b.content && a.language == b.language
  }

  predicate EqDatatypeLiteral(a: DatatypeLiteral, b: DatatypeLiteral) {
    a.content == b.content && DatatypeUri(a) == DatatypeUri(b)
  }

  predicate EqValue(a: Value, b: Value) {
    if a.ResourceValue? && b.ResourceValue? then
      if a.resource.UriResource? && b.resource.UriResource? then EqUri(a.resource.uri, b.resource.uri)
      else if a.resource.BNodeResource? && b.resource.BNodeResource? then EqBNode(a.resource.bnode, b.resource.bnode)
      else false
    else if a.LiteralValue? && b.LiteralValue? then
      if a.literal.Plain? && b.literal.Plain? then EqStringLiteral(a.literal.stringliteral, b.literal.stringliteral)
      else if a.literal.Typed? && b.literal.Typed? then EqDatatypeLiteral(a.literal.dataliteral, b.literal.dataliteral)
      else false
    else false
  }

  predicate EqResource(a: Resource, b: Resource) {
    if a.UriResource? && b.UriResource? then EqUri(a.uri, b.uri)
    else if a.BNodeResource? && b.BNodeResource? then EqBNode(a.bnode, b.bnode)
    else false
  }

  predicate EqStatement(a: Statement, b: Statement) {
    && EqResource(a.Subject(), b.Subject())
    && EqUri(a.Predicate(), b.Predicate())
    && EqValue(a.Object(), b.Object())
    && EqResource(a.Context(), b.Context())
  }

  // ---- What the operators decide ----

  predicate SetResource(r: Resource) { !r.NoResource? }

  predicate SetValue(v: Value) {
    match v
    case ResourceValue(r) => SetResource(r)
    case LiteralValue(l) => !l.NoLiteral?
    case NoValue => false
  }

  /** All oneofs set, the context's included. */
  predicate AllSet(s: Statement) {
    SetResource(s.Subject()) && SetValue(s.Object()) && SetResource(s.Context())
  }

  /** An absent datatype and an empty one compare equal. */
  function CanonicalValue(v: Value): Value {
    if v.LiteralValue? && v.literal.Typed?
    then
      var l := v.literal.dataliteral;
      LiteralValue(Typed(DatatypeLiteral(l.content, Some(URI(DatatypeUri(l))))))
    else v
  }

  /** Absent fields become their default instances and datatypes are made explicit. */
  function Canonical(s: Statement): Statement {
    Statement(Some(s.Subject()), Some(s.Predicate()), Some(CanonicalValue(s.Object())), Some(s.Context()))
  }

  lemma ResourceEquality(a: Resource, b: Resource)
    ensures EqResource(a, b) <==> SetResource(a) && a == b
  {
  }

  lemma ValueEquality(a: Value, b: Value)
    ensures EqValue(a, b) <==> SetValue(a) && CanonicalValue(a) == CanonicalValue(b)
  {
  }

  /** Statement equality is equality of canonical forms among statements with every oneof
      set; it is therefore symmetric and transitive, and reflexive exactly on those. */
  lemma StatementEquality(a: Statement, b: Statement)
    ensures EqStatement(a, b) <==> AllSet(a) && Canonical(a) == Canonical(b)
  {
    ResourceEquality(a.Subject(), b.Subject());
    ResourceEquality(a.Context(), b.Context());
    ValueEquality(a.Object(), b.Object());
  }

  lemma StatementEqualityLaws(a: Statement, b: Statement, c: Statement)
    ensures EqStatement(a, a) <==> AllSet(a)
    ensures EqStatement(a, b) ==> EqStatement(b, a)
    ensures EqStatement(a, b) && EqStatement(b, c) ==> EqStatement(a, c)
  {
    hide EqStatement;
    StatementEquality(a, a); StatementEquality(a, b); StatementEquality(b, a);
    StatementEquality(b, c); StatementEquality(a, c);
  }

  /** std::hash<Resource>, over std::hash<std::string>. */
  function ResourceHash(stringHash: Bytes -> nat, r: Resource): nat {
    match r
    case UriResource(u) => stringHash(u.uri)
    case BNodeResource(b) => stringHash(b.id)
    case NoResource => stringHash([])
  }

  function Identifier(r: Resource): (s: Bytes) {
    if r.UriResource? then r.uri.uri else if r.BNodeResource? then r.bnode.id else []
  }

  /** The hash sees the URI or node identifier and nothing else. */
  lemma HashSeesIdentifier(a: Resource, b: Resource)
    ensures (forall f :: ResourceHash(f, a) == ResourceHash(f, b)) <==> Identifier(a) == Identifier(b)
  {
    var f: Bytes -> nat := x => if x == Identifier(a) then 0 else 1;
    if Identifier(a) != Identifier(b) { assert ResourceHash(f, a) != ResourceHash(f, b); }
  }

  lemma EqualResourcesHashEqually(stringHash: Bytes -> nat, a: Resource, b: Resource)
    requires EqResource(a, b)
    ensures ResourceHash(stringHash, a) == ResourceHash(stringHash, b)
  {
  }
}
