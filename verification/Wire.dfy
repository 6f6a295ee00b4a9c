/** The bytes that SerializeToString produces for the messages of model/model.proto, and what
    ParseFromString makes of them: the proto3 encoding, in which a string field is left out
    when empty and a message field when absent, fields come in ascending order, a key is the
    field number times eight plus the wire type (2, length-delimited), and a length is a
    base-128 varint.

    Parsing is defined by field numbers alone and gives back what was serialised. So the
    encoding is injective: a stored value can be identified with the bytes it is stored as,
    and distinct terms have distinct bytes to hash. */
module Wire {
  import opened Bytes
  import opened Rdf

  // ---- Varints ----

  function Varint(n: nat): (r: Bytes)
    ensures |r| > 0
  {
    if n < 128 then [ToByte(n)] else [ToByte(n % 128 + 128)] + Varint(n / 128)
  }

  /** The varint at the start of `b` and what follows it. */
  function ReadVarint(b: Bytes): (r: Option<(nat, Bytes)>)
    ensures r.Some? ==> |r.value.1| < |b|
  {
    if b == [] then None
    else if FromByte(b[0]) < 128 then Some((FromByte(b[0]), b[1..]))
    else
      var rest := ReadVarint(b[1..]);
      if rest.None? then None else Some((FromByte(b[0]) - 128 + 128 * rest.value.0, rest.value.1))
  }

  lemma {:induction false} VarintRoundTrip(n: nat, rest: Bytes)
    ensures ReadVarint(Varint(n) + rest) == Some((n, rest))
  {
    hide ToByte, FromByte;
    ByteRoundTrip(if n < 128 then n else n % 128 + 128);
    var b := Varint(n) + rest;
    if n < 128 {
      assert b[0] == ToByte(n) && b[1..] == rest;
    } else {
      assert b[0] == ToByte(n % 128 + 128) && b[1..] == Varint(n / 128) + rest;
      VarintRoundTrip(n / 128, rest);
    }
  }

  // ---- Length-delimited fields ----

  function Field(number: nat, payload: Bytes): (r: Bytes) { Varint(8 * number + 2) + Varint(|payload|) + payload }

  function OptField(number: nat, payload: Option<Bytes>): (r: Bytes) {
    if payload.Some? then Field(number, payload.value) else []
  }

  function NonEmpty(s: Bytes): (r: Option<Bytes>) { if s == [] then None else Some(s) }

  type Fields = map<nat, Bytes>

  /** The fields of a message by number; of several with one number the last counts. */
  function Parse(b: Bytes): (r: Option<Fields>)
    decreases |b|
  {
    if b == [] then Some(map[])
    else
      var key := ReadVarint(b);
      if key.None? || key.value.0 % 8 != 2 then None
      else
        var length := ReadVarint(key.value.1);
        if length.None? || length.value.0 > |length.value.1| then None
        else
          var n, rest := length.value.0, length.value.1;
          var after := Parse(rest[n..]);
          if after.None? then None else Some(map[key.value.0 / 8 := rest[..n]] + after.value)
  }

  /** A field is read back under its number. */
  lemma ParseField(number: nat, payload: Bytes, rest: Bytes)
    requires Parse(rest).Some?
    ensures Parse(Field(number, payload) + rest) == Some(map[number := payload] + Parse(rest).value)
  {
    hide Varint, ReadVarint;
    var key, tail := 8 * number + 2, Varint(|payload|) + (payload + rest);
    var b := Field(number, payload) + rest;
    assert b == Varint(key) + tail;
    VarintRoundTrip(key, tail);
    VarintRoundTrip(|payload|, payload + rest);
    assert (payload + rest)[..|payload|] == payload && (payload + rest)[|payload|..] == rest;
  }

  function Given(number: nat, payload: Option<Bytes>): (r: Fields) {
    if payload.Some? then map[number := payload.value] else map[]
  }

  lemma ParseOptField(number: nat, payload: Option<Bytes>, rest: Bytes)
    requires Parse(rest).Some?
    ensures Parse(OptField(number, payload) + rest) == Some(Given(number, payload) + Parse(rest).value)
  {
    hide Field, Parse;
    if payload.Some? {
      ParseField(number, payload.value, rest);
    } else {
      assert OptField(number, payload) + rest == rest;
      assert Given(number, payload) + Parse(rest).value == Parse(rest).value;
    }
  }

  lemma ParseNothing()
    ensures Parse([]) == Some(map[])
  {
  }

  /** The fields of a message whose fields come one after the other. */
  lemma ParseOne(number: nat, payload: Option<Bytes>)
    ensures Parse(OptField(number, payload)) == Some(Given(number, payload))
  {
    hide OptField, Parse;
    ParseNothing();
    ParseOptField(number, payload, []);
    assert OptField(number, payload) + [] == OptField(number, payload);
    assert Given(number, payload) + map[] == Given(number, payload);
  }

  lemma ParseTwo(x: Option<Bytes>, y: Option<Bytes>)
    ensures Parse(OptField(1, x) + OptField(2, y)) == Some(Given(1, x) + Given(2, y))
  {
    hide OptField, Parse;
    ParseOne(2, y);
    ParseOptField(1, x, OptField(2, y));
  }

  // ---- Messages ----

  function UriBytes(u: URI): (r: Bytes) { OptField(1, NonEmpty(u.uri)) }

  function BNodeBytes(b: BNode): (r: Bytes) { OptField(1, NonEmpty(b.id)) }

  function ResourceBytes(r: Resource): (s: Bytes) {
    match r
    case UriResource(u) => Field(1, UriBytes(u))
    case BNodeResource(b) => Field(2, BNodeBytes(b))
    case NoResource => []
  }

  function StringLiteralBytes(l: StringLiteral): (r: Bytes) {
    OptField(1, NonEmpty(l.content)) + OptField(2, NonEmpty(l.language))
  }

  function DatatypeLiteralBytes(l: DatatypeLiteral): (r: Bytes) {
    OptField(1, NonEmpty(l.content)) +
    OptField(2, if l.datatype_.Some? then Some(UriBytes(l.datatype_.value)) else None)
  }

  function LiteralBytes(l: Literal): (r: Bytes) {
    match l
    case Plain(s) => Field(1, StringLiteralBytes(s))
    case Typed(d) => Field(2, DatatypeLiteralBytes(d))
    case NoLiteral => []
  }

  function ValueBytes(v: Value): (r: Bytes) {
    match v
    case ResourceValue(r) => Field(1, ResourceBytes(r))
    case LiteralValue(l) => Field(2, LiteralBytes(l))
    case NoValue => []
  }

  function StatementBytes(s: Statement): (r: Bytes) {
    OptField(1, if s.subj.Some? then Some(ResourceBytes(s.subj.value)) else None) +
    (OptField(2, if s.pred.Some? then Some(UriBytes(s.pred.value)) else None) +
     (OptField(3, if s.obj.Some? then Some(ValueBytes(s.obj.value)) else None) +
      OptField(4, if s.ctx.Some? then Some(ResourceBytes(s.ctx.value)) else None)))
  }

  // ---- Parsing, by the field numbers of model/model.proto ----

  function Text(f: Fields, number: nat): (r: Bytes) { if number in f then f[number] else [] }

  function ParseUri(b: Bytes): (r: Option<URI>) {
    var f := Parse(b);
    if f.None? then None else Some(URI(Text(f.value, 1)))
  }

  function ParseBNode(b: Bytes): (r: Option<BNode>) {
    var f := Parse(b);
    if f.None? then None else Some(BNode(Text(f.value, 1)))
  }

  function ParseResource(b: Bytes): (r: Option<Resource>) {
    var f := Parse(b);
    if f.None? then None
    else if 1 in f.value then
      var u := ParseUri(f.value[1]);
      if u.None? then None else Some(UriResource(u.value))
    else if 2 in f.value then
      var n := ParseBNode(f.value[2]);
      if n.None? then None else Some(BNodeResource(n.value))
    else Some(NoResource)
  }

  function ParseStringLiteral(b: Bytes): (r: Option<StringLiteral>) {
    var f := Parse(b);
    if f.None? then None else Some(StringLiteral(Text(f.value, 1), Text(f.value, 2)))
  }

  function ParseDatatypeLiteral(b: Bytes): (r: Option<DatatypeLiteral>) {
    var f := Parse(b);
    if f.None? then None
    else if 2 !in f.value then Some(DatatypeLiteral(Text(f.value, 1), None))
    else
      var u := ParseUri(f.value[2]);
      if u.None? then None else Some(DatatypeLiteral(Text(f.value, 1), u))
  }

  function ParseLiteral(b: Bytes): (r: Option<Literal>) {
    var f := Parse(b);
    if f.None? then None
    else if 1 in f.value then
      var l := ParseStringLiteral(f.value[1]);
      if l.None? then None else Some(Plain(l.value))
    else if 2 in f.value then
      var l := ParseDatatypeLiteral(f.value[2]);
      if l.None? then None else Some(Typed(l.value))
    else Some(NoLiteral)
  }

  function ParseValue(b: Bytes): (r: Option<Value>) {
    var f := Parse(b);
    if f.None? then None
    else if 1 in f.value then
      var x := ParseResource(f.value[1]);
      if x.None? then None else Some(ResourceValue(x.value))
    else if 2 in f.value then
      var l := ParseLiteral(f.value[2]);
      if l.None? then None else Some(LiteralValue(l.value))
    else Some(NoValue)
  }

  /** A field that is absent, or one that parses. */
  function Optional<T>(f: Fields, number: nat, parse: Bytes -> Option<T>): (r: Option<Option<T>>) {
    if number !in f then Some(None)
    else
      var x := parse(f[number]);
      if x.None? then None else Some(x)
  }

  function ParseStatement(b: Bytes): (r: Option<Statement>) {
    var f := Parse(b);
    if f.None? then None
    else
      var subj, pred := Optional(f.value, 1, ParseResource), Optional(f.value, 2, ParseUri);
      var obj, ctx := Optional(f.value, 3, ParseValue), Optional(f.value, 4, ParseResource);
      if subj.None? || pred.None? || obj.None? || ctx.None? then None
      else Some(Statement(subj.value, pred.value, obj.value, ctx.value))
  }

  // ---- Round trips ----

  lemma UriRoundTrip(u: URI)
    ensures ParseUri(UriBytes(u)) == Some(u)
  {
    hide Parse, OptField;
    ParseOne(1, NonEmpty(u.uri));
  }

  lemma BNodeRoundTrip(b: BNode)
    ensures ParseBNode(BNodeBytes(b)) == Some(b)
  {
    hide Parse, OptField;
    ParseOne(1, NonEmpty(b.id));
  }

  lemma ResourceRoundTrip(r: Resource)
    ensures ParseResource(ResourceBytes(r)) == Some(r)
  {
    hide Parse, Field, UriBytes, BNodeBytes, ParseUri, ParseBNode;
    match r
    case UriResource(u) => ParseOne(1, Some(UriBytes(u))); UriRoundTrip(u);
    case BNodeResource(b) => ParseOne(2, Some(BNodeBytes(b))); BNodeRoundTrip(b);
    case NoResource => ParseNothing();
  }

  lemma StringLiteralRoundTrip(l: StringLiteral)
    ensures ParseStringLiteral(StringLiteralBytes(l)) == Some(l)
  {
    hide Parse, OptField;
    ParseTwo(NonEmpty(l.content), NonEmpty(l.language));
  }

  lemma DatatypeLiteralRoundTrip(l: DatatypeLiteral)
    ensures ParseDatatypeLiteral(DatatypeLiteralBytes(l)) == Some(l)
  {
    hide Parse, OptField, UriBytes, ParseUri;
    ParseTwo(NonEmpty(l.content), if l.datatype_.Some? then Some(UriBytes(l.datatype_.value)) else None);
    if l.datatype_.Some? { UriRoundTrip(l.datatype_.value); }
  }

  lemma LiteralRoundTrip(l: Literal)
    ensures ParseLiteral(LiteralBytes(l)) == Some(l)
  {
    hide Parse, Field, StringLiteralBytes, DatatypeLiteralBytes, ParseStringLiteral, ParseDatatypeLiteral;
    match l
    case Plain(s) => ParseOne(1, Some(StringLiteralBytes(s))); StringLiteralRoundTrip(s);
    case Typed(d) => ParseOne(2, Some(DatatypeLiteralBytes(d))); DatatypeLiteralRoundTrip(d);
    case NoLiteral => ParseNothing();
  }

  lemma ValueRoundTrip(v: Value)
    ensures ParseValue(ValueBytes(v)) == Some(v)
  {
    hide Parse, Field, ResourceBytes, LiteralBytes, ParseResource, ParseLiteral;
    match v
    case ResourceValue(r) => ParseOne(1, Some(ResourceBytes(r))); ResourceRoundTrip(r);
    case LiteralValue(l) => ParseOne(2, Some(LiteralBytes(l))); LiteralRoundTrip(l);
    case NoValue => ParseNothing();
  }

  lemma ParseFour(a: Option<Bytes>, b: Option<Bytes>, c: Option<Bytes>, d: Option<Bytes>)
    ensures Parse(OptField(1, a) + (OptField(2, b) + (OptField(3, c) + OptField(4, d))))
         == Some(Given(1, a) + (Given(2, b) + (Given(3, c) + Given(4, d))))
  {
    hide OptField, Parse, Given;
    ParseOne(4, d);
    ParseOptField(3, c, OptField(4, d));
    ParseOptField(2, b, OptField(3, c) + OptField(4, d));
    ParseOptField(1, a, OptField(2, b) + (OptField(3, c) + OptField(4, d)));
  }

  /** What is stored is what is read back. */
  lemma StatementRoundTrip(s: Statement)
    ensures ParseStatement(StatementBytes(s)) == Some(s)
  {
    hide Parse, OptField, ResourceBytes, UriBytes, ValueBytes, ParseResource, ParseUri, ParseValue;
    ParseFour(if s.subj.Some? then Some(ResourceBytes(s.subj.value)) else None,
              if s.pred.Some? then Some(UriBytes(s.pred.value)) else None,
              if s.obj.Some? then Some(ValueBytes(s.obj.value)) else None,
              if s.ctx.Some? then Some(ResourceBytes(s.ctx.value)) else None);
    if s.subj.Some? { ResourceRoundTrip(s.subj.value); }
    if s.pred.Some? { UriRoundTrip(s.pred.value); }
    if s.obj.Some? { ValueRoundTrip(s.obj.value); }
    if s.ctx.Some? { ResourceRoundTrip(s.ctx.value); }
  }

  // ---- Injectivity ----

  lemma UriInjective(a: URI, b: URI)
    ensures UriBytes(a) == UriBytes(b) ==> a == b
  {
    hide UriBytes, ParseUri;
    UriRoundTrip(a);
    UriRoundTrip(b);
  }

  lemma ResourceInjective(a: Resource, b: Resource)
    requires ResourceBytes(a) == ResourceBytes(b)
    ensures a == b
  {
    hide ResourceBytes, ParseResource;
    ResourceRoundTrip(a);
    ResourceRoundTrip(b);
  }

  lemma ValueInjective(a: Value, b: Value)
    requires ValueBytes(a) == ValueBytes(b)
    ensures a == b
  {
    hide ValueBytes, ParseValue;
    ValueRoundTrip(a);
    ValueRoundTrip(b);
  }

  /** No two statements serialise to the same bytes. */
  lemma StatementInjective(a: Statement, b: Statement)
    requires StatementBytes(a) == StatementBytes(b)
    ensures a == b
  {
    hide StatementBytes, ParseStatement;
    StatementRoundTrip(a);
    StatementRoundTrip(b);
  }
}
