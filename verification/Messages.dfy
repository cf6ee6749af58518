/**
  Protocol buffer messages under an explicit schema: encoding, the separately computed size, and decoding.
  A message type is a list of fields in tag order; a message holds for each field the list of its values,
  which for a field that is not repeated has at most one entry, and the raw bytes of unknown fields.
  */
module Messages {
  import opened Bytes
  import opened Wire

  datatype Option<T> = None | Some(value: T)

  /** How a number is written; the word it stands for is what the struct field holds, taken as unsigned. */
  datatype Codec = Bool | Int32 | Uint32 | Int64 | Fixed32 | Fixed64 | Zigzag32 | Zigzag64

  datatype Kind = Scalar(codec: Codec) | Text | Nested(t: nat)

  datatype Rule = Optional | Required | Repeated | Packed

  datatype Field = Field(tag: nat, rule: Rule, kind: Kind)

  datatype MessageType = MessageType(fields: seq<Field>, keepsUnknown: bool)

  /** The message types, which nested fields name by their index: types may be recursive. */
  type Schema = seq<MessageType>

  datatype Value = Num(n: nat) | Blob(b: ByteString) | Sub(m: Message)

  /** The values of one field. */
  datatype Slot = Slot(values: seq<Value>)

  datatype Message = Message(fields: seq<Slot>, unknown: ByteString)

  const MAXTAG: nat := 0x2000_0000

  predicate Singular(f: Field) {
    f.rule.Optional? || f.rule.Required?
  }

  predicate FieldOk(S: Schema, f: Field) {
    && 0 < f.tag < MAXTAG
    && (f.rule.Packed? ==> f.kind.Scalar?)
    && (f.kind.Nested? ==> f.kind.t < |S|)
  }

  predicate TypeOk(S: Schema, t: MessageType) {
    && (forall i :: 0 <= i < |t.fields| ==> FieldOk(S, t.fields[i]))
    && (forall i, j :: 0 <= i < j < |t.fields| ==> t.fields[i].tag < t.fields[j].tag)
  }

  predicate SchemaOk(S: Schema) {
    forall t :: 0 <= t < |S| ==> TypeOk(S, S[t])
  }

  // ---------- numbers ----------

  function Words(c: Codec): nat {
    match c
    case Bool => 2
    case Int32 => TWO32
    case Uint32 => TWO32
    case Fixed32 => TWO32
    case Zigzag32 => TWO32
    case _ => TWO64
  }

  function WireOfCodec(c: Codec): nat {
    match c
    case Fixed32 => FIXED32
    case Fixed64 => FIXED64
    case _ => VARINT
  }

  /** A single int32 is sign-extended to 64 bits; in a list it is not. */
  function Widened(n: nat, widen: bool): nat {
    if widen && TWO31 <= n < TWO32 then n + (TWO64 - TWO32) else n
  }

  function EncScalar(c: Codec, widen: bool, n: nat): ByteString {
    match c
    case Bool => Varint(n)
    case Int32 => Varint(Widened(n, widen))
    case Uint32 => Varint(n)
    case Int64 => Varint(n)
    case Fixed32 => Fixed(n, 4)
    case Fixed64 => Fixed(n, 8)
    case Zigzag32 => Varint(Zigzag(n, TWO32))
    case Zigzag64 => Varint(Zigzag(n, TWO64))
  }

  /** A Boolean is taken to need one byte. */
  function SizeScalar(c: Codec, widen: bool, n: nat): nat {
    match c
    case Bool => 1
    case Int32 => SizeVarint(Widened(n, widen))
    case Uint32 => SizeVarint(n)
    case Int64 => SizeVarint(n)
    case Fixed32 => 4
    case Fixed64 => 8
    case Zigzag32 => SizeVarint(Zigzag(n, TWO32))
    case Zigzag64 => SizeVarint(Zigzag(n, TWO64))
  }

  /** The struct field keeps the low 32 bits, or whether the number is not zero. */
  function Stored(c: Codec, u: nat): nat {
    match c
    case Bool => if u == 0 then 0 else 1
    case Int32 => u % TWO32
    case Uint32 => u % TWO32
    case Fixed32 => u % TWO32
    case Zigzag32 => Unzigzag(u % TWO32, TWO32)
    case Zigzag64 => Unzigzag(u, TWO64)
    case _ => u
  }

  function ScalarOf(c: Codec, b: ByteString): (p: Parsed<nat>)
    ensures p.Got? ==> |p.rest| < |b| && Suffix(p.rest, b)
  {
    match (match c case Fixed32 => FixedOf(b, 4) case Fixed64 => FixedOf(b, 8) case _ => VarintOf(b))
    case Got(u, r) => Got(Stored(c, u), r)
    case Err(e) => Err(e)
  }

  lemma SizeScalarExact(c: Codec, widen: bool, n: nat)
    requires n < Words(c)
    ensures SizeScalar(c, widen, n) == |EncScalar(c, widen, n)|
  {
    match c
    case Fixed32 =>
    case Fixed64 =>
    case Bool =>
    case Zigzag32 => SizeVarintExact(Zigzag(n, TWO32));
    case Zigzag64 => SizeVarintExact(Zigzag(n, TWO64));
    case Int32 => SizeVarintExact(Widened(n, widen));
    case _ => SizeVarintExact(n);
  }

  lemma ScalarReadsBack(c: Codec, widen: bool, n: nat, rest: ByteString)
    requires n < Words(c)
    ensures EncScalar(c, widen, n) != []
    ensures ScalarOf(c, EncScalar(c, widen, n) + rest) == Got(n, rest)
  {
    hide VarintOf, Varint, FixedOf, Fixed, FixedValue;
    match c
    case Fixed32 =>
      FixedWord(n, 4);
      FixedReadsBack(n, 4, rest);
    case Fixed64 =>
      FixedWord(n, 8);
      FixedReadsBack(n, 8, rest);
    case Zigzag32 =>
      ZigzagRound(n, TWO31);
      VarintReadsBack(Zigzag(n, TWO32), rest);
    case Zigzag64 =>
      ZigzagRound(n, TWO63);
      VarintReadsBack(Zigzag(n, TWO64), rest);
    case _ => VarintReadsBack(Widened(n, c.Int32? && widen), rest);
  }

  lemma FixedWord(n: nat, size: nat)
    requires (size == 4 && n < TWO32) || (size == 8 && n < TWO64)
    ensures FixedValue(Fixed(n, size)) == n
  {
    PowerOfWords();
    FixedRound(n, size);
  }

  // ---------- encoding ----------

  function WireOf(k: Kind): nat {
    if k.Scalar? then WireOfCodec(k.codec) else BYTES
  }

  function TagCode(f: Field): ByteString {
    Varint(8 * f.tag + if f.rule.Packed? then BYTES else WireOf(f.kind))
  }

  function Payload(S: Schema, f: Field, v: Value): ByteString
    decreases v, 0
  {
    match v
    case Num(n) => if f.kind.Scalar? then EncScalar(f.kind.codec, Singular(f), n) else []
    case Blob(b) => if f.kind.Text? then RawBytes(b) else []
    case Sub(m) => if f.kind.Nested? && f.kind.t < |S| then RawBytes(EncMessage(S, f.kind.t, m)) else []
  }

  function EncValues(S: Schema, f: Field, vs: seq<Value>): ByteString
    decreases vs, 0
  {
    if vs == [] then [] else TagCode(f) + Payload(S, f, vs[0]) + EncValues(S, f, vs[1..])
  }

  function PackedBody(S: Schema, f: Field, vs: seq<Value>): ByteString
    decreases vs, 0
  {
    if vs == [] then [] else Payload(S, f, vs[0]) + PackedBody(S, f, vs[1..])
  }

  function EncField(S: Schema, f: Field, vs: seq<Value>): ByteString
    decreases vs, 1
  {
    if vs == [] then []
    else if f.rule.Packed? then TagCode(f) + RawBytes(PackedBody(S, f, vs))
    else EncValues(S, f, vs)
  }

  function EncFields(S: Schema, fs: seq<Field>, fields: seq<Slot>): ByteString
    decreases fields, 0
  {
    if fs == [] || fields == [] then [] else EncField(S, fs[0], fields[0].values) + EncFields(S, fs[1..], fields[1..])
  }

  /** The fields in tag order, then the unknown fields as they came. */
  function EncMessage(S: Schema, t: nat, m: Message): ByteString
    requires t < |S|
    decreases m, 1
  {
    EncFields(S, S[t].fields, m.fields) + if S[t].keepsUnknown then m.unknown else []
  }

  // ---------- sizes ----------

  function SizePayload(S: Schema, f: Field, v: Value): nat
    decreases v, 0
  {
    match v
    case Num(n) => if f.kind.Scalar? then SizeScalar(f.kind.codec, Singular(f), n) else 0
    case Blob(b) => if f.kind.Text? then SizeRawBytes(b) else 0
    case Sub(m) =>
      if f.kind.Nested? && f.kind.t < |S| then
        var n := SizeMessage(S, f.kind.t, m);
        n + SizeVarint(n)
      else 0
  }

  /** The sizes of the values alone; the tags are counted by the number of values. */
  function SizeValues(S: Schema, f: Field, vs: seq<Value>): nat
    decreases vs, 0
  {
    if vs == [] then 0 else SizePayload(S, f, vs[0]) + SizeValues(S, f, vs[1..])
  }

  function SizeField(S: Schema, f: Field, vs: seq<Value>): nat
    decreases vs, 1
  {
    if vs == [] then 0
    else if f.rule.Packed? then
      var n := if f.kind == Scalar(Bool) then |vs| else SizeValues(S, f, vs);
      |TagCode(f)| + SizeVarint(n) + n
    else |vs| * |TagCode(f)| + SizeValues(S, f, vs)
  }

  function SizeFields(S: Schema, fs: seq<Field>, fields: seq<Slot>): nat
    decreases fields, 0
  {
    if fs == [] || fields == [] then 0 else SizeField(S, fs[0], fields[0].values) + SizeFields(S, fs[1..], fields[1..])
  }

  function SizeMessage(S: Schema, t: nat, m: Message): nat
    requires t < |S|
    decreases m, 1
  {
    SizeFields(S, S[t].fields, m.fields) + if S[t].keepsUnknown then |m.unknown| else 0
  }

  // ---------- which messages a schema describes ----------

  predicate ValueConforms(S: Schema, f: Field, v: Value)
    decreases v, 0
  {
    match v
    case Num(n) => f.kind.Scalar? && n < Words(f.kind.codec)
    case Blob(b) => f.kind.Text?
    case Sub(m) => f.kind.Nested? && f.kind.t < |S| && Conforms(S, f.kind.t, m)
  }

  predicate FieldConforms(S: Schema, f: Field, vs: seq<Value>)
    decreases vs, 1
  {
    && (Singular(f) ==> |vs| <= 1)
    && forall j :: 0 <= j < |vs| ==> ValueConforms(S, f, vs[j])
  }

  /** The bytes are unknown fields, each with its tag and wire type in shortest form, as the decoder keeps them. */
  predicate UnknownOk(t: MessageType, b: ByteString)
    decreases |b|
  {
    b == [] ||
    match VarintOf(b)
    case Err(_) => false
    case Got(u, r) =>
      && Varint(u) + r == b
      && u % 8 != ENDGROUP && u / 8 > 0 && IndexOf(t.fields, u / 8).None?
      && match Skip(r, u % 8)
         case Err(_) => false
         case Got(_, q) => UnknownOk(t, q)
  }

  predicate Conforms(S: Schema, t: nat, m: Message)
    requires t < |S|
    decreases m, 1
  {
    && |m.fields| == |S[t].fields|
    && (forall i :: 0 <= i < |m.fields| ==> FieldConforms(S, S[t].fields[i], m.fields[i].values))
    && (if S[t].keepsUnknown then UnknownOk(S[t], m.unknown) else m.unknown == [])
  }

  /** Every required field is set, in the message and in those nested in it. */
  predicate ValueComplete(S: Schema, f: Field, v: Value)
    decreases v, 0
  {
    v.Sub? && f.kind.Nested? && f.kind.t < |S| ==> Complete(S, f.kind.t, v.m)
  }

  predicate FieldComplete(S: Schema, f: Field, vs: seq<Value>)
    decreases vs, 1
  {
    && (f.rule.Required? ==> vs != [])
    && forall j :: 0 <= j < |vs| ==> ValueComplete(S, f, vs[j])
  }

  predicate Complete(S: Schema, t: nat, m: Message)
    requires t < |S|
    decreases m, 1
  {
    && |m.fields| == |S[t].fields|
    && forall i :: 0 <= i < |m.fields| ==> FieldComplete(S, S[t].fields[i], m.fields[i].values)
  }

  function Empty(t: MessageType): Message {
    Message(seq(|t.fields|, _ => Slot([])), [])
  }

  function IndexOf(fs: seq<Field>, tag: nat): (i: Option<nat>)
    ensures i.Some? ==> i.value < |fs| && fs[i.value].tag == tag
    ensures i.None? ==> forall k :: 0 <= k < |fs| ==> fs[k].tag != tag
  {
    if fs == [] then None
    else if fs[|fs| - 1].tag == tag then Some(|fs| - 1)
    else IndexOf(fs[..|fs| - 1], tag)
  }

  // ---------- decoding ----------

  /** `missing` is the remembered error that a required field was not set; decoding goes on past it. */
  datatype Outcome = Decoded(m: Message, missing: bool) | Failed(error: Error)

  datatype FieldRead = Read(values: seq<Value>, missing: bool, rest: ByteString) | Bad(error: Error)

  /** `seen` is the bitmap of the required tags up to 64 read so far, `required` the counter. */
  datatype LoopState = LoopState(rest: ByteString, m: Message, missing: bool, seen: set<nat>, required: int)

  datatype StepResult = Next(state: LoopState) | Stop(error: Error)

  function RequiredCount(fs: seq<Field>): nat {
    if fs == [] then 0
    else RequiredCount(fs[1..]) + if fs[0].rule.Required? then 1 else 0
  }

  predicate Packable(f: Field) {
    f.kind.Scalar? && !Singular(f)
  }

  /** A packed list of Booleans is counted in elements, not bytes. */
  function BoolsOf(b: ByteString, count: nat, vs: seq<Value>): (p: Parsed<seq<Value>>)
    ensures p.Got? ==> |p.rest| <= |b| && Suffix(p.rest, b)
  {
    if count == 0 then Got(vs, b)
    else
      match ScalarOf(Bool, b)
      case Err(e) => Err(e)
      case Got(x, r) =>
        var p := BoolsOf(r, count - 1, vs + [Num(x)]);
        if p.Got? then SuffixTransitive(p.rest, r, b); p else p
  }

  /** Elements are read until `size` bytes are used up; the last may run over. */
  function PackedOf(c: Codec, b: ByteString, size: nat, vs: seq<Value>): (p: Parsed<seq<Value>>)
    ensures p.Got? ==> |p.rest| <= |b| && Suffix(p.rest, b)
    decreases |b|
  {
    if size == 0 then Got(vs, b)
    else
      match ScalarOf(c, b)
      case Err(e) => Err(e)
      case Got(x, r) =>
        var used := |b| - |r|;
        var p := PackedOf(c, r, if used >= size then 0 else size - used, vs + [Num(x)]);
        if p.Got? then SuffixTransitive(p.rest, r, b); p else p
  }

  function PackedFieldOf(c: Codec, r: ByteString, vs: seq<Value>): (p: Parsed<seq<Value>>)
    ensures p.Got? ==> |p.rest| <= |r| && Suffix(p.rest, r)
  {
    match VarintOf(r)
    case Err(e) => Err(e)
    case Got(n, q) =>
      if c.Bool? then
        var p := BoolsOf(q, if n < TWO63 then n else 0, vs);
        if p.Got? then SuffixTransitive(p.rest, q, r); p else p
      else if n >= TWO63 then Err(Overflow)
      else
        var p := PackedOf(c, q, n, vs);
        if p.Got? then SuffixTransitive(p.rest, q, r); p else p
  }

  /** A single value replaces what was there, a repeated one is added. */
  function Put(f: Field, vs: seq<Value>, v: Value): seq<Value> {
    if Singular(f) then [v] else vs + [v]
  }

  /** The nested message that a further occurrence is merged into. */
  function Base(S: Schema, f: Field, vs: seq<Value>): Message
    requires f.kind.Nested? && f.kind.t < |S|
  {
    if Singular(f) && vs != [] && vs[0].Sub? then vs[0].m else Empty(S[f.kind.t])
  }

  function FieldOf(S: Schema, f: Field, wire: nat, r: ByteString, vs: seq<Value>): (p: FieldRead)
    ensures p.Read? ==> |p.rest| <= |r| && Suffix(p.rest, r)
    decreases |r|, 0
  {
    if wire != STARTGROUP && wire != WireOf(f.kind) then
      if wire == BYTES && Packable(f) then
        match PackedFieldOf(f.kind.codec, r, vs)
        case Got(ws, rest) => Read(ws, false, rest)
        case Err(e) => Bad(e)
      else Bad(BadWire)
    else
      match f.kind
      case Scalar(c) =>
        (match ScalarOf(c, r)
         case Got(n, rest) => Read(Put(f, vs, Num(n)), false, rest)
         case Err(e) => Bad(e))
      case Text =>
        (match RawBytesOf(r)
         case Got(b, rest) => Read(Put(f, vs, Blob(b)), false, rest)
         case Err(e) => Bad(e))
      case Nested(t) =>
        match RawBytesOf(r)
        case Err(e) => Bad(e)
        case Got(raw, rest) =>
          if t >= |S| then Bad(BadWire)
          else
            match Decode(S, t, raw, Base(S, f, vs))
            case Decoded(m, missing) => Read(Put(f, vs, Sub(m)), missing, rest)
            case Failed(e) => Bad(e)
  }

  /** A required field counts once if its tag is at most 64, and at every occurrence if it is above. */
  function Account(f: Field, s: LoopState): LoopState {
    if !f.rule.Required? then s
    else if f.tag > 64 then s.(required := s.required - 1)
    else if f.tag in s.seen then s
    else s.(seen := s.seen + {f.tag}, required := s.required - 1)
  }

  /** One field of the input, known or not. */
  function Step(S: Schema, t: nat, s: LoopState): (p: StepResult)
    requires t < |S|
    ensures p.Next? ==> |p.state.rest| < |s.rest| && Suffix(p.state.rest, s.rest)
    decreases |s.rest|, 0
  {
    match VarintOf(s.rest)
    case Err(e) => Stop(e)
    case Got(u, r) =>
      var wire, tag := u % 8, u / 8;
      if wire == ENDGROUP then Stop(EndGroup)
      else if tag == 0 then Stop(IllegalTag)
      else
        match IndexOf(S[t].fields, tag)
        case None =>
          (match Skip(r, wire)
           case Err(e) => Stop(e)
           case Got(_, q) =>
             SuffixTransitive(q, r, s.rest);
             var kept := if S[t].keepsUnknown then s.m.unknown + (Varint(u) + Before(r, q)) else s.m.unknown;
             Next(s.(rest := q, m := s.m.(unknown := kept))))
        case Some(i) =>
          if i >= |s.m.fields| then Stop(BadWire)
          else
            match FieldOf(S, S[t].fields[i], wire, r, s.m.fields[i].values)
            case Bad(e) => Stop(e)
            case Read(vs, missing, q) =>
              SuffixTransitive(q, r, s.rest);
              var read := s.(rest := q, m := s.m.(fields := s.m.fields[i := Slot(vs)]), missing := s.missing || missing);
              Next(Account(S[t].fields[i], read))
  }

  function Loop(S: Schema, t: nat, s: LoopState): Outcome
    requires t < |S|
    decreases |s.rest|, 1
  {
    if s.rest == [] then Decoded(s.m, s.missing || s.required > 0)
    else
      match Step(S, t, s)
      case Stop(e) => Failed(e)
      case Next(s') => Loop(S, t, s')
  }

  /** Decodes into an existing message, as merging does. */
  function Decode(S: Schema, t: nat, b: ByteString, m: Message): Outcome
    requires t < |S|
    decreases |b|, 2
  {
    Loop(S, t, LoopState(b, m, false, {}, RequiredCount(S[t].fields)))
  }
}
