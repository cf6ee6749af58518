/** What the message codec promises: exact sizes, and that decoding an encoding gives the message back. */
module MessageRoundTrip {
  import opened Bytes
  import opened Wire
  import opened Messages

  // ---------- sizes ----------

  lemma {:induction false} SizePayloadExact(S: Schema, f: Field, v: Value)
    requires ValueConforms(S, f, v)
    ensures SizePayload(S, f, v) == |Payload(S, f, v)|
    decreases v, 0
  {
    match v
    case Num(n) => SizeScalarExact(f.kind.codec, Singular(f), n);
    case Blob(b) => SizeVarintExact(|b|);
    case Sub(m) =>
      SizeExact(S, f.kind.t, m);
      SizeVarintExact(|EncMessage(S, f.kind.t, m)|);
  }

  lemma {:induction false} SizeValuesExact(S: Schema, f: Field, vs: seq<Value>)
    requires forall j :: 0 <= j < |vs| ==> ValueConforms(S, f, vs[j])
    ensures |EncValues(S, f, vs)| == |vs| * |TagCode(f)| + SizeValues(S, f, vs)
    ensures |PackedBody(S, f, vs)| == SizeValues(S, f, vs)
    ensures f.kind == Scalar(Bool) ==> SizeValues(S, f, vs) == |vs|
    decreases vs, 0
  {
    if vs != [] {
      SizePayloadExact(S, f, vs[0]);
      SizeValuesExact(S, f, vs[1..]);
      OneMore(|vs| - 1, |TagCode(f)|);
    }
  }

  lemma {:induction false} OneMore(n: nat, k: nat)
    ensures (n + 1) * k == n * k + k
  {
  }

  lemma {:induction false} SizeFieldsExact(S: Schema, fs: seq<Field>, fields: seq<Slot>)
    requires |fields| == |fs|
    requires forall i :: 0 <= i < |fs| ==> FieldConforms(S, fs[i], fields[i].values)
    ensures SizeFields(S, fs, fields) == |EncFields(S, fs, fields)|
    decreases fields, 0
  {
    if fs != [] {
      assert FieldConforms(S, fs[0], fields[0].values);
      SizeValuesExact(S, fs[0], fields[0].values);
      SizeVarintExact(|PackedBody(S, fs[0], fields[0].values)|);
      SizeFieldsExact(S, fs[1..], fields[1..]);
    }
  }

  /** The size computed beforehand is the number of bytes written. */
  lemma {:induction false} SizeExact(S: Schema, t: nat, m: Message)
    requires t < |S| && Conforms(S, t, m)
    ensures SizeMessage(S, t, m) == |EncMessage(S, t, m)|
    decreases m, 1
  {
    SizeFieldsExact(S, S[t].fields, m.fields);
  }

  // ---------- one field of the input ----------

  lemma {:induction false} IndexOfTag(S: Schema, fs: seq<Field>, i: nat)
    requires i < |fs|
    requires forall j, k :: 0 <= j < k < |fs| ==> fs[j].tag < fs[k].tag
    ensures IndexOf(fs, fs[i].tag) == Some(i)
  {
    if i < |fs| - 1 {
      IndexOfTag(S, fs[..|fs| - 1], i);
    }
  }

  function WireOfField(f: Field): nat {
    if f.rule.Packed? then BYTES else WireOf(f.kind)
  }

  /** The state after a field was read; `missing` if a required field was not set in it. */
  function Filled(f: Field, s: LoopState, i: nat, vs: seq<Value>, missing: bool, rest: ByteString): LoopState
    requires i < |s.m.fields|
  {
    Account(f, s.(rest := rest, m := s.m.(fields := s.m.fields[i := Slot(vs)]), missing := s.missing || missing))
  }

  /** A tag leads to its field. */
  lemma {:induction false} TagStep(S: Schema, t: nat, s: LoopState, i: nat, r: ByteString, vs: seq<Value>, missing: bool, rest: ByteString)
    requires SchemaOk(S) && t < |S| && i < |S[t].fields| == |s.m.fields|
    requires var f := S[t].fields[i];
             && s.rest == TagCode(f) + r
             && FieldOf(S, f, WireOfField(f), r, s.m.fields[i].values) == Read(vs, missing, rest)
    ensures Loop(S, t, s) == Loop(S, t, Filled(S[t].fields[i], s, i, vs, missing, rest))
  {
    hide FieldOf, Loop, VarintOf, Varint;
    var f := S[t].fields[i];
    assert TypeOk(S, S[t]) && FieldOk(S, f);
    var u := 8 * f.tag + WireOfField(f);
    VarintReadsBack(u, r);
    assert u % 8 == WireOfField(f) && u / 8 == f.tag;
    IndexOfTag(S, S[t].fields, i);
    assert Step(S, t, s) == Next(Filled(f, s, i, vs, missing, rest));
    LoopStep(S, t, s);
  }

  lemma {:induction false} LoopStep(S: Schema, t: nat, s: LoopState)
    requires t < |S|
    ensures s.rest == [] ==> Loop(S, t, s) == Decoded(s.m, s.missing || s.required > 0)
    ensures s.rest != [] && Step(S, t, s).Next? ==> Loop(S, t, s) == Loop(S, t, Step(S, t, s).state)
  {
  }

  predicate AllConform(S: Schema, f: Field, vs: seq<Value>) {
    forall j :: 0 <= j < |vs| ==> ValueConforms(S, f, vs[j])
  }

  lemma {:induction false} PackedHead(S: Schema, f: Field, vs: seq<Value>)
    requires f.kind.Scalar? && vs != [] && AllConform(S, f, vs)
    ensures AllConform(S, f, vs[1..])
    ensures vs[0].Num? && vs[0].n < Words(f.kind.codec)
    ensures PackedBody(S, f, vs) == EncScalar(f.kind.codec, Singular(f), vs[0].n) + PackedBody(S, f, vs[1..])
  {
    assert ValueConforms(S, f, vs[0]);
  }

  lemma {:induction false} BoolsReadBack(S: Schema, f: Field, vs: seq<Value>, done: seq<Value>, rest: ByteString)
    requires f.kind == Scalar(Bool) && AllConform(S, f, vs)
    ensures BoolsOf(PackedBody(S, f, vs) + rest, |vs|, done) == Got(done + vs, rest)
  {
    if vs == [] {
      assert PackedBody(S, f, vs) + rest == rest && done + vs == done;
    } else {
      hide ScalarOf, EncScalar, PackedBody, AllConform;
      PackedHead(S, f, vs);
      var n, tail := vs[0].n, PackedBody(S, f, vs[1..]);
      Reassociate(EncScalar(Bool, Singular(f), n), tail, rest);
      ScalarReadsBack(Bool, Singular(f), n, tail + rest);
      BoolsReadBack(S, f, vs[1..], done + [vs[0]], rest);
      DoneMore(done, vs);
    }
  }

  lemma {:induction false} PackedStep(c: Codec, e: ByteString, tail: ByteString, rest: ByteString, n: nat, done: seq<Value>)
    requires e != [] && ScalarOf(c, e + (tail + rest)) == Got(n, tail + rest)
    ensures PackedOf(c, (e + tail) + rest, |e + tail|, done) == PackedOf(c, tail + rest, |tail|, done + [Num(n)])
  {
    hide ScalarOf;
    Reassociate(e, tail, rest);
  }

  lemma {:induction false} DoneMore(done: seq<Value>, vs: seq<Value>)
    requires vs != []
    ensures done + [vs[0]] + vs[1..] == done + vs
  {
  }

  lemma {:induction false} PackedReadBack(S: Schema, f: Field, vs: seq<Value>, done: seq<Value>, rest: ByteString)
    requires f.kind.Scalar? && AllConform(S, f, vs)
    ensures PackedOf(f.kind.codec, PackedBody(S, f, vs) + rest, |PackedBody(S, f, vs)|, done) == Got(done + vs, rest)
  {
    if vs == [] {
      assert PackedBody(S, f, vs) + rest == rest && done + vs == done;
    } else {
      hide *;
      PackedHead(S, f, vs);
      var c, n, tail := f.kind.codec, vs[0].n, PackedBody(S, f, vs[1..]);
      ScalarReadsBack(c, Singular(f), n, tail + rest);
      PackedStep(c, EncScalar(c, Singular(f), n), tail, rest, n, done);
      PackedReadBack(S, f, vs[1..], done + [vs[0]], rest);
      DoneMore(done, vs);
    }
  }

  lemma {:induction false} PackedFieldReads(S: Schema, f: Field, vs: seq<Value>, rest: ByteString)
    requires f.rule.Packed? && f.kind.Scalar? && AllConform(S, f, vs)
    requires |PackedBody(S, f, vs)| < TWO63
    ensures FieldOf(S, f, BYTES, RawBytes(PackedBody(S, f, vs)) + rest, []) == Read(vs, false, rest)
  {
    hide VarintOf, Varint, BoolsOf, PackedOf, PackedBody;
    var body := PackedBody(S, f, vs);
    Reassociate(Varint(|body|), body, rest);
    VarintReadsBack(|body|, body + rest);
    SizeValuesExact(S, f, vs);
    if f.kind.codec.Bool? {
      BoolsReadBack(S, f, vs, [], rest);
    } else {
      PackedReadBack(S, f, vs, [], rest);
    }
    assert [] + vs == vs;
  }

  // ---------- the round trip ----------

  predicate AllComplete(S: Schema, f: Field, vs: seq<Value>) {
    forall j :: 0 <= j < |vs| ==> ValueComplete(S, f, vs[j])
  }

  /** A written value is read back and put into its field. */
  lemma {:induction false} ValueReadsBack(S: Schema, f: Field, v: Value, vs: seq<Value>, rest: ByteString)
    requires SchemaOk(S) && FieldOk(S, f) && ValueConforms(S, f, v)
    requires Singular(f) && f.kind.Nested? ==> vs == []
    requires |Payload(S, f, v)| < TWO63
    ensures FieldOf(S, f, WireOf(f.kind), Payload(S, f, v) + rest, vs) == Read(Put(f, vs, v), !ValueComplete(S, f, v), rest)
    decreases v, 0
  {
    match v
    case Num(n) =>
      hide ScalarOf, EncScalar;
      ScalarReadsBack(f.kind.codec, Singular(f), n, rest);
    case Blob(b) =>
      hide RawBytesOf, RawBytes;
      RawBytesSize(b);
      RawBytesReadBack(b, rest);
    case Sub(m) =>
      hide RawBytesOf, RawBytes, EncMessage, Conforms, Complete, Decode, SchemaOk;
      var e := EncMessage(S, f.kind.t, m);
      RawBytesSize(e);
      RawBytesReadBack(e, rest);
      RoundTrip(S, f.kind.t, m);
  }

  lemma {:induction false} RawBytesSize(b: ByteString)
    ensures |RawBytes(b)| > |b|
  {
  }

  lemma {:induction false} EncValuesHead(S: Schema, f: Field, vs: seq<Value>, rest: ByteString)
    requires vs != []
    ensures EncValues(S, f, vs) + rest == TagCode(f) + (Payload(S, f, vs[0]) + (EncValues(S, f, vs[1..]) + rest))
    ensures |EncValues(S, f, vs)| >= |Payload(S, f, vs[0])| + |EncValues(S, f, vs[1..])|
  {
    var a, b, c := TagCode(f), Payload(S, f, vs[0]), EncValues(S, f, vs[1..]);
    assert EncValues(S, f, vs) == a + b + c;
    hide *;
    assert a + b + c + rest == a + (b + (c + rest));
  }

  /** A list of values is read back one by one. */
  lemma {:induction false} ValuesReadBack(S: Schema, t: nat, s: LoopState, i: nat, vs: seq<Value>, rest: ByteString)
    requires SchemaOk(S) && t < |S| && i < |S[t].fields| == |s.m.fields|
    requires var f := S[t].fields[i];
             && !f.rule.Packed? && AllConform(S, f, vs) && vs != []
             && (Singular(f) ==> |vs| == 1 && s.m.fields[i].values == [])
             && |EncValues(S, f, vs)| < TWO63
             && s.rest == EncValues(S, f, vs) + rest
    ensures var f := S[t].fields[i];
            Loop(S, t, s) == Loop(S, t, Filled(f, s, i, s.m.fields[i].values + vs, !AllComplete(S, f, vs), rest))
    decreases vs, 0
  {
    hide Payload, FieldOf, Loop, EncValues, TagCode, ValueConforms, ValueComplete;
    var f := S[t].fields[i];
    assert TypeOk(S, S[t]) && FieldOk(S, f);
    var had := s.m.fields[i].values;
    var more := EncValues(S, f, vs[1..]) + rest;
    EncValuesHead(S, f, vs, rest);
    ValueReadsBack(S, f, vs[0], had, more);
    var unset := !ValueComplete(S, f, vs[0]);
    TagStep(S, t, s, i, Payload(S, f, vs[0]) + more, Put(f, had, vs[0]), unset, more);
    var s' := Filled(f, s, i, Put(f, had, vs[0]), unset, more);
    CompleteHead(S, f, vs);
    if |vs| == 1 {
      EncNothing(S, f, vs[1..], rest);
      assert Put(f, had, vs[0]) == had + vs;
    } else {
      ValuesReadBack(S, t, s', i, vs[1..], rest);
      DoneMore(had, vs);
      assert s'.m.fields[i := Slot(had + vs)] == s.m.fields[i := Slot(had + vs)];
    }
  }

  lemma {:induction false} CompleteHead(S: Schema, f: Field, vs: seq<Value>)
    requires vs != []
    ensures AllComplete(S, f, vs) <==> ValueComplete(S, f, vs[0]) && AllComplete(S, f, vs[1..])
  {
    if AllComplete(S, f, vs[1..]) && ValueComplete(S, f, vs[0]) {
      forall j | 0 <= j < |vs|
        ensures ValueComplete(S, f, vs[j])
      {
        assert j > 0 ==> vs[j] == vs[1..][j - 1];
      }
    }
  }

  lemma {:induction false} EncNothing(S: Schema, f: Field, vs: seq<Value>, rest: ByteString)
    requires vs == []
    ensures EncValues(S, f, vs) + rest == rest
  {
  }

  /** A whole field is read back; a field without values is not there. */
  lemma {:induction false} FieldReadsBack(S: Schema, t: nat, s: LoopState, i: nat, vs: seq<Value>, rest: ByteString)
    requires SchemaOk(S) && t < |S| && i < |S[t].fields| == |s.m.fields|
    requires var f := S[t].fields[i];
             && FieldConforms(S, f, vs) && vs != []
             && s.m.fields[i].values == []
             && |EncField(S, f, vs)| < TWO63
             && s.rest == EncField(S, f, vs) + rest
    ensures Loop(S, t, s) == Loop(S, t, Filled(S[t].fields[i], s, i, vs, !AllComplete(S, S[t].fields[i], vs), rest))
    decreases vs, 1
  {
    hide Payload, FieldOf, Loop, EncValues, TagCode, ValueConforms, ValueComplete, PackedBody, RawBytes;
    var f := S[t].fields[i];
    assert TypeOk(S, S[t]) && FieldOk(S, f);
    assert [] + vs == vs;
    if f.rule.Packed? {
      var body := PackedBody(S, f, vs);
      RawBytesSize(body);
      Reassociate(TagCode(f), RawBytes(body), rest);
      PackedFieldReads(S, f, vs, rest);
      NumbersComplete(S, f, vs);
      TagStep(S, t, s, i, RawBytes(body) + rest, vs, false, rest);
    } else {
      ValuesReadBack(S, t, s, i, vs, rest);
    }
  }

  lemma {:induction false} NumbersComplete(S: Schema, f: Field, vs: seq<Value>)
    requires !f.kind.Nested?
    ensures AllComplete(S, f, vs)
  {
  }

  /** Unknown fields are kept as they are. */
  lemma {:induction false} UnknownReadBack(S: Schema, t: nat, s: LoopState)
    requires t < |S| && UnknownOk(S[t], s.rest) && (s.rest != [] ==> S[t].keepsUnknown)
    ensures Loop(S, t, s) == Decoded(s.m.(unknown := s.m.unknown + s.rest), s.missing || s.required > 0)
    decreases |s.rest|
  {
    if s.rest == [] {
      assert s.m.unknown + s.rest == s.m.unknown;
    } else {
      UnknownStep(S, t, s);
      hide Loop, Step, UnknownOk;
      var u := VarintOf(s.rest);
      var q := Skip(u.rest, u.value % 8).rest;
      var item := Varint(u.value) + Before(u.rest, q);
      var s' := s.(rest := q, m := s.m.(unknown := s.m.unknown + item));
      LoopStep(S, t, s);
      UnknownReadBack(S, t, s');
      Reassociate(s.m.unknown, item, q);
    }
  }

  lemma {:induction false} UnknownStep(S: Schema, t: nat, s: LoopState)
    requires t < |S| && UnknownOk(S[t], s.rest) && s.rest != [] && S[t].keepsUnknown
    ensures var u := VarintOf(s.rest);
            && u.Got? && Skip(u.rest, u.value % 8).Got?
            && var q := Skip(u.rest, u.value % 8).rest;
               var item := Varint(u.value) + Before(u.rest, q);
               && |q| < |s.rest| && s.rest == item + q && UnknownOk(S[t], q)
               && Step(S, t, s) == Next(s.(rest := q, m := s.m.(unknown := s.m.unknown + item)))
  {
    hide VarintOf, Varint, Skip;
    var u := VarintOf(s.rest);
    var q := Skip(u.rest, u.value % 8).rest;
    assert u.rest == Before(u.rest, q) + q;
    Reassociate(Varint(u.value), Before(u.rest, q), q);
  }

  /** The message of which the first `k` fields have been read. */
  function Partly(m: Message, k: nat): seq<Slot>
    requires k <= |m.fields|
  {
    m.fields[..k] + seq(|m.fields| - k, _ => Slot([]))
  }

  predicate SeenBelow(seen: set<nat>, fs: seq<Field>, k: nat) {
    forall x, j :: x in seen && k <= j < |fs| ==> x < fs[j].tag
  }

  /** Nothing is missing in the messages nested in the first `k` fields. */
  predicate SubsUpTo(S: Schema, t: nat, m: Message, k: nat)
    requires t < |S| && k <= |m.fields| == |S[t].fields|
  {
    forall j :: 0 <= j < k ==> AllComplete(S, S[t].fields[j], m.fields[j].values)
  }

  /** The required fields among the first `k` are set. */
  predicate SetUpTo(t: MessageType, m: Message, k: nat)
    requires k <= |m.fields| == |t.fields|
  {
    forall j :: 0 <= j < k && t.fields[j].rule.Required? ==> m.fields[j].values != []
  }

  /** The decoder is about to read field `k`. */
  predicate At(S: Schema, t: nat, m: Message, k: nat, s: LoopState)
    requires t < |S| && k <= |m.fields| == |S[t].fields|
  {
    var fs := S[t].fields;
    && s.rest == EncFields(S, fs[k..], m.fields[k..]) + m.unknown
    && s.m == Message(Partly(m, k), []) && (s.missing <==> !SubsUpTo(S, t, m, k))
    && s.required >= RequiredCount(fs[k..]) && (s.required == RequiredCount(fs[k..]) <==> SetUpTo(S[t], m, k))
    && SeenBelow(s.seen, fs, k)
  }

  lemma {:induction false} AtNext(S: Schema, t: nat, m: Message, k: nat, s: LoopState)
    requires SchemaOk(S) && t < |S| && k < |m.fields| == |S[t].fields| && At(S, t, m, k, s)
    ensures var f, vs := S[t].fields[k], m.fields[k].values;
            var rest := EncFields(S, S[t].fields[k + 1..], m.fields[k + 1..]) + m.unknown;
            && |s.m.fields| == |m.fields|
            && s.rest == EncField(S, f, vs) + rest && s.m.fields[k].values == []
            && (vs == [] ==> At(S, t, m, k + 1, s))
            && var s' := Filled(f, s, k, vs, !AllComplete(S, f, vs), rest);
               vs != [] ==> At(S, t, m, k + 1, s') && s'.rest == rest
  {
    hide EncField, EncFields, AllComplete;
    var fs := S[t].fields;
    var f, vs := fs[k], m.fields[k].values;
    assert TypeOk(S, S[t]);
    EncFieldsHead(S, fs, m.fields, k, m.unknown);
    RequiredHead(fs, k);
    UpToNext(S, t, m, k);
    assert Partly(m, k)[k := Slot(vs)] == Partly(m, k + 1);
    assert vs == [] ==> Partly(m, k) == Partly(m, k + 1);
    assert vs == [] ==> EncField(S, f, vs) == [] by { EncNoField(S, f); }
  }

  lemma {:induction false} UpToNext(S: Schema, t: nat, m: Message, k: nat)
    requires t < |S| && k < |m.fields| == |S[t].fields|
    ensures var f, vs := S[t].fields[k], m.fields[k].values;
            && (SubsUpTo(S, t, m, k + 1) <==> SubsUpTo(S, t, m, k) && AllComplete(S, f, vs))
            && (vs == [] ==> AllComplete(S, f, vs))
            && (SetUpTo(S[t], m, k + 1) <==> SetUpTo(S[t], m, k) && (f.rule.Required? ==> vs != []))
  {
  }

  lemma {:induction false} UpToAll(S: Schema, t: nat, m: Message)
    requires t < |S| && |m.fields| == |S[t].fields|
    ensures Complete(S, t, m) <==> SubsUpTo(S, t, m, |m.fields|) && SetUpTo(S[t], m, |m.fields|)
  {
    if Complete(S, t, m) {
      forall j | 0 <= j < |m.fields|
        ensures AllComplete(S, S[t].fields[j], m.fields[j].values)
        ensures S[t].fields[j].rule.Required? ==> m.fields[j].values != []
      {
        assert FieldComplete(S, S[t].fields[j], m.fields[j].values);
      }
    }
    if SubsUpTo(S, t, m, |m.fields|) && SetUpTo(S[t], m, |m.fields|) {
      forall j | 0 <= j < |m.fields|
        ensures FieldComplete(S, S[t].fields[j], m.fields[j].values)
      {
        assert AllComplete(S, S[t].fields[j], m.fields[j].values);
      }
    }
  }

  lemma {:induction false} EncNoField(S: Schema, f: Field)
    ensures EncField(S, f, []) == []
  {
  }

  lemma {:induction false} EncFieldsHead(S: Schema, fs: seq<Field>, fields: seq<Slot>, k: nat, tail: ByteString)
    requires k < |fs| == |fields|
    ensures EncFields(S, fs[k..], fields[k..]) + tail ==
            EncField(S, fs[k], fields[k].values) + (EncFields(S, fs[k + 1..], fields[k + 1..]) + tail)
    ensures |EncField(S, fs[k], fields[k].values)| <= |EncFields(S, fs[k..], fields[k..])|
  {
    assert fs[k..][1..] == fs[k + 1..] && fields[k..][1..] == fields[k + 1..];
    Reassociate(EncField(S, fs[k], fields[k].values), EncFields(S, fs[k + 1..], fields[k + 1..]), tail);
  }

  lemma {:induction false} RequiredHead(fs: seq<Field>, k: nat)
    requires k < |fs|
    ensures RequiredCount(fs[k..]) == RequiredCount(fs[k + 1..]) + if fs[k].rule.Required? then 1 else 0
  {
    assert fs[k..][1..] == fs[k + 1..];
  }

  lemma {:induction false} OneField(S: Schema, t: nat, m: Message, k: nat)
    requires t < |S| && Conforms(S, t, m) && k < |m.fields|
    ensures |m.fields| == |S[t].fields| && FieldConforms(S, S[t].fields[k], m.fields[k].values)
  {
  }

  lemma {:induction false} FieldsReadBack(S: Schema, t: nat, m: Message, k: nat, s: LoopState)
    requires SchemaOk(S) && t < |S| && Conforms(S, t, m)
    requires k <= |m.fields| && At(S, t, m, k, s) && |s.rest| < TWO63
    ensures Loop(S, t, s) == Decoded(m, !Complete(S, t, m))
    decreases m, 1, |m.fields| - k
  {
    hide *;
    var fs := S[t].fields;
    if k == |m.fields| {
      LastField(S, t, m, s);
    } else {
      OneField(S, t, m, k);
      var f, vs := fs[k], m.fields[k].values;
      AtNext(S, t, m, k, s);
      var rest := EncFields(S, fs[k + 1..], m.fields[k + 1..]) + m.unknown;
      if vs == [] {
        FieldsReadBack(S, t, m, k + 1, s);
      } else {
        FieldReadsBack(S, t, s, k, vs, rest);
        FieldsReadBack(S, t, m, k + 1, Filled(f, s, k, vs, !AllComplete(S, f, vs), rest));
      }
    }
  }

  lemma {:induction false} LastField(S: Schema, t: nat, m: Message, s: LoopState)
    requires t < |S| && Conforms(S, t, m) && At(S, t, m, |m.fields|, s)
    ensures Loop(S, t, s) == Decoded(m, !Complete(S, t, m))
  {
    hide FieldConforms;
    assert S[t].fields[|m.fields|..] == [];
    assert [] + m.unknown == m.unknown;
    hide UnknownOk, Loop;
    UnknownReadBack(S, t, s);
    UpToAll(S, t, m);
    hide SubsUpTo, SetUpTo, Complete;
    assert [] + m.unknown == m.unknown && Partly(m, |m.fields|) == m.fields;
  }

  /**
    Decoding what was encoded gives the message back, unknown fields included, and the error of a required
    field that is not set exactly if there is one, in the message or in one nested in it.
    */
  lemma {:induction false} RoundTrip(S: Schema, t: nat, m: Message)
    requires SchemaOk(S) && t < |S| && Conforms(S, t, m)
    requires |EncMessage(S, t, m)| < TWO63
    ensures Decode(S, t, EncMessage(S, t, m), Empty(S[t])) == Decoded(m, !Complete(S, t, m))
    decreases m, 2
  {
    var fs := S[t].fields;
    var s := LoopState(EncMessage(S, t, m), Empty(S[t]), false, {}, RequiredCount(fs));
    assert fs[0..] == fs && m.fields[0..] == m.fields;
    assert Partly(m, 0) == Empty(S[t]).fields;
    assert At(S, t, m, 0, s);
    hide Complete;
    FieldsReadBack(S, t, m, 0, s);
  }
}
