/**
  What decoding promises for arbitrary input: the message it returns fits the schema, survives being encoded
  and decoded again, and, as long as the counting of required fields is precise, has them all set.
  */
module MessageDecoding {
  import opened Bytes
  import opened Wire
  import opened Messages
  import opened MessageRoundTrip

  // ---------- unknown fields ----------

  predicate UnknownTag(t: MessageType, u: nat) {
    u < TWO64 && u % 8 != ENDGROUP && u / 8 > 0 && IndexOf(t.fields, u / 8).None?
  }

  lemma {:induction false} UnknownParts(t: MessageType, a: ByteString) returns (u: nat, item: ByteString, q: ByteString)
    requires UnknownOk(t, a) && a != []
    ensures a == Varint(u) + (item + q) && |q| < |a| && UnknownTag(t, u)
    ensures Skip(item + q, u % 8).Got? && Skip(item + q, u % 8).rest == q && UnknownOk(t, q)
  {
    hide VarintOf, Varint, Skip;
    var v := VarintOf(a);
    VarintIsWord(a);
    u := v.value;
    q := Skip(v.rest, u % 8).rest;
    item := Before(v.rest, q);
    assert v.rest == item + q;
  }

  lemma {:induction false} UnknownCons(t: MessageType, u: nat, item: ByteString, q: ByteString)
    requires UnknownTag(t, u) && Skip(item + q, u % 8) == Got((), q) && UnknownOk(t, q)
    ensures UnknownOk(t, Varint(u) + (item + q))
  {
    hide VarintOf, Varint, Skip;
    VarintReadsBack(u, item + q);
  }

  lemma {:induction false} UnknownAppend(t: MessageType, a: ByteString, b: ByteString)
    requires UnknownOk(t, a) && UnknownOk(t, b)
    ensures UnknownOk(t, a + b)
    decreases |a|
  {
    hide *;
    if a == [] {
      assert a + b == b;
    } else {
      var u, item, q := UnknownParts(t, a);
      UnknownAppend(t, q, b);
      SkipLocal(item, q, q + b, u % 8);
      UnknownCons(t, u, item, q + b);
      Reassociate(Varint(u), item + q, b);
      Reassociate(item, q, b);
    }
  }

  /** What the decoder keeps of one unknown field. */
  lemma {:induction false} UnknownItem(t: MessageType, b: ByteString)
    requires VarintOf(b).Got?
    requires var u := VarintOf(b);
             u.value % 8 != ENDGROUP && u.value / 8 > 0 && IndexOf(t.fields, u.value / 8).None? && Skip(u.rest, u.value % 8).Got?
    ensures var u := VarintOf(b);
            UnknownOk(t, Varint(u.value) + Before(u.rest, Skip(u.rest, u.value % 8).rest))
  {
    hide VarintOf, Varint, Skip;
    var u := VarintOf(b);
    var q := Skip(u.rest, u.value % 8).rest;
    var item := Before(u.rest, q);
    assert u.rest == item + q;
    VarintIsWord(b);
    VarintReadsBack(u.value, item);
    SkipLocal(item, q, [], u.value % 8);
    assert item + [] == item;
    assert UnknownOk(t, []);
  }

  // ---------- decoded messages fit the schema ----------

  lemma {:induction false} StoredFits(c: Codec, b: ByteString)
    requires ScalarOf(c, b).Got?
    ensures ScalarOf(c, b).value < Words(c)
  {
    hide VarintOf, FixedValue;
    PowerOfWords();
    match c
    case Fixed32 =>
    case Fixed64 =>
      FixedBound(b[..8]);
    case Zigzag32 =>
      ZigzagRound(VarintOf(b).value % TWO32, TWO31);
    case Zigzag64 =>
      VarintIsWord(b);
      ZigzagRound(VarintOf(b).value, TWO63);
    case _ => VarintIsWord(b);
  }

  lemma {:induction false} FixedBound(b: ByteString)
    ensures FixedValue(b) < Power256(|b|)
  {
    if b != [] {
      FixedBound(b[1..]);
    }
  }

  lemma {:induction false} BoolsUnfold(b: ByteString, count: nat, vs: seq<Value>)
    requires count > 0 && BoolsOf(b, count, vs).Got?
    ensures ScalarOf(Bool, b).Got?
    ensures var p := ScalarOf(Bool, b);
            BoolsOf(b, count, vs) == BoolsOf(p.rest, count - 1, vs + [Num(p.value)])
  {
    hide ScalarOf;
  }

  lemma {:induction false} BoolsNone(b: ByteString, vs: seq<Value>)
    ensures BoolsOf(b, 0, vs) == Got(vs, b)
  {
  }

  lemma {:induction false} PackedNone(c: Codec, b: ByteString, vs: seq<Value>)
    ensures PackedOf(c, b, 0, vs) == Got(vs, b)
  {
  }

  lemma {:induction false} BoolsConform(S: Schema, f: Field, b: ByteString, count: nat, vs: seq<Value>)
    requires f.kind == Scalar(Bool) && AllConform(S, f, vs)
    requires BoolsOf(b, count, vs).Got?
    ensures AllConform(S, f, BoolsOf(b, count, vs).value)
    decreases count
  {
    hide *;
    if count == 0 {
      BoolsNone(b, vs);
    } else {
      BoolsUnfold(b, count, vs);
      StoredFits(Bool, b);
      var p := ScalarOf(Bool, b);
      NumConforms(S, f, p.value);
      OneMoreConforms(S, f, vs, Num(p.value));
      BoolsConform(S, f, p.rest, count - 1, vs + [Num(p.value)]);
    }
  }

  lemma {:induction false} PackedUnfold(c: Codec, b: ByteString, size: nat, vs: seq<Value>)
    requires size > 0 && PackedOf(c, b, size, vs).Got?
    ensures ScalarOf(c, b).Got?
    ensures var p := ScalarOf(c, b);
            var used := |b| - |p.rest|;
            PackedOf(c, b, size, vs) == PackedOf(c, p.rest, if used >= size then 0 else size - used, vs + [Num(p.value)])
  {
    hide ScalarOf;
  }

  lemma {:induction false} OneMoreConforms(S: Schema, f: Field, vs: seq<Value>, v: Value)
    requires AllConform(S, f, vs) && ValueConforms(S, f, v)
    ensures AllConform(S, f, vs + [v])
  {
  }

  lemma {:induction false} NumConforms(S: Schema, f: Field, n: nat)
    requires f.kind.Scalar? && n < Words(f.kind.codec)
    ensures ValueConforms(S, f, Num(n))
  {
  }

  lemma {:induction false} PackedConform(S: Schema, f: Field, b: ByteString, size: nat, vs: seq<Value>)
    requires f.kind.Scalar? && AllConform(S, f, vs)
    requires PackedOf(f.kind.codec, b, size, vs).Got?
    ensures AllConform(S, f, PackedOf(f.kind.codec, b, size, vs).value)
    decreases |b|
  {
    hide *;
    if size == 0 {
      PackedNone(f.kind.codec, b, vs);
    } else {
      PackedUnfold(f.kind.codec, b, size, vs);
      StoredFits(f.kind.codec, b);
      var p := ScalarOf(f.kind.codec, b);
      NumConforms(S, f, p.value);
      OneMoreConforms(S, f, vs, Num(p.value));
      var used := |b| - |p.rest|;
      PackedConform(S, f, p.rest, if used >= size then 0 else size - used, vs + [Num(p.value)]);
    }
  }

  /** The nested messages are complete; the message's own required fields need not be. */
  predicate SubsComplete(S: Schema, t: nat, m: Message)
    requires t < |S|
  {
    && |m.fields| == |S[t].fields|
    && forall i :: 0 <= i < |m.fields| ==> AllComplete(S, S[t].fields[i], m.fields[i].values)
  }

  lemma {:induction false} EmptyFits(S: Schema, t: nat)
    requires t < |S|
    ensures Conforms(S, t, Empty(S[t])) && SubsComplete(S, t, Empty(S[t]))
  {
  }

  lemma {:induction false} PutConforms(S: Schema, f: Field, vs: seq<Value>, v: Value)
    requires FieldConforms(S, f, vs) && ValueConforms(S, f, v)
    ensures FieldConforms(S, f, Put(f, vs, v))
    ensures AllComplete(S, f, vs) && ValueComplete(S, f, v) ==> AllComplete(S, f, Put(f, vs, v))
    ensures Put(f, vs, v) != []
  {
  }

  lemma {:induction false} CompleteSubs(S: Schema, t: nat, m: Message)
    requires t < |S| && Complete(S, t, m)
    ensures SubsComplete(S, t, m)
  {
    forall i | 0 <= i < |m.fields|
      ensures AllComplete(S, S[t].fields[i], m.fields[i].values)
    {
      assert FieldComplete(S, S[t].fields[i], m.fields[i].values);
    }
  }

  lemma {:induction false} BaseFits(S: Schema, f: Field, vs: seq<Value>)
    requires f.kind.Nested? && f.kind.t < |S| && FieldConforms(S, f, vs)
    ensures Conforms(S, f.kind.t, Base(S, f, vs))
    ensures AllComplete(S, f, vs) ==> SubsComplete(S, f.kind.t, Base(S, f, vs))
  {
    EmptyFits(S, f.kind.t);
    if Singular(f) && vs != [] {
      assert ValueConforms(S, f, vs[0]);
      if AllComplete(S, f, vs) && vs[0].Sub? {
        assert ValueComplete(S, f, vs[0]);
        CompleteSubs(S, f.kind.t, vs[0].m);
      }
    }
  }

  /** The bitmap can hold the tags of the required fields. */
  predicate PreciseType(t: MessageType) {
    forall i :: 0 <= i < |t.fields| && t.fields[i].rule.Required? ==> t.fields[i].tag <= 64
  }

  predicate Precise(S: Schema) {
    forall t :: 0 <= t < |S| ==> PreciseType(S[t])
  }

  lemma {:induction false} FieldOfFits(S: Schema, f: Field, wire: nat, r: ByteString, vs: seq<Value>)
    requires SchemaOk(S) && FieldOk(S, f) && FieldConforms(S, f, vs) && FieldOf(S, f, wire, r, vs).Read?
    ensures var p := FieldOf(S, f, wire, r, vs);
            && FieldConforms(S, f, p.values)
            && (Singular(f) ==> p.values != [])
            && (Precise(S) && AllComplete(S, f, vs) && !p.missing ==> AllComplete(S, f, p.values))
    decreases |r|, 0
  {
    if wire != STARTGROUP && wire != WireOf(f.kind) {
      PackedFits(S, f, r, vs);
    } else {
      match f.kind
      case Scalar(c) =>
        StoredFits(c, r);
        PutConforms(S, f, vs, Num(ScalarOf(c, r).value));
      case Text =>
        PutConforms(S, f, vs, Blob(RawBytesOf(r).value));
      case Nested(t) =>
        hide Conforms, Complete, SubsComplete, Decode, RawBytesOf, AllComplete, FieldConforms, SchemaOk;
        var raw := RawBytesOf(r).value;
        BaseFits(S, f, vs);
        DecodeFits(S, t, raw, Base(S, f, vs));
        PutConforms(S, f, vs, Sub(Decode(S, t, raw, Base(S, f, vs)).m));
    }
  }

  lemma {:induction false} PackedFits(S: Schema, f: Field, r: ByteString, vs: seq<Value>)
    requires FieldConforms(S, f, vs) && Packable(f) && PackedFieldOf(f.kind.codec, r, vs).Got?
    ensures FieldConforms(S, f, PackedFieldOf(f.kind.codec, r, vs).value)
    ensures AllComplete(S, f, PackedFieldOf(f.kind.codec, r, vs).value)
  {
    hide VarintOf, BoolsOf, PackedOf;
    var n := VarintOf(r);
    if f.kind.codec.Bool? {
      BoolsConform(S, f, n.rest, if n.value < TWO63 then n.value else 0, vs);
    } else {
      PackedConform(S, f, n.rest, n.value, vs);
    }
  }

  // ---------- counting the required fields ----------

  function RequiredTags(fs: seq<Field>): set<nat> {
    if fs == [] then {} else RequiredTags(fs[1..]) + if fs[0].rule.Required? then {fs[0].tag} else {}
  }

  /** The tag of a required field at or after `k`. */
  predicate IsRequiredTag(fs: seq<Field>, k: nat, x: nat) {
    exists i :: k <= i < |fs| && fs[i].rule.Required? && fs[i].tag == x
  }

  lemma {:induction false} RequiredTagsCounted(fs: seq<Field>, k: nat)
    requires k <= |fs| && forall i, j :: 0 <= i < j < |fs| ==> fs[i].tag < fs[j].tag
    ensures |RequiredTags(fs[k..])| == RequiredCount(fs[k..])
    ensures forall x :: x in RequiredTags(fs[k..]) <==> IsRequiredTag(fs, k, x)
    decreases |fs| - k
  {
    if k < |fs| {
      assert fs[k..][1..] == fs[k + 1..];
      RequiredTagsCounted(fs, k + 1);
      forall x
        ensures IsRequiredTag(fs, k, x) <==> IsRequiredTag(fs, k + 1, x) || (fs[k].rule.Required? && fs[k].tag == x)
      {
      }
      assert !IsRequiredTag(fs, k + 1, fs[k].tag);
    }
  }

  predicate SetRequired(t: MessageType, m: Message, x: nat) {
    exists i :: 0 <= i < |t.fields| && i < |m.fields| && t.fields[i].rule.Required? && t.fields[i].tag == x && m.fields[i].values != []
  }

  /** The bitmap holds tags of required fields that are set, and the counter counts the others. */
  predicate Tracked(t: MessageType, s: LoopState) {
    && s.required == RequiredCount(t.fields) - |s.seen|
    && forall x :: x in s.seen ==> SetRequired(t, s.m, x)
  }

  /** Every required field of the message itself is set. */
  predicate RequiredSet(t: MessageType, m: Message) {
    forall i :: 0 <= i < |t.fields| && t.fields[i].rule.Required? ==> i < |m.fields| && m.fields[i].values != []
  }

  lemma {:induction false} TrackedAll(S: Schema, t: nat, s: LoopState)
    requires SchemaOk(S) && t < |S| && Tracked(S[t], s) && s.required <= 0
    ensures RequiredSet(S[t], s.m)
  {
    var fs := S[t].fields;
    assert TypeOk(S, S[t]);
    assert fs[0..] == fs;
    RequiredTagsCounted(fs, 0);
    hide RequiredTags, RequiredCount;
    forall x | x in s.seen
      ensures x in RequiredTags(fs)
    {
      assert SetRequired(S[t], s.m, x);
      assert IsRequiredTag(fs, 0, x);
    }
    SubsetFull(s.seen, RequiredTags(fs));
    forall i | 0 <= i < |fs| && fs[i].rule.Required?
      ensures i < |s.m.fields| && s.m.fields[i].values != []
    {
      assert IsRequiredTag(fs, 0, fs[i].tag);
      assert SetRequired(S[t], s.m, fs[i].tag);
    }
  }

  lemma {:induction false} SetIsComplete(S: Schema, t: nat, m: Message)
    requires t < |S| && RequiredSet(S[t], m) && SubsComplete(S, t, m)
    ensures Complete(S, t, m)
  {
    forall i | 0 <= i < |m.fields|
      ensures FieldComplete(S, S[t].fields[i], m.fields[i].values)
    {
      assert AllComplete(S, S[t].fields[i], m.fields[i].values);
    }
  }

  lemma {:induction false} SubsetFull(a: set<nat>, b: set<nat>)
    requires a <= b && |a| >= |b|
    ensures a == b
  {
    assert |b - a| == |b| - |a|;
  }

  lemma {:induction false} FillTracked(S: Schema, t: nat, s: LoopState, i: nat, vs: seq<Value>, missing: bool, rest: ByteString)
    requires SchemaOk(S) && t < |S| && i < |S[t].fields| == |s.m.fields| && Tracked(S[t], s)
    requires S[t].fields[i].rule.Required? ==> S[t].fields[i].tag <= 64
    requires Singular(S[t].fields[i]) ==> vs != []
    ensures var read := s.(rest := rest, m := s.m.(fields := s.m.fields[i := Slot(vs)]), missing := missing);
            Tracked(S[t], Account(S[t].fields[i], read))
  {
    var f := S[t].fields[i];
    var read := s.(rest := rest, m := s.m.(fields := s.m.fields[i := Slot(vs)]), missing := missing);
    assert TypeOk(S, S[t]);
    forall x | SetRequired(S[t], s.m, x)
      ensures SetRequired(S[t], read.m, x)
    {
      var j :| 0 <= j < |S[t].fields| && S[t].fields[j].rule.Required? && S[t].fields[j].tag == x && s.m.fields[j].values != [];
      assert read.m.fields[j].values != [];
    }
    if f.rule.Required? {
      assert read.m.fields[i].values != [];
      assert SetRequired(S[t], read.m, f.tag);
    }
  }

  ghost predicate Fits(S: Schema, t: nat, s: LoopState, track: bool)
    requires t < |S|
  {
    && Conforms(S, t, s.m)
    && (track ==> Precise(S) && Tracked(S[t], s) && (!s.missing ==> SubsComplete(S, t, s.m)))
  }

  lemma {:induction false} KnownFits(S: Schema, t: nat, s: LoopState, i: nat, wire: nat, r: ByteString, track: bool)
    requires SchemaOk(S) && t < |S| && Fits(S, t, s, track) && i < |S[t].fields|
    requires FieldOf(S, S[t].fields[i], wire, r, s.m.fields[i].values).Read?
    ensures var f := S[t].fields[i];
            var p := FieldOf(S, f, wire, r, s.m.fields[i].values);
            var read := s.(rest := p.rest, m := s.m.(fields := s.m.fields[i := Slot(p.values)]), missing := s.missing || p.missing);
            Fits(S, t, Account(f, read), track)
    decreases |r|, 1
  {
    var f := S[t].fields[i];
    var vs := s.m.fields[i].values;
    assert TypeOk(S, S[t]) && FieldOk(S, f) && FieldConforms(S, f, vs);
    var p := FieldOf(S, f, wire, r, vs);
    FieldOfFits(S, f, wire, r, vs);
    if track {
      FillTracked(S, t, s, i, p.values, s.missing || p.missing, p.rest);
    }
  }

  lemma {:induction false} StepFits(S: Schema, t: nat, s: LoopState, track: bool)
    requires SchemaOk(S) && t < |S| && Fits(S, t, s, track) && Step(S, t, s).Next?
    ensures Fits(S, t, Step(S, t, s).state, track)
    decreases |s.rest|, 0
  {
    hide FieldOf, VarintOf, Varint, Skip, FieldConforms, AllComplete;
    var u := VarintOf(s.rest);
    var i := IndexOf(S[t].fields, u.value / 8);
    if i.None? {
      UnknownItem(S[t], s.rest);
      var item := Varint(u.value) + Before(u.rest, Skip(u.rest, u.value % 8).rest);
      if S[t].keepsUnknown {
        UnknownAppend(S[t], s.m.unknown, item);
      }
      assert forall x :: SetRequired(S[t], Step(S, t, s).state.m, x) == SetRequired(S[t], s.m, x);
    } else {
      KnownFits(S, t, s, i.value, u.value % 8, u.rest, track);
    }
  }

  lemma {:induction false} LoopFits(S: Schema, t: nat, s: LoopState, track: bool)
    requires SchemaOk(S) && t < |S| && Fits(S, t, s, track) && Loop(S, t, s).Decoded?
    ensures Conforms(S, t, Loop(S, t, s).m)
    ensures track && !Loop(S, t, s).missing ==> Complete(S, t, Loop(S, t, s).m)
    decreases |s.rest|, 1
  {
    if s.rest == [] {
      if track && !s.missing && s.required <= 0 {
        TrackedAll(S, t, s);
        SetIsComplete(S, t, s.m);
      }
    } else {
      hide Step, Fits;
      StepFits(S, t, s, track);
      LoopFits(S, t, Step(S, t, s).state, track);
    }
  }

  lemma {:induction false} DecodeFits(S: Schema, t: nat, b: ByteString, m: Message)
    requires SchemaOk(S) && t < |S| && Conforms(S, t, m)
    requires Decode(S, t, b, m).Decoded?
    ensures Conforms(S, t, Decode(S, t, b, m).m)
    ensures Precise(S) && SubsComplete(S, t, m) && !Decode(S, t, b, m).missing ==> Complete(S, t, Decode(S, t, b, m).m)
    decreases |b|, 2
  {
    var s := LoopState(b, m, false, {}, RequiredCount(S[t].fields));
    LoopFits(S, t, s, Precise(S) && SubsComplete(S, t, m));
  }

  /**
    Whatever decodes, for any type of any schema, decodes again to the same message from its own encoding,
    with its unknown fields. The second decoding lacks a required field exactly if the message does; where
    the required tags are ones the decoder counts precisely, it does not if the first did not.
    */
  lemma {:induction false} DecodedSurvives(S: Schema, t: nat, b: ByteString, m: Message, missing: bool)
    requires SchemaOk(S) && t < |S|
    requires Decode(S, t, b, Empty(S[t])) == Decoded(m, missing) && |EncMessage(S, t, m)| < TWO63
    ensures Conforms(S, t, m)
    ensures Decode(S, t, EncMessage(S, t, m), Empty(S[t])) == Decoded(m, !Complete(S, t, m))
    ensures Precise(S) && !missing ==> Complete(S, t, m)
  {
    hide Complete, EncMessage, Decode;
    EmptyFits(S, t);
    DecodeFits(S, t, b, Empty(S[t]));
    RoundTrip(S, t, m);
  }

  // ---------- the outcome does not depend on what is merged into ----------

  predicate SameEnd(p: Parsed<seq<Value>>, q: Parsed<seq<Value>>) {
    match p
    case Got(_, rest) => q.Got? && q.rest == rest
    case Err(e) => q == Err(e)
  }

  lemma {:induction false} BoolsSame(b: ByteString, count: nat, vs: seq<Value>, ws: seq<Value>)
    ensures SameEnd(BoolsOf(b, count, vs), BoolsOf(b, count, ws))
    decreases count
  {
    hide ScalarOf;
    if count > 0 && ScalarOf(Bool, b).Got? {
      var p := ScalarOf(Bool, b);
      BoolsSame(p.rest, count - 1, vs + [Num(p.value)], ws + [Num(p.value)]);
    }
  }

  lemma {:induction false} PackedSame(c: Codec, b: ByteString, size: nat, vs: seq<Value>, ws: seq<Value>)
    ensures SameEnd(PackedOf(c, b, size, vs), PackedOf(c, b, size, ws))
    decreases |b|
  {
    hide ScalarOf;
    if size > 0 && ScalarOf(c, b).Got? {
      var p := ScalarOf(c, b);
      var used := |b| - |p.rest|;
      PackedSame(c, p.rest, if used >= size then 0 else size - used, vs + [Num(p.value)], ws + [Num(p.value)]);
    }
  }

  lemma {:induction false} PackedFieldSame(c: Codec, r: ByteString, vs: seq<Value>, ws: seq<Value>)
    ensures SameEnd(PackedFieldOf(c, r, vs), PackedFieldOf(c, r, ws))
  {
    hide VarintOf, BoolsOf, PackedOf;
    var n := VarintOf(r);
    if n.Got? && c.Bool? {
      BoolsSame(n.rest, if n.value < TWO63 then n.value else 0, vs, ws);
    } else if n.Got? && n.value < TWO63 {
      PackedSame(c, n.rest, n.value, vs, ws);
    }
  }

  predicate SameRead(p: FieldRead, q: FieldRead) {
    match p
    case Read(_, missing, rest) => q.Read? && q.missing == missing && q.rest == rest
    case Bad(e) => q == Bad(e)
  }

  lemma {:induction false} FieldSame(S: Schema, f: Field, wire: nat, r: ByteString, vs: seq<Value>, ws: seq<Value>)
    requires SchemaOk(S) && FieldOk(S, f) && FieldConforms(S, f, vs) && FieldConforms(S, f, ws)
    ensures SameRead(FieldOf(S, f, wire, r, vs), FieldOf(S, f, wire, r, ws))
    decreases |r|, 0
  {
    hide ScalarOf, RawBytesOf, PackedFieldOf, Decode, FieldConforms, SchemaOk;
    if wire != STARTGROUP && wire != WireOf(f.kind) {
      if Packable(f) {
        PackedFieldSame(f.kind.codec, r, vs, ws);
      }
    } else if f.kind.Nested? && RawBytesOf(r).Got? {
      BaseFits(S, f, vs);
      BaseFits(S, f, ws);
      DecodeSame(S, f.kind.t, RawBytesOf(r).value, Base(S, f, vs), Base(S, f, ws));
    }
  }

  /** Two states that differ only in the message filled in. */
  predicate Alike(S: Schema, t: nat, s: LoopState, u: LoopState)
    requires t < |S|
  {
    u == s.(m := u.m) && Conforms(S, t, s.m) && Conforms(S, t, u.m)
  }

  predicate AlikeSteps(S: Schema, t: nat, p: StepResult, q: StepResult)
    requires t < |S|
  {
    match p
    case Next(s) => q.Next? && Alike(S, t, s, q.state)
    case Stop(e) => q == Stop(e)
  }

  lemma {:induction false} StepSame(S: Schema, t: nat, s: LoopState, u: LoopState)
    requires SchemaOk(S) && t < |S| && Alike(S, t, s, u)
    ensures AlikeSteps(S, t, Step(S, t, s), Step(S, t, u))
    decreases |s.rest|, 1
  {
    StepEndsSame(S, t, s, u);
    if Step(S, t, s).Next? {
      assert Fits(S, t, s, false) && Fits(S, t, u, false);
      StepFits(S, t, s, false);
      StepFits(S, t, u, false);
    }
    hide Step, Conforms;
  }

  lemma {:induction false} StepEndsSame(S: Schema, t: nat, s: LoopState, u: LoopState)
    requires SchemaOk(S) && t < |S| && Alike(S, t, s, u)
    ensures var p, q := Step(S, t, s), Step(S, t, u);
            if p.Next? then q.Next? && q.state == p.state.(m := q.state.m) else q == p
    decreases |s.rest|, 0
  {
    hide FieldOf, VarintOf, Varint, Skip, FieldConforms, UnknownOk;
    var v := VarintOf(s.rest);
    if v.Got? {
      var i := IndexOf(S[t].fields, v.value / 8);
      if i.Some? {
        assert TypeOk(S, S[t]) && FieldOk(S, S[t].fields[i.value]);
        FieldSame(S, S[t].fields[i.value], v.value % 8, v.rest, s.m.fields[i.value].values, u.m.fields[i.value].values);
      }
    }
  }

  lemma {:induction false} LoopSame(S: Schema, t: nat, s: LoopState, u: LoopState)
    requires SchemaOk(S) && t < |S| && Alike(S, t, s, u)
    ensures SameOutcome(Loop(S, t, s), Loop(S, t, u))
    decreases |s.rest|, 2
  {
    if s.rest != [] {
      hide Step, Conforms;
      StepSame(S, t, s, u);
      if Step(S, t, s).Next? {
        LoopSame(S, t, Step(S, t, s).state, Step(S, t, u).state);
      }
    }
  }

  predicate SameOutcome(p: Outcome, q: Outcome) {
    match p
    case Decoded(_, missing) => q.Decoded? && q.missing == missing
    case Failed(e) => q == Failed(e)
  }

  /** Whether an input decodes, and whether it lacks a required field, is a matter of the input alone. */
  lemma {:induction false} DecodeSame(S: Schema, t: nat, b: ByteString, m: Message, n: Message)
    requires SchemaOk(S) && t < |S| && Conforms(S, t, m) && Conforms(S, t, n)
    ensures SameOutcome(Decode(S, t, b, m), Decode(S, t, b, n))
    decreases |b|, 3
  {
    var required := RequiredCount(S[t].fields);
    LoopSame(S, t, LoopState(b, m, false, {}, required), LoopState(b, n, false, {}, required));
  }

  // ---------- required fields with large tags ----------

  /** `n` copies of one encoded field. */
  function Copies(one: ByteString, n: nat): ByteString {
    if n == 0 then [] else one + Copies(one, n - 1)
  }

  /** An input that decodes to a message of the type with nothing missing. */
  predicate CleanInput(S: Schema, t: nat, raw: ByteString)
    requires t < |S|
  {
    |raw| < TWO63 && Decode(S, t, raw, Empty(S[t])).Decoded? && !Decode(S, t, raw, Empty(S[t])).missing
  }

  /** A payload that the field takes without a complaint, whatever is there already. */
  ghost predicate CleanPayload(S: Schema, f: Field, payload: ByteString) {
    forall vs, more :: FieldConforms(S, f, vs) ==> TakenClean(FieldOf(S, f, WireOf(f.kind), payload + more, vs), more)
  }

  predicate TakenClean(p: FieldRead, more: ByteString) {
    p.Read? && !p.missing && p.rest == more
  }

  lemma {:induction false} SampleClean(S: Schema, f: Field) returns (payload: ByteString)
    requires SchemaOk(S) && FieldOk(S, f) && !f.kind.Nested?
    ensures CleanPayload(S, f, payload)
  {
    var v := if f.kind.Scalar? then Num(0) else Blob([]);
    payload := Payload(S, f, v);
    if f.kind.Scalar? {
      assert SizeScalar(f.kind.codec, Singular(f), 0) <= 8;
      SizeScalarExact(f.kind.codec, Singular(f), 0);
    }
    hide FieldOf, Payload;
    forall vs, more | FieldConforms(S, f, vs)
      ensures TakenClean(FieldOf(S, f, WireOf(f.kind), payload + more, vs), more)
    {
      ValueReadsBack(S, f, v, vs, more);
    }
  }

  lemma {:induction false} NestedClean(S: Schema, f: Field, raw: ByteString)
    requires SchemaOk(S) && FieldOk(S, f) && f.kind.Nested? && CleanInput(S, f.kind.t, raw)
    ensures CleanPayload(S, f, RawBytes(raw))
  {
    hide RawBytes, RawBytesOf, Decode, SchemaOk, FieldConforms;
    forall vs, more | FieldConforms(S, f, vs)
      ensures TakenClean(FieldOf(S, f, WireOf(f.kind), RawBytes(raw) + more, vs), more)
    {
      RawBytesReadBack(raw, more);
      BaseFits(S, f, vs);
      EmptyFits(S, f.kind.t);
      DecodeSame(S, f.kind.t, raw, Empty(S[f.kind.t]), Base(S, f, vs));
    }
  }

  lemma {:induction false} CopiesFool(S: Schema, t: nat, s: LoopState, i: nat, payload: ByteString, n: nat)
    requires SchemaOk(S) && t < |S| && Conforms(S, t, s.m) && i < |S[t].fields|
    requires var f := S[t].fields[i];
             f.rule.Required? && f.tag > 64 && CleanPayload(S, f, payload) && !s.missing && s.required <= n
             && s.rest == Copies(TagCode(f) + payload, n)
    ensures Loop(S, t, s).Decoded? && !Loop(S, t, s).missing
    ensures |Loop(S, t, s).m.fields| == |s.m.fields|
    ensures forall k :: 0 <= k < |s.m.fields| && k != i ==> Loop(S, t, s).m.fields[k] == s.m.fields[k]
    decreases n
  {
    var f := S[t].fields[i];
    var one := TagCode(f) + payload;
    if n == 0 {
      LoopStep(S, t, s);
    } else {
      assert TypeOk(S, S[t]) && FieldOk(S, f);
      var vs, more := s.m.fields[i].values, Copies(one, n - 1);
      assert s.rest == one + more;
      assert FieldConforms(S, f, vs);
      var p := FieldOf(S, f, WireOf(f.kind), payload + more, vs);
      assert TakenClean(p, more);
      FieldOfFits(S, f, WireOf(f.kind), payload + more, vs);
      SlotConforms(S, t, s.m, i, p.values);
      hide *;
      Reassociate(TagCode(f), payload, more);
      WireOfUnpacked(f);
      CleanIs(p, more);
      TagStep(S, t, s, i, payload + more, p.values, false, more);
      FilledAbove(f, s, i, p.values, more);
      CopiesFool(S, t, Filled(f, s, i, p.values, false, more), i, payload, n - 1);
    }
  }

  lemma {:induction false} CleanIs(p: FieldRead, more: ByteString)
    requires TakenClean(p, more)
    ensures p == Read(p.values, false, more)
  {
  }

  lemma {:induction false} SlotConforms(S: Schema, t: nat, m: Message, i: nat, vs: seq<Value>)
    requires t < |S| && Conforms(S, t, m) && i < |m.fields| && FieldConforms(S, S[t].fields[i], vs)
    ensures Conforms(S, t, m.(fields := m.fields[i := Slot(vs)]))
  {
  }

  lemma {:induction false} WireOfUnpacked(f: Field)
    requires f.rule.Required?
    ensures WireOfField(f) == WireOf(f.kind)
  {
  }

  lemma {:induction false} FilledAbove(f: Field, s: LoopState, i: nat, vs: seq<Value>, rest: ByteString)
    requires i < |s.m.fields| && f.rule.Required? && f.tag > 64
    ensures Filled(f, s, i, vs, false, rest) ==
            s.(rest := rest, m := s.m.(fields := s.m.fields[i := Slot(vs)]), required := s.required - 1)
  {
  }

  /** A required field that is counted at every occurrence, and that some input sets. */
  ghost predicate Fooling(S: Schema, f: Field)
    requires FieldOk(S, f)
  {
    f.rule.Required? && f.tag > 64 && (f.kind.Nested? ==> exists raw :: CleanInput(S, f.kind.t, raw))
  }

  /** The bitmap is not enough: two required fields or more, and one of them counted at every occurrence. */
  ghost predicate CanBeFooled(S: Schema, t: nat)
    requires SchemaOk(S) && t < |S|
  {
    && RequiredCount(S[t].fields) >= 2
    && exists i :: 0 <= i < |S[t].fields| && FieldOk(S, S[t].fields[i]) && Fooling(S, S[t].fields[i])
  }

  lemma {:induction false} AnotherRequired(fs: seq<Field>, i: nat) returns (k: nat)
    requires RequiredCount(fs) >= 2 && i < |fs|
    ensures k < |fs| && k != i && fs[k].rule.Required?
    decreases |fs|
  {
    if i == 0 {
      k := SomeRequired(fs[1..]);
      k := k + 1;
    } else if fs[0].rule.Required? {
      k := 0;
    } else {
      k := AnotherRequired(fs[1..], i - 1);
      k := k + 1;
    }
  }

  lemma {:induction false} SomeRequired(fs: seq<Field>) returns (k: nat)
    requires RequiredCount(fs) >= 1
    ensures k < |fs| && fs[k].rule.Required?
  {
    if fs[0].rule.Required? {
      k := 0;
    } else {
      k := SomeRequired(fs[1..]);
      k := k + 1;
    }
  }

  /** An input that repeats one required field with a large tag passes for complete. */
  lemma {:induction false} Fooled(S: Schema, t: nat) returns (b: ByteString)
    requires SchemaOk(S) && t < |S| && CanBeFooled(S, t)
    ensures var d := Decode(S, t, b, Empty(S[t]));
            d.Decoded? && !d.missing && !RequiredSet(S[t], d.m)
  {
    var fs := S[t].fields;
    var i :| 0 <= i < |fs| && FieldOk(S, fs[i]) && Fooling(S, fs[i]);
    var payload: ByteString;
    if fs[i].kind.Nested? {
      var raw :| CleanInput(S, fs[i].kind.t, raw);
      NestedClean(S, fs[i], raw);
      payload := RawBytes(raw);
    } else {
      payload := SampleClean(S, fs[i]);
    }
    var n := RequiredCount(fs);
    b := Copies(TagCode(fs[i]) + payload, n);
    EmptyFits(S, t);
    var s := LoopState(b, Empty(S[t]), false, {}, n);
    CopiesFool(S, t, s, i, payload, n);
    var k := AnotherRequired(fs, i);
    assert Loop(S, t, s).m.fields[k] == s.m.fields[k];
  }

  ghost predicate NoneFooling(S: Schema, t: nat)
    requires SchemaOk(S) && t < |S|
  {
    forall i :: 0 <= i < |S[t].fields| && FieldOk(S, S[t].fields[i]) ==> !Fooling(S, S[t].fields[i])
  }

  /** How the counter and the required fields stand to each other when the type cannot be fooled. */
  ghost predicate Counting(S: Schema, t: nat, s: LoopState)
    requires SchemaOk(S) && t < |S|
  {
    && (NoneFooling(S, t) && !s.missing ==> Tracked(S[t], s))
    && (RequiredCount(S[t].fields) <= 1 && s.required < RequiredCount(S[t].fields) ==> RequiredSet(S[t], s.m))
  }

  /** A large-tagged required field that no input sets cleanly marks the message for good. */
  lemma {:induction false} StubbornIsMissing(S: Schema, f: Field, wire: nat, r: ByteString, vs: seq<Value>)
    requires SchemaOk(S) && FieldOk(S, f) && FieldConforms(S, f, vs) && FieldOf(S, f, wire, r, vs).Read?
    requires f.rule.Required? && f.tag > 64 && !Fooling(S, f)
    ensures FieldOf(S, f, wire, r, vs).missing
  {
    hide Decode, FieldConforms, SchemaOk, VarintOf;
    var t, raw := f.kind.t, RawBytesOf(r).value;
    BaseFits(S, f, vs);
    EmptyFits(S, t);
    DecodeSame(S, t, raw, Base(S, f, vs), Empty(S[t]));
    assert !CleanInput(S, t, raw);
  }

  lemma {:induction false} SoleRequired(fs: seq<Field>, i: nat, k: nat)
    requires RequiredCount(fs) <= 1 && i < |fs| && k < |fs| && fs[i].rule.Required? && fs[k].rule.Required?
    ensures i == k
    decreases |fs|
  {
    if i == 0 && k != 0 {
      CountsRequired(fs[1..], k - 1);
    } else if k == 0 && i != 0 {
      CountsRequired(fs[1..], i - 1);
    } else if i != 0 && k != 0 {
      SoleRequired(fs[1..], i - 1, k - 1);
    }
  }

  lemma {:induction false} CountsRequired(fs: seq<Field>, k: nat)
    requires k < |fs| && fs[k].rule.Required?
    ensures RequiredCount(fs) >= 1
  {
    if k > 0 {
      CountsRequired(fs[1..], k - 1);
    }
  }

  lemma {:induction false} FillCounting(S: Schema, t: nat, s: LoopState, i: nat, vs: seq<Value>, missing: bool, rest: ByteString)
    requires SchemaOk(S) && t < |S| && i < |S[t].fields| == |s.m.fields| && Counting(S, t, s)
    requires Singular(S[t].fields[i]) ==> vs != []
    requires s.missing ==> missing
    requires var f := S[t].fields[i]; FieldOk(S, f) && (f.rule.Required? && f.tag > 64 && !Fooling(S, f) ==> missing)
    ensures var read := s.(rest := rest, m := s.m.(fields := s.m.fields[i := Slot(vs)]), missing := missing);
            Counting(S, t, Account(S[t].fields[i], read))
  {
    var fs := S[t].fields;
    var read := s.(rest := rest, m := s.m.(fields := s.m.fields[i := Slot(vs)]), missing := missing);
    if NoneFooling(S, t) && !missing {
      FillTracked(S, t, s, i, vs, missing, rest);
    }
    hide Tracked, RequiredCount, Fooling;
    if RequiredCount(fs) <= 1 && fs[i].rule.Required? {
      forall k | 0 <= k < |fs| && fs[k].rule.Required?
        ensures k == i
      {
        SoleRequired(fs, i, k);
      }
      assert RequiredSet(S[t], read.m);
    }
  }

  lemma {:induction false} CountingStep(S: Schema, t: nat, s: LoopState)
    requires SchemaOk(S) && t < |S| && Conforms(S, t, s.m) && Counting(S, t, s) && Step(S, t, s).Next?
    ensures Conforms(S, t, Step(S, t, s).state.m) && Counting(S, t, Step(S, t, s).state)
  {
    assert Fits(S, t, s, false);
    StepFits(S, t, s, false);
    hide FieldOf, VarintOf, Varint, Skip, FieldConforms, AllComplete, Fooling;
    var u := VarintOf(s.rest);
    var i := IndexOf(S[t].fields, u.value / 8);
    if i.None? {
      var s' := Step(S, t, s).state;
      assert forall x :: SetRequired(S[t], s'.m, x) == SetRequired(S[t], s.m, x);
    } else {
      var f, vs := S[t].fields[i.value], s.m.fields[i.value].values;
      assert TypeOk(S, S[t]) && FieldOk(S, f) && FieldConforms(S, f, vs);
      FieldOfFits(S, f, u.value % 8, u.rest, vs);
      var p := FieldOf(S, f, u.value % 8, u.rest, vs);
      if f.rule.Required? && f.tag > 64 && !Fooling(S, f) {
        StubbornIsMissing(S, f, u.value % 8, u.rest, vs);
      }
      FillCounting(S, t, s, i.value, p.values, s.missing || p.missing, p.rest);
    }
  }

  lemma {:induction false} CountingLoop(S: Schema, t: nat, s: LoopState)
    requires SchemaOk(S) && t < |S| && Conforms(S, t, s.m) && Counting(S, t, s) && !CanBeFooled(S, t)
    requires Loop(S, t, s).Decoded? && !Loop(S, t, s).missing
    ensures RequiredSet(S[t], Loop(S, t, s).m)
    decreases |s.rest|
  {
    if s.rest == [] {
      hide Fooling;
      if NoneFooling(S, t) {
        TrackedAll(S, t, s);
      } else if i :| 0 <= i < |S[t].fields| && S[t].fields[i].rule.Required? {
        CountsRequired(S[t].fields, i);
      }
    } else {
      hide Step, Conforms, Counting, CanBeFooled;
      CountingStep(S, t, s);
      CountingLoop(S, t, Step(S, t, s).state);
    }
  }

  /**
    For every message type of every schema: success means that all required fields were set, exactly if the
    type cannot be fooled. It can be if it has at least two required fields and one of them, tagged above 64,
    is not a message or is of a type that some input decodes to with nothing missing.
    */
  lemma {:induction false} RequiredSoundIff(S: Schema, t: nat)
    requires SchemaOk(S) && t < |S|
    ensures !CanBeFooled(S, t) <==>
            forall b :: Decode(S, t, b, Empty(S[t])).Decoded? && !Decode(S, t, b, Empty(S[t])).missing ==>
                          RequiredSet(S[t], Decode(S, t, b, Empty(S[t])).m)
  {
    hide Loop, CanBeFooled;
    if CanBeFooled(S, t) {
      var b := Fooled(S, t);
    } else {
      forall b | Decode(S, t, b, Empty(S[t])).Decoded? && !Decode(S, t, b, Empty(S[t])).missing
        ensures RequiredSet(S[t], Decode(S, t, b, Empty(S[t])).m)
      {
        EmptyFits(S, t);
        CountingLoop(S, t, LoopState(b, Empty(S[t]), false, {}, RequiredCount(S[t].fields)));
      }
    }
  }
}
