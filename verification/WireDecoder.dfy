/**
  The decoder as the program has it: an index into a buffer, loops that move it, and the buffer swapped for
  the bytes of a nested message while that is decoded. Its results are those of the parsers in `Messages`.
  */
module WireDecoder {
  import opened Bytes
  import opened Wire
  import opened Messages

  datatype Result<T> = Ok(value: T) | Error(error: Error)

  class Decoder {
    var buf: ByteString
    var index: nat

    ghost predicate Valid()
      reads this
    {
      index <= |buf|
    }

    ghost function Rest(): ByteString
      reads this
      requires Valid()
    {
      buf[index..]
    }

    constructor (buf: ByteString)
      ensures Valid() && Rest() == buf && this.buf == buf
    {
      this.buf, index := buf, 0;
    }

    method DecodeVarint() returns (r: Result<nat>)
      requires Valid()
      modifies this`index
      ensures Valid() && Agrees(VarintOf(old(Rest())), r, Rest())
    {
      hide VarintFrom, Scale, Continues;
      var i := index;
      var x: nat, shift, scale: nat := 0, 0, 1;
      ghost var k := 0;
      Start(buf[i..]);
      while shift < 64
        invariant index <= i <= |buf| && index == old(index)
        invariant k <= 10 && shift == 7 * k && scale == Scale(k)
        invariant Continues(VarintOf(old(Rest())), x, scale, VarintFrom(buf[i..], 10 - k))
        decreases 10 - k
      {
        if i >= |buf| {
          AtEnd(VarintOf(old(Rest())), x, scale, buf[i..], 10 - k);
          return Error(Eof);
        }
        var b := buf[i];
        assert buf[i..][0] == b && buf[i..][1..] == buf[i + 1..];
        i := i + 1;
        LastBit(b as nat, k);
        OneByte(VarintOf(old(Rest())), x, scale, buf[i - 1..], 10 - k);
        x := x + (b as nat % 128 * scale) % TWO64;
        if b < 128 {
          index := i;
          return Ok(x);
        }
        ScaleUp(k);
        shift, scale, k := shift + 7, 128 * scale, k + 1;
      }
      AtEnd(VarintOf(old(Rest())), x, scale, buf[i..], 10 - k);
      r := Error(Overflow);
    }

    method DecodeFixed32() returns (r: Result<nat>)
      requires Valid()
      modifies this`index
      ensures Valid() && Agrees(FixedOf(old(Rest()), 4), r, Rest())
    {
      ghost var b := Rest();
      var i := index + 4;
      if i > |buf| {
        return Error(Eof);
      }
      index := i;
      r := Ok(buf[i - 4] as nat + 0x100 * buf[i - 3] as nat + 0x1_0000 * buf[i - 2] as nat + 0x100_0000 * buf[i - 1] as nat);
      FourBytes(b[..4]);
    }

    method DecodeFixed64() returns (r: Result<nat>)
      requires Valid()
      modifies this`index
      ensures Valid() && Agrees(FixedOf(old(Rest()), 8), r, Rest())
    {
      ghost var b := Rest();
      var i := index + 8;
      if i > |buf| {
        return Error(Eof);
      }
      index := i;
      var low := buf[i - 8] as nat + 0x100 * buf[i - 7] as nat + 0x1_0000 * buf[i - 6] as nat + 0x100_0000 * buf[i - 5] as nat;
      var high := buf[i - 4] as nat + 0x100 * buf[i - 3] as nat + 0x1_0000 * buf[i - 2] as nat + 0x100_0000 * buf[i - 1] as nat;
      r := Ok(low + TWO32 * high);
      EightBytes(b[..8]);
      FourBytes(b[..8][..4]);
      FourBytes(b[..8][4..]);
    }

    method DecodeRawBytes() returns (r: Result<ByteString>)
      requires Valid()
      modifies this`index
      ensures Valid() && Agrees(RawBytesOf(old(Rest())), r, Rest())
    {
      hide VarintOf;
      var n := DecodeVarint();
      if n.Error? {
        return Error(n.error);
      }
      if n.value >= TWO63 {
        return Error(BadLength);
      }
      var end := index + n.value;
      if end > |buf| {
        return Error(Eof);
      }
      assert Rest()[..n.value] == buf[index..end] && Rest()[n.value..] == buf[end..];
      r := Ok(buf[index..end]);
      index := end;
    }

    method Skip(wire: nat) returns (r: Result<()>)
      requires Valid()
      modifies this`index
      ensures Valid() && Agrees(Wire.Skip(old(Rest()), wire), r, Rest())
      decreases |buf| - index, 1
    {
      if wire == VARINT {
        var u := DecodeVarint();
        r := Done(u);
      } else if wire == FIXED64 {
        var u := DecodeFixed64();
        r := Done(u);
      } else if wire == BYTES {
        var b := DecodeRawBytes();
        r := Done(b);
      } else if wire == FIXED32 {
        var u := DecodeFixed32();
        r := Done(u);
      } else if wire == STARTGROUP {
        r := SkipGroup();
      } else {
        r := Error(UnknownWire);
      }
    }

    method SkipGroup() returns (r: Result<()>)
      requires Valid()
      modifies this`index
      ensures Valid() && Agrees(Wire.SkipGroup(old(Rest())), r, Rest())
      decreases |buf| - index, 0
    {
      hide VarintOf, Wire.Skip;
      while true
        invariant Valid() && index >= old(index)
        invariant Wire.SkipGroup(old(Rest())) == Wire.SkipGroup(Rest())
        decreases |buf| - index
      {
        ghost var b := Rest();
        var u := DecodeVarint();
        if u.Error? {
          return Error(u.error);
        }
        if u.value % 8 == ENDGROUP {
          return Ok(());
        }
        var s := Skip(u.value % 8);
        if s.Error? {
          return Error(s.error);
        }
        assert Wire.SkipGroup(b) == Wire.SkipGroup(Rest());
      }
    }

    method DecodeScalar(c: Codec) returns (r: Result<nat>)
      requires Valid()
      modifies this`index
      ensures Valid() && Agrees(ScalarOf(c, old(Rest())), r, Rest())
    {
      hide VarintOf, FixedOf;
      match c {
        case Fixed32 => r := DecodeFixed32();
        case Fixed64 => r := DecodeFixed64();
        case _ => r := DecodeVarint();
      }
      if r.Ok? {
        r := Ok(Stored(c, r.value));
      }
    }

    method DecodeBools(count: nat, vs: seq<Value>) returns (r: Result<seq<Value>>)
      requires Valid()
      modifies this`index
      ensures Valid() && Agrees(BoolsOf(old(Rest()), count, vs), r, Rest())
    {
      hide ScalarOf;
      var y := vs;
      for i := 0 to count
        invariant Valid() && BoolsOf(old(Rest()), count, vs) == BoolsOf(Rest(), count - i, y)
      {
        ghost var b := Rest();
        var u := DecodeScalar(Bool);
        if u.Error? {
          return Error(u.error);
        }
        assert BoolsOf(b, count - i, y) == BoolsOf(Rest(), count - i - 1, y + [Num(u.value)]);
        y := y + [Num(u.value)];
      }
      r := Ok(y);
    }

    method DecodePacked(c: Codec, size: nat, vs: seq<Value>) returns (r: Result<seq<Value>>)
      requires Valid()
      modifies this`index
      ensures Valid() && Agrees(PackedOf(c, old(Rest()), size, vs), r, Rest())
    {
      hide ScalarOf, PackedOf;
      var y := vs;
      var fin := index + size;
      while index < fin
        invariant Valid()
        invariant PackedOf(c, old(Rest()), size, vs) == PackedOf(c, Rest(), if index >= fin then 0 else fin - index, y)
        decreases fin - index
      {
        PackedOne(c, Rest(), fin - index, y);
        var u := DecodeScalar(c);
        if u.Error? {
          return Error(u.error);
        }
        y := y + [Num(u.value)];
      }
      PackedEnd(c, Rest(), y);
      r := Ok(y);
    }

    method DecodePackedField(c: Codec, vs: seq<Value>) returns (r: Result<seq<Value>>)
      requires Valid()
      modifies this`index
      ensures Valid() && Agrees(PackedFieldOf(c, old(Rest()), vs), r, Rest())
    {
      hide VarintOf, BoolsOf, PackedOf;
      var n := DecodeVarint();
      if n.Error? {
        return Error(n.error);
      }
      if c.Bool? {
        r := DecodeBools(if n.value < TWO63 then n.value else 0, vs);
      } else if n.value >= TWO63 {
        r := Error(Overflow);
      } else {
        r := DecodePacked(c, n.value, vs);
      }
    }

    /** One occurrence of a known field. A packed list is taken for any repeated number. */
    method DecodeField(S: Schema, f: Field, wire: nat, vs: seq<Value>) returns (r: FieldResult)
      requires Valid()
      modifies this
      ensures Valid() && buf == old(buf) && Reads(FieldOf(S, f, wire, old(Rest()), vs), r, Rest())
      decreases |buf| - index, 1
    {
      hide ScalarOf, RawBytesOf, PackedFieldOf, Decode;
      if wire != STARTGROUP && wire != WireOf(f.kind) {
        if wire == BYTES && Packable(f) {
          var p := DecodePackedField(f.kind.codec, vs);
          return if p.Ok? then FieldOk(p.value, false) else FieldError(p.error);
        }
        return FieldError(BadWire);
      }
      match f.kind
      case Scalar(c) =>
        var u := DecodeScalar(c);
        r := if u.Ok? then FieldOk(Put(f, vs, Num(u.value)), false) else FieldError(u.error);
      case Text =>
        var b := DecodeRawBytes();
        r := if b.Ok? then FieldOk(Put(f, vs, Blob(b.value)), false) else FieldError(b.error);
      case Nested(t) =>
        r := DecodeNested(S, f, vs);
    }

    /** The buffer is swapped for the bytes of the nested message and put back whatever comes of it. */
    method DecodeNested(S: Schema, f: Field, vs: seq<Value>) returns (r: FieldResult)
      requires Valid() && f.kind.Nested?
      modifies this
      ensures Valid() && buf == old(buf) && Reads(FieldOf(S, f, BYTES, old(Rest()), vs), r, Rest())
      decreases |buf| - index, 0
    {
      hide RawBytesOf, Decode;
      var raw := DecodeRawBytes();
      if raw.Error? {
        return FieldError(raw.error);
      }
      if f.kind.t >= |S| {
        return FieldError(BadWire);
      }
      var obuf, oi := buf, index;
      buf, index := raw.value, 0;
      assert Rest() == raw.value;
      var d := UnmarshalType(S, f.kind.t, Base(S, f, vs));
      buf, index := obuf, oi;
      r := if d.Decoded? then FieldOk(Put(f, vs, Sub(d.m)), d.missing) else FieldError(d.error);
    }

    /** The loop over the fields of a message, which is filled in as they come. */
    method UnmarshalType(S: Schema, t: nat, into: Message) returns (r: Outcome)
      requires Valid() && t < |S|
      modifies this
      ensures Valid() && buf == old(buf) && r == Decode(S, t, old(Rest()), into)
      decreases |buf| - index, 3
    {
      hide VarintOf, Varint, FieldOf, Loop, Step;
      var m, missing := into, false;
      var required: int, reqFields: set<nat> := RequiredCount(S[t].fields), {};
      while index < |buf|
        invariant Valid() && buf == old(buf) && index >= old(index)
        invariant Loop(S, t, LoopState(Rest(), m, missing, reqFields, required)) == Decode(S, t, old(Rest()), into)
        decreases |buf| - index
      {
        StepsOn(S, t, LoopState(Rest(), m, missing, reqFields, required));
        var err;
        err, m, missing, reqFields, required := UnmarshalField(S, t, m, missing, reqFields, required);
        if err.Some? {
          return Failed(err.value);
        }
      }
      StepsOn(S, t, LoopState(Rest(), m, missing, reqFields, required));
      r := Decoded(m, missing || required > 0);
    }

    /** The body of that loop: a known field is decoded, an unknown one skipped and saved. */
    method UnmarshalField(S: Schema, t: nat, into: Message, missing: bool, reqFields: set<nat>, required: int)
        returns (err: Option<Error>, m: Message, missing': bool, reqFields': set<nat>, required': int)
      requires Valid() && t < |S|
      modifies this
      ensures Valid() && buf == old(buf)
      ensures Step(S, t, LoopState(old(Rest()), into, missing, reqFields, required)) ==
              if err.Some? then Stop(err.value) else Next(LoopState(Rest(), m, missing', reqFields', required'))
      decreases |buf| - index, 2
    {
      hide VarintOf, Varint, FieldOf, Wire.Skip, Step, Account;
      ghost var s := LoopState(Rest(), into, missing, reqFields, required);
      StepCases(S, t, s);
      err, m, missing', reqFields', required' := None, into, missing, reqFields, required;
      var u := DecodeVarint();
      if u.Error? {
        err := Some(u.error);
        return;
      }
      var wire, tag := u.value % 8, u.value / 8;
      if wire == ENDGROUP {
        err := Some(EndGroup);
        return;
      }
      if tag == 0 {
        err := Some(IllegalTag);
        return;
      }
      var i := IndexOf(S[t].fields, tag);
      if i.None? {
        err, m := SkipAndSave(S[t], wire, u.value, into);
      } else if i.value >= |m.fields| {
        err := Some(BadWire);
      } else {
        StepKnown(S, t, s);
        var f := S[t].fields[i.value];
        var p := DecodeField(S, f, wire, m.fields[i.value].values);
        if p.FieldError? {
          err := Some(p.error);
          return;
        }
        m := m.(fields := m.fields[i.value := Slot(p.values)]);
        missing' := missing || p.missing;
        reqFields', required' := CountRequired(f, reqFields, required, LoopState(Rest(), m, missing', reqFields, required));
      }
    }

    method CountRequired(f: Field, reqFields: set<nat>, required: int, ghost s: LoopState)
        returns (reqFields': set<nat>, required': int)
      requires s.seen == reqFields && s.required == required
      ensures Account(f, s) == s.(seen := reqFields', required := required')
    {
      reqFields', required' := reqFields, required;
      if f.rule.Required? {
        if f.tag <= 64 {
          if f.tag !in reqFields {
            reqFields' := reqFields + {f.tag};
            required' := required - 1;
          }
        } else {
          required' := required - 1;
        }
      }
    }

    method SkipAndSave(t: MessageType, wire: nat, u: nat, into: Message) returns (err: Option<Error>, m: Message)
      requires Valid()
      modifies this`index
      ensures Valid()
      ensures match Wire.Skip(old(Rest()), wire)
              case Err(e) => err == Some(e)
              case Got(_, q) =>
                && err.None? && Rest() == q
                && m == into.(unknown :=
                          if t.keepsUnknown then into.unknown + (Varint(u) + Before(old(Rest()), q)) else into.unknown)
    {
      hide Wire.Skip, Varint;
      err, m := None, into;
      var oi := index;
      var s := Skip(wire);
      if s.Error? {
        return Some(s.error), into;
      }
      if t.keepsUnknown {
        assert Before(old(Rest()), Rest()) == buf[oi..index];
        m := into.(unknown := into.unknown + (Varint(u) + buf[oi..index]));
      }
    }
  }

  /** Decodes into an empty message; the outcome does not depend on how the loops go about it. */
  method Unmarshal(S: Schema, t: nat, b: ByteString) returns (r: Outcome)
    requires t < |S|
    ensures r == Decode(S, t, b, Empty(S[t]))
  {
    var p := new Decoder(b);
    r := p.UnmarshalType(S, t, Empty(S[t]));
  }

  datatype FieldResult = FieldOk(values: seq<Value>, missing: bool) | FieldError(error: Error)

  ghost predicate Reads(p: FieldRead, r: FieldResult, rest: ByteString) {
    match p
    case Read(vs, missing, q) => r == FieldOk(vs, missing) && rest == q
    case Bad(e) => r == FieldError(e)
  }

  lemma {:induction false} StepCases(S: Schema, t: nat, s: LoopState)
    requires t < |S|
    ensures match VarintOf(s.rest)
            case Err(e) => Step(S, t, s) == Stop(e)
            case Got(u, r) =>
              && (u % 8 == ENDGROUP ==> Step(S, t, s) == Stop(EndGroup))
              && (u % 8 != ENDGROUP && u / 8 == 0 ==> Step(S, t, s) == Stop(IllegalTag))
              && (u % 8 != ENDGROUP && u / 8 > 0 ==> IndexedStep(S, t, s, u, r))
  {
    hide VarintOf, Varint, FieldOf, Wire.Skip;
  }

  ghost predicate IndexedStep(S: Schema, t: nat, s: LoopState, u: nat, r: ByteString)
    requires t < |S|
  {
    match IndexOf(S[t].fields, u / 8)
    case Some(i) => i >= |s.m.fields| ==> Step(S, t, s) == Stop(BadWire)
    case None =>
      match Wire.Skip(r, u % 8)
      case Err(e) => Step(S, t, s) == Stop(e)
      case Got(_, q) =>
        var kept := if S[t].keepsUnknown then s.m.unknown + (Varint(u) + Before(r, q)) else s.m.unknown;
        Step(S, t, s) == Next(s.(rest := q, m := s.m.(unknown := kept)))
  }

  lemma {:induction false} StepKnown(S: Schema, t: nat, s: LoopState)
    requires t < |S| && VarintOf(s.rest).Got?
    requires var u := VarintOf(s.rest).value;
             u % 8 != ENDGROUP && u / 8 > 0 && IndexOf(S[t].fields, u / 8).Some? && IndexOf(S[t].fields, u / 8).value < |s.m.fields|
    ensures var u := VarintOf(s.rest);
            var i := IndexOf(S[t].fields, u.value / 8).value;
            match FieldOf(S, S[t].fields[i], u.value % 8, u.rest, s.m.fields[i].values)
            case Bad(e) => Step(S, t, s) == Stop(e)
            case Read(vs, missing, q) =>
              var read := s.(rest := q, m := s.m.(fields := s.m.fields[i := Slot(vs)]), missing := s.missing || missing);
              Step(S, t, s) == Next(Account(S[t].fields[i], read))
  {
    hide VarintOf, Varint, FieldOf, Wire.Skip;
  }

  lemma {:induction false} StepsOn(S: Schema, t: nat, s: LoopState)
    requires t < |S|
    ensures s.rest == [] ==> Loop(S, t, s) == Decoded(s.m, s.missing || s.required > 0)
    ensures s.rest != [] ==>
              match Step(S, t, s)
              case Stop(e) => Loop(S, t, s) == Failed(e)
              case Next(s') => Loop(S, t, s) == Loop(S, t, s')
  {
    hide Step;
  }

  function Done<T>(r: Result<T>): Result<()> {
    if r.Ok? then Ok(()) else Error(r.error)
  }

  lemma {:induction false} PackedOne(c: Codec, b: ByteString, size: nat, vs: seq<Value>)
    requires size > 0
    ensures match ScalarOf(c, b)
            case Err(e) => PackedOf(c, b, size, vs) == Err(e)
            case Got(x, r) =>
              var used := |b| - |r|;
              PackedOf(c, b, size, vs) == PackedOf(c, r, if used >= size then 0 else size - used, vs + [Num(x)])
  {
    hide ScalarOf;
  }

  lemma {:induction false} PackedEnd(c: Codec, b: ByteString, vs: seq<Value>)
    ensures PackedOf(c, b, 0, vs) == Got(vs, b)
  {
  }

  lemma {:induction false} FourBytes(b: ByteString)
    requires |b| == 4
    ensures FixedValue(b) == b[0] as nat + 0x100 * b[1] as nat + 0x1_0000 * b[2] as nat + 0x100_0000 * b[3] as nat
  {
    var b1 := b[1..];
    var b2 := b1[1..];
    var b3 := b2[1..];
    assert FixedValue(b3) == b3[0] as nat + 256 * FixedValue([]);
    assert FixedValue(b2) == b2[0] as nat + 256 * FixedValue(b3);
    assert FixedValue(b1) == b1[0] as nat + 256 * FixedValue(b2);
  }

  lemma {:induction false} FixedConcat(b: ByteString, k: nat)
    requires k <= |b|
    ensures FixedValue(b) == FixedValue(b[..k]) + Power256(k) * FixedValue(b[k..])
  {
    if k == 0 {
      assert b[0..] == b;
    } else {
      FixedConcat(b[1..], k - 1);
      assert b[1..][k - 1..] == b[k..] && b[..k][1..] == b[1..][..k - 1];
      Scaled(Power256(k - 1), FixedValue(b[k..]));
    }
  }

  lemma {:induction false} Scaled(p: nat, v: nat)
    ensures 256 * (p * v) == (256 * p) * v
  {
  }

  lemma {:induction false} EightBytes(b: ByteString)
    requires |b| == 8
    ensures FixedValue(b) == FixedValue(b[..4]) + TWO32 * FixedValue(b[4..])
  {
    PowerOfWords();
    FixedConcat(b, 4);
  }

  /** The outcome of a method is that of a parser on what was left of the buffer. */
  ghost predicate Agrees<T>(p: Parsed<T>, r: Result<T>, rest: ByteString) {
    match p
    case Got(v, q) => r == Ok(v) && rest == q
    case Err(e) => r == Error(e)
  }

  function Scale(k: nat): nat {
    if k == 0 then 1 else 128 * Scale(k - 1)
  }

  /** `x` has been read so far, and `q` is what the rest still gives. */
  ghost predicate Continues(p: Parsed<nat>, x: nat, scale: nat, q: Parsed<nat>) {
    match q
    case Got(y, rest) => p == Got(x + scale * y, rest)
    case Err(e) => p == Err(e)
  }

  lemma {:induction false} Start(b: ByteString)
    ensures Scale(0) == 1 && Continues(VarintOf(b), 0, 1, VarintFrom(b, 10))
  {
  }

  lemma {:induction false} ScaleUp(k: nat)
    ensures Scale(k + 1) == 128 * Scale(k)
  {
  }

  lemma {:induction false} AtEnd(p: Parsed<nat>, x: nat, scale: nat, b: ByteString, left: nat)
    requires (b == [] || left == 0) && Continues(p, x, scale, VarintFrom(b, left))
    ensures p == Err(if left == 0 then Overflow else Eof)
  {
  }

  lemma {:induction false} OneByte(p: Parsed<nat>, x: nat, scale: nat, b: ByteString, left: nat)
    requires left > 0 && b != [] && Continues(p, x, scale, VarintFrom(b, left))
    ensures var low := if left == 1 then b[0] as nat % 2 else b[0] as nat % 128;
            if b[0] < 128 then p == Got(x + low * scale, b[1..])
            else Continues(p, x + low * scale, 128 * scale, VarintFrom(b[1..], left - 1))
  {
    var low := if left == 1 then b[0] as nat % 2 else b[0] as nat % 128;
    var q := VarintFrom(b[1..], left - 1);
    if b[0] >= 128 && q.Got? {
      Spread(x, scale, low, q.value);
    }
  }

  lemma {:induction false} Spread(x: nat, scale: nat, low: nat, y: nat)
    ensures x + scale * (low + 128 * y) == x + low * scale + 128 * scale * y
  {
  }

  lemma {:induction false} ScaleValues(k: nat)
    requires k <= 9
    ensures k <= 8 ==> Scale(k) <= 0x100_0000_0000_0000
    ensures k == 9 ==> Scale(k) == TWO63
  {
    assert Scale(3) == 128 * (128 * 128);
    assert Scale(6) == 128 * (128 * (128 * Scale(3)));
    assert Scale(8) == 128 * (128 * Scale(6));
    if k == 9 {
      assert Scale(9) == 128 * Scale(8);
    } else {
      ScaleGrows(k, 8);
    }
  }

  lemma {:induction false} ScaleGrows(k: nat, j: nat)
    requires k <= j
    ensures 0 < Scale(k) <= Scale(j)
    decreases j
  {
    if k < j {
      ScaleGrows(k, j - 1);
    } else if k > 0 {
      ScaleGrows(k - 1, j - 1);
    }
  }

  /** Of the tenth byte only the lowest bit fits the word. */
  lemma {:induction false} LastBit(b: nat, k: nat)
    requires b < 256 && k < 10
    ensures (b % 128 * Scale(k)) % TWO64 == (if k == 9 then b % 2 else b % 128) * Scale(k)
  {
    ScaleValues(k);
    if k == 9 {
      assert b % 128 * TWO63 == b % 128 / 2 * TWO64 + b % 2 * TWO63;
    } else {
      AtMost(b % 128, Scale(k));
    }
  }

  lemma {:induction false} AtMost(a: nat, s: nat)
    requires a < 128 && s <= 0x100_0000_0000_0000
    ensures a * s < TWO64
  {
    assert a * s <= 127 * s;
  }
}
