/**
  The encoder as the program has it: bytes appended to a buffer with spare capacity, and the length of a
  nested message put in front of it in place, after the message has been written.
  */
module WireEncoder {
  import opened Bytes
  import opened Wire
  import opened Messages
  import opened MessageRoundTrip

  /** `sizeVarint`: how many shifts by seven bits until nothing is left. */
  method VarintSize(x: nat) returns (n: nat)
    ensures n == |Varint(x)|
  {
    SizeVarintExact(x);
    n := 0;
    var y := x;
    while true
      invariant n + SizeVarint(y) == SizeVarint(x)
      decreases y + 1
    {
      n := n + 1;
      if y / 128 == 0 {
        break;
      }
      y := y / 128;
    }
  }

  /** A slice of bytes: the first `len` elements of an array, the rest of which is capacity. */
  class Encoder {
    var data: array<byte>
    var len: nat

    ghost predicate Valid()
      reads this
    {
      len <= data.Length
    }

    ghost function Contents(): ByteString
      reads this, data
      requires Valid()
    {
      data[..len]
    }

    constructor ()
      ensures Valid() && Contents() == [] && fresh(data)
    {
      data := new byte[0];
      len := 0;
    }

    /** Makes room for `n` more bytes; the array is replaced only if it is too small. */
    method Reserve(n: nat)
      requires Valid()
      modifies this`data
      ensures Valid() && Contents() == old(Contents()) && len + n <= data.Length
      ensures data == old(data) || fresh(data)
      ensures old(len + n <= data.Length) ==> data == old(data)
    {
      if len + n > data.Length {
        var bigger := new byte[2 * data.Length + n];
        for i := 0 to len
          invariant bigger[..i] == data[..i]
          modifies bigger
        {
          bigger[i] := data[i];
        }
        data := bigger;
      }
    }

    /** `copy` into the array at position `at`. */
    method Write(at: nat, bs: ByteString)
      requires at + |bs| <= data.Length
      modifies data
      ensures data[..] == old(data[..at]) + bs + old(data[at + |bs|..])
    {
      ghost var before := data[..];
      for i := 0 to |bs|
        invariant forall k :: 0 <= k < i ==> data[at + k] == bs[k]
        invariant forall k :: 0 <= k < data.Length && !(at <= k < at + i) ==> data[k] == before[k]
      {
        data[at + i] := bs[i];
      }
      assert data[..at] == before[..at] && data[at..at + |bs|] == bs && data[at + |bs|..] == before[at + |bs|..];
      assert data[..] == data[..at] + data[at..at + |bs|] + data[at + |bs|..];
    }

    /** Within the capacity the array stays, and so does what lies beyond the bytes written. */
    method Append(bs: ByteString)
      requires Valid()
      modifies this, data
      ensures Valid() && Contents() == old(Contents()) + bs
      ensures data == old(data) || fresh(data)
      ensures old(len + |bs| <= data.Length) ==>
                data == old(data) && data[len..] == old(data[..])[len..]
    {
      Reserve(|bs|);
      ghost var before := data[..];
      Write(len, bs);
      ghost var after := data[..];
      WrittenParts(before, after, len, bs);
      len := len + |bs|;
      assert data[..len] == after[..len] && data[len..] == after[len..];
    }

    method EncodeVarint(x: nat)
      requires Valid()
      modifies this, data
      ensures Valid() && Contents() == old(Contents()) + Varint(x)
      ensures data == old(data) || fresh(data)
      ensures old(len) + |Varint(x)| <= old(data.Length) ==>
                data == old(data) && data[len..] == old(data[..])[len..]
    {
      var y := x;
      ghost var begin := len;
      while y >= 128
        invariant Valid() && Contents() + Varint(y) == old(Contents()) + Varint(x)
        invariant data == old(data) || fresh(data)
        invariant len + |Varint(y)| == begin + |Varint(x)|
        invariant begin + |Varint(x)| <= old(data.Length) ==> data == old(data) && data[len..] == old(data[..])[len..]
      {
        ghost var c := Contents();
        ghost var y0, d, k := y, data[..], len;
        Append([(y % 128 + 128) as byte]);
        SameBeyond(d, old(data[..]), k, len);
        y := y / 128;
        Reassociate(c, [(y0 % 128 + 128) as byte], Varint(y));
      }
      ghost var d, k := data[..], len;
      Append([y as byte]);
      SameBeyond(d, old(data[..]), k, len);
    }

    method EncodeFixed64(x: nat)
      requires Valid()
      modifies this, data
      ensures Valid() && Contents() == old(Contents()) + Fixed(x, 8)
      ensures data == old(data) || fresh(data)
    {
      var x1 := x / 256;
      var x2 := x1 / 256;
      var x3 := x2 / 256;
      var x4 := x3 / 256;
      Append([(x % 256) as byte, (x1 % 256) as byte, (x2 % 256) as byte, (x3 % 256) as byte,
              (x4 % 256) as byte, (x4 / 256 % 256) as byte, (x4 / 256 / 256 % 256) as byte, (x4 / 256 / 256 / 256 % 256) as byte]);
      FixedHalves(x);
      FixedFour(x);
      FixedFour(x4);
    }

    method EncodeFixed32(x: nat)
      requires Valid()
      modifies this, data
      ensures Valid() && Contents() == old(Contents()) + Fixed(x, 4)
      ensures data == old(data) || fresh(data)
    {
      Append([(x % 256) as byte, (x / 256 % 256) as byte, (x / 256 / 256 % 256) as byte, (x / 256 / 256 / 256 % 256) as byte]);
      FixedFour(x);
    }

    method EncodeRawBytes(b: ByteString)
      requires Valid()
      modifies this, data
      ensures Valid() && Contents() == old(Contents()) + RawBytes(b)
      ensures data == old(data) || fresh(data)
    {
      EncodeVarint(|b|);
      Append(b);
      Reassociate(old(Contents()), Varint(|b|), b);
    }

    method EncodeScalar(c: Codec, widen: bool, n: nat)
      requires Valid()
      modifies this, data
      ensures Valid() && Contents() == old(Contents()) + EncScalar(c, widen, n)
      ensures data == old(data) || fresh(data)
    {
      match c
      case Bool => EncodeVarint(n);
      case Int32 => EncodeVarint(Widened(n, widen));
      case Uint32 => EncodeVarint(n);
      case Int64 => EncodeVarint(n);
      case Fixed32 => EncodeFixed32(n);
      case Fixed64 => EncodeFixed64(n);
      case Zigzag32 => EncodeVarint(Zigzag(n, TWO32));
      case Zigzag64 => EncodeVarint(Zigzag(n, TWO64));
    }

    /** `copy` within the array; the ranges may overlap. */
    method Move(to: nat, from: nat, n: nat)
      requires to + n <= data.Length && from + n <= data.Length
      modifies data
      ensures data[..] == old(data[..to] + data[from..from + n] + data[to + n..])
    {
      Write(to, data[from..from + n]);
    }

    /**
      The last `n` bytes are a message with four bytes reserved before it. The message is moved to where a
      length of `lLen` bytes will leave off; what the slice counts as its end no longer matters.
      */
    method Shift(iLen: nat, n: nat, lLen: nat)
      requires Valid() && len == iLen + 4 + n
      modifies this, data
      ensures Valid() && (data == old(data) || fresh(data))
      ensures iLen <= len && iLen + lLen + n <= data.Length
      ensures data[..iLen] == old(data[..iLen]) && data[iLen + lLen..iLen + lLen + n] == old(data[iLen + 4..len])
    {
      ghost var was := Contents();
      if lLen > 4 {
        Append(seq(lLen - 4, _ => 0));
        PrefixKept(data[..], was, seq(lLen - 4, _ => 0), len);
        Relocate(iLen, n, lLen, was);
      } else if lLen < 4 {
        Relocate(iLen, n, lLen, was);
        len := len - (4 - lLen);
      }
    }

    method Relocate(iLen: nat, n: nat, lLen: nat, ghost was: ByteString)
      requires Valid() && |was| == iLen + 4 + n && iLen + lLen + n <= data.Length
      requires |was| <= data.Length && data[..|was|] == was
      modifies data
      ensures data[..iLen] == was[..iLen] && data[iLen + lLen..iLen + lLen + n] == was[iLen + 4..]
    {
      assert data[iLen + 4..iLen + 4 + n] == was[iLen + 4..];
      assert data[..iLen] == was[..iLen];
      ghost var head := data[..iLen + lLen];
      Move(iLen + lLen, iLen + 4, n);
      assert data[..iLen + lLen] == head;
      assert data[iLen + lLen..iLen + lLen + n] == data[..][iLen + lLen..][..n];
      assert data[..iLen] == head[..iLen];
    }

    /** The length goes in front of the message, and the slice is extended over the message again. */
    method PutLength(iLen: nat, n: nat)
      requires Valid() && len == iLen + 4 + n
      modifies this, data
      ensures Valid() && (data == old(data) || fresh(data))
      ensures Contents() == old(Contents())[..iLen] + RawBytes(old(Contents())[iLen + 4..])
    {
      ghost var was := Contents();
      var lLen := VarintSize(n);
      Shift(iLen, n, lLen);
      Cover(iLen, n, was[..iLen], was[iLen + 4..]);
    }

    method Cover(iLen: nat, n: nat, ghost begin: ByteString, ghost body: ByteString)
      requires Valid() && iLen + |Varint(n)| + n <= data.Length && iLen <= data.Length
      requires data[..iLen] == begin && |body| == n
      requires data[iLen + |Varint(n)|..iLen + |Varint(n)| + n] == body
      modifies this, data
      ensures Valid() && data == old(data) && Contents() == begin + RawBytes(body)
    {
      ghost var before := data[..];
      len := iLen;
      EncodeVarint(n);
      Tail(data[..], before, len, n);
      len := len + n;
      assert data[..len] == data[..len - n] + data[len - n..len];
      Reassociate(begin, Varint(n), body);
    }

    // ---------- messages ----------

    /** `missing` is the remembered error that a required field is not set; encoding goes on past it. */
    method EncodeLenStruct(S: Schema, t: nat, m: Message) returns (missing: bool)
      requires Valid() && SchemaOk(S) && t < |S| && Conforms(S, t, m)
      modifies this, data
      ensures Valid() && (data == old(data) || fresh(data))
      ensures Contents() == old(Contents()) + RawBytes(EncMessage(S, t, m))
      ensures missing <==> !Complete(S, t, m)
      decreases m, 2
    {
      ghost var begin := Contents();
      var iLen := len;
      Append([0, 0, 0, 0]);
      var iMsg := len;
      missing := EncodeStruct(S, t, m);
      var lMsg := len - iMsg;
      ghost var e := EncMessage(S, t, m);
      Parts(begin, [0, 0, 0, 0], e);
      PutLength(iLen, lMsg);
    }

    method EncodeStruct(S: Schema, t: nat, m: Message) returns (missing: bool)
      requires Valid() && SchemaOk(S) && t < |S| && Conforms(S, t, m)
      modifies this, data
      ensures Valid() && (data == old(data) || fresh(data))
      ensures Contents() == old(Contents()) + EncMessage(S, t, m)
      ensures missing <==> !Complete(S, t, m)
      decreases m, 1
    {
      hide EncField, EncFields, FieldConforms, FieldComplete, UnknownOk;
      var fs := S[t].fields;
      missing := false;
      ghost var all := EncFields(S, fs, m.fields);
      assert fs[0..] == fs && m.fields[0..] == m.fields;
      for i := 0 to |fs|
        invariant Valid() && (data == old(data) || fresh(data))
        invariant Contents() + EncFields(S, fs[i..], m.fields[i..]) == old(Contents()) + all
        invariant missing <==> exists k :: 0 <= k < i && !FieldComplete(S, fs[k], m.fields[k].values)
      {
        ghost var c := Contents();
        EncFieldsStep(S, fs, m.fields, i);
        assert TypeOk(S, S[t]) && FieldOk(S, fs[i]) && FieldConforms(S, fs[i], m.fields[i].values);
        var unset := EncodeField(S, fs[i], m.fields[i].values);
        Reassociate(c, EncField(S, fs[i], m.fields[i].values), EncFields(S, fs[i + 1..], m.fields[i + 1..]));
        missing := missing || unset;
      }
      NoFieldsLeft(S, fs[|fs|..], m.fields[|fs|..], Contents());
      ghost var c := Contents();
      if S[t].keepsUnknown && |m.unknown| > 0 {
        Append(m.unknown);
      }
      Reassociate(old(Contents()), all, if S[t].keepsUnknown then m.unknown else []);
      assert c + [] == c;
    }

    /** The tag and the value, for every value. */
    method EncodeEach(S: Schema, f: Field, vs: seq<Value>) returns (missing: bool)
      requires Valid() && SchemaOk(S) && !f.rule.Packed? && vs != [] && FieldConforms(S, f, vs)
      modifies this, data
      ensures Valid() && (data == old(data) || fresh(data))
      ensures Contents() == old(Contents()) + EncValues(S, f, vs)
      ensures missing <==> !FieldComplete(S, f, vs)
      decreases vs, 0
    {
      hide EncValues, Payload, TagCode, ValueConforms, ValueComplete;
      missing := false;
      assert vs[0..] == vs;
      for i := 0 to |vs|
        invariant Valid() && (data == old(data) || fresh(data))
        invariant Contents() + EncValues(S, f, vs[i..]) == old(Contents()) + EncValues(S, f, vs)
        invariant missing <==> exists k :: 0 <= k < i && !ValueComplete(S, f, vs[k])
      {
        ghost var c := Contents();
        EncValuesStep(S, f, vs, i, c);
        Append(TagCode(f));
        var unset := EncodeValue(S, f, vs[i]);
        missing := missing || unset;
      }
      NoValuesLeft(S, f, vs[|vs|..], Contents());
    }

    method EncodeValue(S: Schema, f: Field, v: Value) returns (missing: bool)
      requires Valid() && SchemaOk(S) && ValueConforms(S, f, v)
      modifies this, data
      ensures Valid() && (data == old(data) || fresh(data))
      ensures Contents() == old(Contents()) + Payload(S, f, v)
      ensures missing <==> !ValueComplete(S, f, v)
      decreases v, 0
    {
      missing := false;
      match v
      case Num(n) => EncodeScalar(f.kind.codec, Singular(f), n);
      case Blob(b) => EncodeRawBytes(b);
      case Sub(m) => missing := EncodeLenStruct(S, f.kind.t, m);
    }

    /** Booleans are counted beforehand, one byte each; other numbers are first written to a buffer of their own. */
    method EncodePacked(S: Schema, f: Field, vs: seq<Value>)
      requires Valid() && f.rule.Packed? && f.kind.Scalar? && FieldConforms(S, f, vs)
      modifies this, data
      ensures Valid() && (data == old(data) || fresh(data))
      ensures Contents() == old(Contents()) + (TagCode(f) + RawBytes(PackedBody(S, f, vs)))
    {
      hide PackedBody, TagCode, Varint, ValueConforms;
      ghost var c := Contents();
      ghost var body := PackedBody(S, f, vs);
      if f.kind.codec.Bool? {
        SizeValuesExact(S, f, vs);
        Append(TagCode(f));
        EncodeVarint(|vs|);
        PackValues(S, f, vs);
      } else {
        var buf := new Encoder();
        buf.PackValues(S, f, vs);
        Append(TagCode(f));
        EncodeVarint(buf.len);
        Append(buf.data[..buf.len]);
        assert [] + body == body;
      }
      FourParts(c, TagCode(f), Varint(|body|), body);
    }

    method PackValues(S: Schema, f: Field, vs: seq<Value>)
      requires Valid() && f.rule.Packed? && f.kind.Scalar? && AllConform(S, f, vs)
      modifies this, data
      ensures Valid() && (data == old(data) || fresh(data))
      ensures Contents() == old(Contents()) + PackedBody(S, f, vs)
    {
      hide PackedBody, EncScalar, AllConform;
      assert vs[0..] == vs;
      for i := 0 to |vs|
        invariant Valid() && (data == old(data) || fresh(data))
        invariant Contents() + PackedBody(S, f, vs[i..]) == old(Contents()) + PackedBody(S, f, vs)
        invariant AllConform(S, f, vs[i..])
      {
        ghost var c := Contents();
        assert vs[i..][1..] == vs[i + 1..] && vs[i..][0] == vs[i];
        PackedHead(S, f, vs[i..]);
        EncodeScalar(f.kind.codec, Singular(f), vs[i].n);
        Reassociate(c, EncScalar(f.kind.codec, Singular(f), vs[i].n), PackedBody(S, f, vs[i + 1..]));
      }
      NothingPacked(S, f, vs[|vs|..], Contents());
    }

    method EncodeField(S: Schema, f: Field, vs: seq<Value>) returns (missing: bool)
      requires Valid() && SchemaOk(S) && FieldOk(S, f) && FieldConforms(S, f, vs)
      modifies this, data
      ensures Valid() && (data == old(data) || fresh(data))
      ensures Contents() == old(Contents()) + EncField(S, f, vs)
      ensures missing <==> !FieldComplete(S, f, vs)
      decreases vs, 1
    {
      missing := false;
      if |vs| == 0 {
        missing := f.rule.Required?;
        assert Contents() + [] == Contents();
      } else if f.rule.Packed? {
        EncodePacked(S, f, vs);
      } else {
        missing := EncodeEach(S, f, vs);
      }
    }
  }

  lemma {:induction false} EncValuesStep(S: Schema, f: Field, vs: seq<Value>, k: nat, c: ByteString)
    requires k < |vs|
    ensures c + EncValues(S, f, vs[k..]) == c + TagCode(f) + Payload(S, f, vs[k]) + EncValues(S, f, vs[k + 1..])
  {
    assert vs[k..][1..] == vs[k + 1..];
    var a, b, d := TagCode(f), Payload(S, f, vs[k]), EncValues(S, f, vs[k + 1..]);
    assert EncValues(S, f, vs[k..]) == a + b + d;
    hide *;
    assert c + (a + b + d) == c + a + b + d;
  }

  lemma {:induction false} NoValuesLeft(S: Schema, f: Field, vs: seq<Value>, c: ByteString)
    requires vs == []
    ensures c + EncValues(S, f, vs) == c
  {
  }

  lemma {:induction false} NothingPacked(S: Schema, f: Field, vs: seq<Value>, c: ByteString)
    requires vs == []
    ensures c + PackedBody(S, f, vs) == c
  {
  }

  lemma {:induction false} FourParts(a: ByteString, b: ByteString, c: ByteString, d: ByteString)
    ensures a + b + c + d == a + (b + (c + d))
  {
  }

  lemma {:induction false} Parts(a: ByteString, b: ByteString, c: ByteString)
    ensures (a + b + c)[..|a|] == a && (a + b + c)[|a| + |b|..] == c
  {
  }

  lemma {:induction false} EncFieldsStep(S: Schema, fs: seq<Field>, fields: seq<Slot>, k: nat)
    requires k < |fs| == |fields|
    ensures EncFields(S, fs[k..], fields[k..]) ==
            EncField(S, fs[k], fields[k].values) + EncFields(S, fs[k + 1..], fields[k + 1..])
  {
    assert fs[k..][1..] == fs[k + 1..] && fields[k..][1..] == fields[k + 1..];
  }

  lemma {:induction false} NoFieldsLeft(S: Schema, fs: seq<Field>, fields: seq<Slot>, c: ByteString)
    requires fs == []
    ensures c + EncFields(S, fs, fields) == c
  {
  }

  /** The encoding of a message, and whether some required field of it was not set. */
  method Marshal(S: Schema, t: nat, m: Message) returns (bytes: ByteString, missing: bool)
    requires SchemaOk(S) && t < |S| && Conforms(S, t, m)
    ensures bytes == EncMessage(S, t, m) && |bytes| == SizeMessage(S, t, m)
    ensures missing <==> !Complete(S, t, m)
    ensures |bytes| < TWO63 ==> Decode(S, t, bytes, Empty(S[t])) == Decoded(m, missing)
  {
    hide EncMessage, Conforms, Complete, Decode, SizeMessage;
    var p := new Encoder();
    missing := p.EncodeStruct(S, t, m);
    bytes := p.data[..p.len];
    assert [] + EncMessage(S, t, m) == EncMessage(S, t, m);
    SizeExact(S, t, m);
    if |bytes| < TWO63 {
      RoundTrip(S, t, m);
    }
  }

  lemma {:induction false} WrittenParts(before: ByteString, after: ByteString, at: nat, bs: ByteString)
    requires at + |bs| <= |before| && after == before[..at] + bs + before[at + |bs|..]
    ensures |after| == |before| && after[..at + |bs|] == before[..at] + bs
    ensures after[at + |bs|..] == before[at + |bs|..]
  {
  }

  lemma {:induction false} SameBeyond(a: ByteString, b: ByteString, k: nat, j: nat)
    ensures k <= j <= |a| == |b| && a[k..] == b[k..] ==> a[j..] == b[j..]
  {
    if k <= j <= |a| == |b| && a[k..] == b[k..] {
      assert a[k..][j - k..] == a[j..] && b[k..][j - k..] == b[j..];
    }
  }

  lemma {:induction false} PrefixKept(d: ByteString, was: ByteString, more: ByteString, n: nat)
    requires n <= |d| && d[..n] == was + more
    ensures |was| <= |d| && d[..|was|] == was
  {
    assert d[..n][..|was|] == was;
  }

  lemma {:induction false} Tail(d: ByteString, e: ByteString, k: nat, n: nat)
    requires |d| == |e| && k + n <= |d| && d[k..] == e[k..]
    ensures d[k..k + n] == e[k..k + n]
  {
    assert d[k..][..n] == d[k..k + n];
    assert e[k..][..n] == e[k..k + n];
  }

  lemma {:induction false} FixedFour(x: nat)
    ensures Fixed(x, 4) == [(x % 256) as byte, (x / 256 % 256) as byte, (x / 256 / 256 % 256) as byte, (x / 256 / 256 / 256 % 256) as byte]
  {
    var a := x / 256;
    var b := a / 256;
    var c := b / 256;
    assert Fixed(c, 1) == [(c % 256) as byte] + Fixed(c / 256, 0);
    assert Fixed(b, 2) == [(b % 256) as byte] + Fixed(c, 1);
    assert Fixed(a, 3) == [(a % 256) as byte] + Fixed(b, 2);
  }

  lemma {:induction false} FixedHalves(x: nat)
    ensures Fixed(x, 8) == Fixed(x, 4) + Fixed(x / 256 / 256 / 256 / 256, 4)
  {
    var a := x / 256;
    var b := a / 256;
    var c := b / 256;
    FixedSplit(x, 4, 4);
    assert Shifted(c, 1) == c / 256;
    assert Shifted(b, 2) == c / 256;
    assert Shifted(a, 3) == c / 256;
  }

  function Shifted(x: nat, n: nat): nat {
    if n == 0 then x else Shifted(x / 256, n - 1)
  }

  lemma {:induction false} FixedSplit(x: nat, n: nat, k: nat)
    ensures Fixed(x, n + k) == Fixed(x, n) + Fixed(Shifted(x, n), k)
  {
    if n > 0 {
      FixedSplit(x / 256, n - 1, k);
    }
  }
}
