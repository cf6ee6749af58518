/**
  The wire format in literal numbers, apart from the codec: what the bytes of an encoded field are. With the
  round trips this fixes what the encoder writes and what the decoder takes.
  */
module WireFormat {
  import opened Bytes
  import opened Wire
  import opened Messages

  // ---------- numbers ----------

  function Power(base: nat, n: nat): (p: nat)
    requires base > 0
    ensures p > 0
  {
    if n == 0 then 1 else base * Power(base, n - 1)
  }

  lemma DivideTwice(x: nat, a: nat, b: nat)
    requires a > 0 && b > 0
    ensures a * b > 0 && (x / a) / b == x / (a * b)
  {
    var y := x / a;
    var q, r, low := y / b, y % b, x % a;
    Regroup(a, b, q, r);
    Remainder(a, b, r, low);
    assert y == b * q + r;
    assert x == a * (b * q + r) + low;
    QuotientIs(x, a * b, q, a * r + low);
  }

  lemma Regroup(a: nat, b: nat, q: nat, r: nat)
    ensures a * (b * q + r) == (a * b) * q + a * r
  {
  }

  lemma Remainder(a: nat, b: nat, r: nat, low: nat)
    requires r < b && low < a
    ensures a * r + low < a * b
  {
    Larger(a, b, r);
  }

  lemma Larger(d: nat, p: nat, q: nat)
    ensures p > q ==> d * p >= d * q + d
  {
    if p > q {
      assert d * p == d * q + d * (p - q);
      assert d * (p - q) == d + d * (p - q - 1);
    }
  }

  lemma QuotientIs(x: nat, d: nat, q: nat, r: nat)
    requires d > 0 && x == d * q + r && r < d
    ensures x / d == q
  {
    Larger(d, x / d, q);
    Larger(d, q, x / d);
  }

  /** A fixed word is its bytes, the lowest first. */
  lemma {:induction false} FixedBytes(x: nat, n: nat, i: nat)
    requires i < n
    ensures |Fixed(x, n)| == n && Fixed(x, n)[i] as nat == x / Power(256, i) % 256
  {
    if i > 0 {
      FixedBytes(x / 256, n - 1, i - 1);
      DivideTwice(x, 256, Power(256, i - 1));
    } else {
      assert Power(256, 0) == 1;
    }
  }

  /** A varint is its groups of seven bits, the lowest first, with the top bit set in all but the last; it is shortest. */
  lemma {:induction false} VarintBytes(x: nat, i: nat)
    requires i < |Varint(x)|
    ensures Varint(x)[i] as nat == x / Power(128, i) % 128 + if i + 1 < |Varint(x)| then 128 else 0
    ensures |Varint(x)| > 1 ==> x / Power(128, |Varint(x)| - 1) > 0
    ensures x / Power(128, |Varint(x)|) == 0
  {
    var n := |Varint(x)|;
    if x < 128 {
      assert n == 1 && Power(128, 1) == 128 * Power(128, 0) && Power(128, 0) == 1;
    } else {
      assert n == 1 + |Varint(x / 128)|;
      VarintBytes(x / 128, if i == 0 then 0 else i - 1);
      DivideTwice(x, 128, Power(128, n - 1));
      DivideTwice(x, 128, Power(128, n - 2));
      if i > 0 {
        DivideTwice(x, 128, Power(128, i - 1));
      } else {
        assert Power(128, 0) == 1;
      }
    }
  }

  // ---------- scalars ----------

  /** The word that a struct field of the given width holds for a signed number. */
  function Word32(x: int): nat
    requires -0x8000_0000 <= x < 0x8000_0000
  {
    if x < 0 then 4294967296 + x else x
  }

  function Word64(x: int): nat
    requires -0x8000_0000_0000_0000 <= x < 0x8000_0000_0000_0000
  {
    if x < 0 then 18446744073709551616 + x else x
  }

  /** Zigzag: the sign goes to the lowest bit. */
  function Folded(x: int): nat {
    if x >= 0 then 2 * x else -2 * x - 1
  }

  lemma Zigzagged32(x: int, widen: bool)
    requires -0x8000_0000 <= x < 0x8000_0000
    ensures EncScalar(Zigzag32, widen, Word32(x)) == Varint(Folded(x))
  {
  }

  lemma Zigzagged64(x: int, widen: bool)
    requires -0x8000_0000_0000_0000 <= x < 0x8000_0000_0000_0000
    ensures EncScalar(Zigzag64, widen, Word64(x)) == Varint(Folded(x))
  {
  }

  /** A negative int32 is written as a 64-bit number where it stands alone, and as a 32-bit one in a list. */
  lemma Signed(x: int)
    requires -0x8000_0000 <= x < 0x8000_0000
    ensures EncScalar(Int32, true, Word32(x)) == Varint(Word64(x))
    ensures EncScalar(Int32, false, Word32(x)) == Varint(Word32(x))
    ensures EncScalar(Int64, true, Word64(x)) == EncScalar(Int64, false, Word64(x)) == Varint(Word64(x))
  {
  }

  /** Numbers without a sign, Booleans and fixed words. */
  lemma Unsigned(n: nat, widen: bool)
    ensures EncScalar(Uint32, widen, n) == EncScalar(Int64, widen, n) == Varint(n)
    ensures n <= 1 ==> EncScalar(Bool, widen, n) == [n as byte]
    ensures EncScalar(Fixed32, widen, n) == Fixed(n, 4) && EncScalar(Fixed64, widen, n) == Fixed(n, 8)
  {
  }

  /** What is kept of any varint or fixed word that is read for a number. */
  lemma Kept(c: Codec, b: ByteString, u: nat, rest: ByteString)
    requires if c.Fixed32? then b == Fixed(u, 4) + rest && u < 4294967296
             else if c.Fixed64? then b == Fixed(u, 8) + rest && u < 18446744073709551616
             else b == Varint(u) + rest && u < 18446744073709551616
    ensures ScalarOf(c, b).Got? && ScalarOf(c, b).rest == rest
    ensures var n := ScalarOf(c, b).value;
            match c
            case Bool => n == if u == 0 then 0 else 1
            case Int32 => n == u % 4294967296
            case Uint32 => n == u % 4294967296
            case Int64 => n == u
            case Fixed32 => n == u
            case Fixed64 => n == u
            case Zigzag32 => exists x: int :: -0x8000_0000 <= x < 0x8000_0000 && n == Word32(x) && Folded(x) == u % 4294967296
            case Zigzag64 => exists x: int :: -0x8000_0000_0000_0000 <= x < 0x8000_0000_0000_0000 && n == Word64(x) && Folded(x) == u
  {
    hide Varint, VarintOf, Fixed, FixedOf, FixedValue;
    if c.Fixed32? {
      FixedWord(u, 4);
      FixedReadsBack(u, 4, rest);
    } else if c.Fixed64? {
      FixedWord(u, 8);
      FixedReadsBack(u, 8, rest);
    } else {
      VarintReadsBack(u, rest);
      var v := if c.Zigzag32? then u % 4294967296 else u;
      var x: int := if v % 2 == 0 then v / 2 else -1 - v / 2;
      assert Folded(x) == v;
      if c.Zigzag32? { assert ScalarOf(c, b).value == Word32(x); }
      if c.Zigzag64? { assert ScalarOf(c, b).value == Word64(x); }
    }
  }

  // ---------- fields ----------

  /** 0 varint, 1 eight bytes, 2 counted bytes, 5 four bytes. */
  function WireNumber(f: Field): nat {
    if f.rule.Packed? then 2
    else match f.kind
         case Text => 2
         case Nested(_) => 2
         case Scalar(Fixed64) => 1
         case Scalar(Fixed32) => 5
         case Scalar(_) => 0
  }

  /** One number, with its key in front. */
  lemma NumberField(S: Schema, f: Field, n: nat)
    requires f.kind.Scalar? && !f.rule.Packed?
    ensures EncField(S, f, [Num(n)]) == Varint(8 * f.tag + WireNumber(f)) + EncScalar(f.kind.codec, Singular(f), n)
    ensures f.tag < 16 ==> Varint(8 * f.tag + WireNumber(f)) == [(8 * f.tag + WireNumber(f)) as byte]
  {
    SingleValue(S, f, Num(n));
  }

  lemma SingleValue(S: Schema, f: Field, v: Value)
    requires !f.rule.Packed?
    ensures EncField(S, f, [v]) == TagCode(f) + Payload(S, f, v)
  {
    assert [v][1..] == [];
    assert EncValues(S, f, [v]) == TagCode(f) + Payload(S, f, v) + [];
  }

  /** Bytes: the key, how many, and the bytes. */
  lemma BytesField(S: Schema, f: Field, b: ByteString)
    requires f.kind.Text? && !f.rule.Packed?
    ensures EncField(S, f, [Blob(b)]) == Varint(8 * f.tag + 2) + (Varint(|b|) + b)
  {
    SingleValue(S, f, Blob(b));
  }

  /** A message: the same with its own encoding. */
  lemma NestedField(S: Schema, f: Field, m: Message)
    requires f.kind.Nested? && !f.rule.Packed? && f.kind.t < |S|
    ensures var inner := EncMessage(S, f.kind.t, m);
            EncField(S, f, [Sub(m)]) == Varint(8 * f.tag + 2) + (Varint(|inner|) + inner)
  {
    SingleValue(S, f, Sub(m));
  }

  /** The numbers of a packed list one after the other. */
  function Row(c: Codec, ns: seq<nat>): ByteString {
    if ns == [] then [] else EncScalar(c, false, ns[0]) + Row(c, ns[1..])
  }

  function Nums(ns: seq<nat>): (vs: seq<Value>)
    ensures |vs| == |ns| && forall i :: 0 <= i < |ns| ==> vs[i] == Num(ns[i])
  {
    seq(|ns|, i requires 0 <= i < |ns| => Num(ns[i]))
  }

  lemma {:induction false} PackedIsRow(S: Schema, f: Field, ns: seq<nat>)
    requires f.rule.Packed? && f.kind.Scalar?
    ensures PackedBody(S, f, Nums(ns)) == Row(f.kind.codec, ns)
  {
    if ns != [] {
      PackedIsRow(S, f, ns[1..]);
      assert Nums(ns)[1..] == Nums(ns[1..]);
    }
  }

  /** A packed list: the key with wire number 2, how many bytes, and the numbers. */
  lemma PackedField(S: Schema, f: Field, ns: seq<nat>)
    requires f.rule.Packed? && f.kind.Scalar? && ns != []
    ensures var row := Row(f.kind.codec, ns);
            EncField(S, f, Nums(ns)) == Varint(8 * f.tag + 2) + (Varint(|row|) + row)
  {
    PackedIsRow(S, f, ns);
  }

  /** Values of a list that is not packed are fields of their own, one after the other. */
  lemma {:induction false} RepeatedField(S: Schema, f: Field, vs: seq<Value>, more: seq<Value>)
    requires !f.rule.Packed?
    ensures EncField(S, f, vs + more) == EncField(S, f, vs) + EncField(S, f, more)
  {
    hide TagCode, Payload;
    if vs == [] {
      assert vs + more == more;
    } else {
      assert (vs + more)[0] == vs[0] && (vs + more)[1..] == vs[1..] + more;
      RepeatedField(S, f, vs[1..], more);
    }
  }

  /** A field without values is not there, and the fields follow each other by their tags. */
  lemma {:induction false} FieldsInOrder(S: Schema, t: nat, m: Message, k: nat)
    requires SchemaOk(S) && t < |S| && Conforms(S, t, m) && k < |m.fields|
    ensures EncField(S, S[t].fields[k], []) == []
    ensures EncFields(S, S[t].fields[k..], m.fields[k..]) ==
            EncField(S, S[t].fields[k], m.fields[k].values) + EncFields(S, S[t].fields[k + 1..], m.fields[k + 1..])
    ensures EncMessage(S, t, m) == EncFields(S, S[t].fields[0..], m.fields[0..]) + m.unknown
    ensures forall j :: k < j < |S[t].fields| ==> S[t].fields[k].tag < S[t].fields[j].tag
  {
    hide EncField, FieldConforms;
    var fs := S[t].fields;
    assert TypeOk(S, S[t]);
    assert fs[k..][1..] == fs[k + 1..] && m.fields[k..][1..] == m.fields[k + 1..];
    assert fs[0..] == fs && m.fields[0..] == m.fields;
    NoValues(S, fs[k]);
  }

  lemma NoValues(S: Schema, f: Field)
    ensures EncField(S, f, []) == []
  {
  }

  lemma {:induction false} EmptyFields(S: Schema, fs: seq<Field>, fields: seq<Slot>)
    requires |fs| == |fields| && forall i :: 0 <= i < |fields| ==> fields[i].values == []
    ensures EncFields(S, fs, fields) == []
  {
    if fs != [] {
      NoValues(S, fs[0]);
      EmptyFields(S, fs[1..], fields[1..]);
    }
  }

  lemma {:induction false} OnlyField(S: Schema, fs: seq<Field>, fields: seq<Slot>, k: nat)
    requires k < |fs| == |fields| && forall i :: 0 <= i < |fields| && i != k ==> fields[i].values == []
    ensures EncFields(S, fs, fields) == EncField(S, fs[k], fields[k].values)
  {
    hide EncField;
    if k == 0 {
      EmptyFields(S, fs[1..], fields[1..]);
    } else {
      NoValues(S, fs[0]);
      OnlyField(S, fs[1..], fields[1..], k - 1);
    }
  }

  /** A message of which one field is set is that field and nothing else. */
  lemma OneFieldSet(S: Schema, t: nat, m: Message, k: nat)
    requires t < |S| && k < |m.fields| == |S[t].fields| && m.unknown == []
    requires forall i :: 0 <= i < |m.fields| && i != k ==> m.fields[i].values == []
    ensures EncMessage(S, t, m) == EncField(S, S[t].fields[k], m.fields[k].values)
  {
    OnlyField(S, S[t].fields, m.fields, k);
  }

  // ---------- skipping ----------

  /** What is skipped, by the number of the wire type. */
  lemma Skipped(b: ByteString)
    ensures Skip(b, 0).Got? <==> VarintOf(b).Got?
    ensures Skip(b, 0).Got? ==> Skip(b, 0).rest == VarintOf(b).rest
    ensures Skip(b, 1) == if |b| < 8 then Err(Eof) else Got((), b[8..])
    ensures Skip(b, 5) == if |b| < 4 then Err(Eof) else Got((), b[4..])
    ensures forall wire :: wire == 4 || wire > 5 ==> Skip(b, wire) == Err(UnknownWire)
  {
    hide VarintOf, SkipGroup, RawBytesOf;
  }

  lemma SkippedBytes(n: nat, b: ByteString)
    requires n <= |b| && n < 9223372036854775808
    ensures Skip(Varint(n) + b, 2) == Got((), b[n..])
  {
    var head, tail := b[..n], b[n..];
    assert b == head + tail;
    SkipsCounted(RawBytes(head) + tail);
    RawBytesIs(head);
    hide *;
    RawBytesReadBack(head, tail);
    Reassociate(Varint(n), head, tail);
  }

  lemma SkipsCounted(b: ByteString)
    ensures Skip(b, 2) == Forget(RawBytesOf(b))
  {
  }

  lemma RawBytesIs(b: ByteString)
    ensures RawBytes(b) == Varint(|b|) + b
  {
  }

  /** A group is its items up to a key of wire type 4. */
  lemma SkippedGroup(key: nat, b: ByteString)
    requires key < 18446744073709551616
    ensures key % 8 == 4 ==> Skip(Varint(key) + b, 3) == Got((), b)
    ensures key % 8 != 4 && Skip(b, key % 8).Got? ==> Skip(Varint(key) + b, 3) == Skip(Skip(b, key % 8).rest, 3)
  {
    VarintReadsBack(key, b);
    hide VarintOf, Varint;
  }
}
