/**
  The protocol buffer wire primitives: base-128 integers, fixed words, zigzag, counted bytes, and skipping
  an item by its wire type. A parser takes the unread bytes and returns what it left of them.
  */
module Wire {
  import opened Bytes

  /** The words of 64 and 32 bits. */
  const TWO64: nat := 0x1_0000_0000_0000_0000
  const TWO63: nat := 0x8000_0000_0000_0000
  const TWO32: nat := 0x1_0000_0000
  const TWO31: nat := 0x8000_0000

  datatype Error = Eof | Overflow | BadLength | BadWire | EndGroup | IllegalTag | UnknownWire

  datatype Parsed<+T> = Got(value: T, rest: ByteString) | Err(error: Error)

  predicate Suffix(r: ByteString, b: ByteString) {
    |r| <= |b| && b[|b| - |r|..] == r
  }

  /** The bytes of `b` before its suffix `r`. */
  function Before(b: ByteString, r: ByteString): ByteString
    requires |r| <= |b|
  {
    b[..|b| - |r|]
  }

  lemma SuffixTransitive(r: ByteString, q: ByteString, b: ByteString)
    requires Suffix(r, q) && Suffix(q, b)
    ensures Suffix(r, b) && Before(b, r) == Before(b, q) + Before(q, r)
  {
    assert b == Before(b, q) + q;
  }

  // ---------- varints ----------

  function Varint(x: nat): (b: ByteString)
    ensures b != []
  {
    if x < 128 then [x as byte] else [(x % 128 + 128) as byte] + Varint(x / 128)
  }

  function SizeVarint(x: nat): nat {
    if x / 128 == 0 then 1 else 1 + SizeVarint(x / 128)
  }

  lemma {:induction false} SizeVarintExact(x: nat)
    ensures SizeVarint(x) == |Varint(x)|
  {
    if x >= 128 {
      SizeVarintExact(x / 128);
    }
  }

  /** How many values `left` more bytes can tell apart; of the tenth byte only one bit fits the word. */
  function Room(left: nat): (n: nat)
    ensures n > 0
  {
    if left == 0 then 1 else if left == 1 then 2 else 128 * Room(left - 1)
  }

  lemma RoomOfWord()
    ensures Room(10) == TWO64
  {
    assert Room(4) == 128 * (128 * (128 * 2));
    assert Room(7) == 128 * (128 * (128 * Room(4)));
  }

  function VarintFrom(b: ByteString, left: nat): (p: Parsed<nat>)
    ensures p.Got? ==> |p.rest| < |b| && Suffix(p.rest, b)
  {
    if left == 0 then Err(Overflow)
    else if b == [] then Err(Eof)
    else
      var low := if left == 1 then b[0] as nat % 2 else b[0] as nat % 128;
      if b[0] < 128 then Got(low, b[1..])
      else
        match VarintFrom(b[1..], left - 1)
        case Got(x, rest) => Got(low + 128 * x, rest)
        case Err(e) => Err(e)
  }

  /** At most ten bytes; what does not fit in 64 bits of the tenth is dropped. */
  function VarintOf(b: ByteString): (p: Parsed<nat>)
    ensures p.Got? ==> |p.rest| < |b| && Suffix(p.rest, b)
  {
    VarintFrom(b, 10)
  }

  lemma {:induction false} VarintRound(x: nat, left: nat, rest: ByteString)
    requires left > 0 && x < Room(left)
    ensures VarintFrom(Varint(x) + rest, left) == Got(x, rest)
  {
    var b := Varint(x) + rest;
    if x >= 128 {
      assert b[1..] == Varint(x / 128) + rest;
      assert left > 1;
      VarintRound(x / 128, left - 1, rest);
    } else {
      assert b[1..] == rest;
    }
  }

  lemma VarintReadsBack(x: nat, rest: ByteString)
    requires x < TWO64
    ensures VarintOf(Varint(x) + rest) == Got(x, rest)
  {
    RoomOfWord();
    VarintRound(x, 10, rest);
  }

  lemma {:induction false} VarintBound(b: ByteString, left: nat)
    requires VarintFrom(b, left).Got?
    ensures VarintFrom(b, left).value < Room(left)
  {
    if b[0] >= 128 {
      VarintBound(b[1..], left - 1);
    }
  }

  lemma VarintIsWord(b: ByteString)
    requires VarintOf(b).Got?
    ensures VarintOf(b).value < TWO64
  {
    RoomOfWord();
    VarintBound(b, 10);
  }

  /** What follows the bytes a parser used makes no difference to it. */
  lemma {:induction false} VarintLocal(p: ByteString, r: ByteString, s: ByteString, left: nat)
    requires VarintFrom(p + r, left).Got? && VarintFrom(p + r, left).rest == r
    ensures VarintFrom(p + s, left) == Got(VarintFrom(p + r, left).value, s)
  {
    assert |p| > 0;
    assert (p + r)[0] == p[0] && (p + s)[0] == p[0];
    assert (p + r)[1..] == p[1..] + r && (p + s)[1..] == p[1..] + s;
    if p[0] >= 128 {
      VarintLocal(p[1..], r, s, left - 1);
    } else {
      assert |p[1..]| == 0;
    }
  }

  // ---------- fixed words ----------

  function Fixed(x: nat, n: nat): (b: ByteString)
    ensures |b| == n
  {
    if n == 0 then [] else [(x % 256) as byte] + Fixed(x / 256, n - 1)
  }

  function FixedValue(b: ByteString): nat {
    if b == [] then 0 else b[0] as nat + 256 * FixedValue(b[1..])
  }

  function Power256(n: nat): nat {
    if n == 0 then 1 else 256 * Power256(n - 1)
  }

  lemma PowerOfWords()
    ensures Power256(4) == TWO32 && Power256(8) == TWO64
  {
    assert Power256(4) == 256 * (256 * (256 * 256));
    assert Power256(8) == 256 * (256 * (256 * (256 * Power256(4))));
  }

  /** The low `n` bytes come back, least significant first. */
  lemma {:induction false} FixedRound(x: nat, n: nat)
    ensures FixedValue(Fixed(x, n)) < Power256(n)
    ensures x < Power256(n) ==> FixedValue(Fixed(x, n)) == x
    ensures exists k: nat :: x == FixedValue(Fixed(x, n)) + k * Power256(n)
  {
    if n == 0 {
      assert x == 0 + x * Power256(0);
    } else {
      FixedRound(x / 256, n - 1);
      assert Fixed(x, n)[1..] == Fixed(x / 256, n - 1);
      var k: nat :| x / 256 == FixedValue(Fixed(x / 256, n - 1)) + k * Power256(n - 1);
      TimesAcross(k, Power256(n - 1));
      assert x == FixedValue(Fixed(x, n)) + k * Power256(n);
    }
  }

  lemma TimesAcross(k: nat, p: nat)
    ensures 256 * (k * p) == k * (256 * p)
  {
  }

  function FixedOf(b: ByteString, n: nat): (p: Parsed<nat>)
    requires n > 0
    ensures p.Got? ==> |p.rest| < |b| && Suffix(p.rest, b)
  {
    if |b| < n then Err(Eof) else Got(FixedValue(b[..n]), b[n..])
  }

  lemma FixedReadsBack(x: nat, n: nat, rest: ByteString)
    requires n > 0
    ensures FixedOf(Fixed(x, n) + rest, n) == Got(FixedValue(Fixed(x, n)), rest)
  {
    var b := Fixed(x, n) + rest;
    assert b[..n] == Fixed(x, n) && b[n..] == rest;
  }

  lemma FixedLocal(p: ByteString, r: ByteString, s: ByteString, n: nat)
    requires n > 0 && FixedOf(p + r, n).Got? && FixedOf(p + r, n).rest == r
    ensures FixedOf(p + s, n) == Got(FixedOf(p + r, n).value, s)
  {
    assert |p| == n;
    assert (p + r)[..n] == p && (p + s)[..n] == p && (p + s)[n..] == s;
  }

  // ---------- zigzag ----------

  /** `(x << 1) ^ (x >> 63)` on a 64-bit word in two's complement. */
  function Zigzag(x: nat, word: nat): nat {
    if 2 * x < word then 2 * x else if 2 * x - word < word then word - 1 - (2 * x - word) else 0
  }

  /** `(x >> 1) ^ -(x & 1)` on a word. */
  function Unzigzag(x: nat, word: nat): nat {
    if x % 2 == 0 then x / 2 else if x / 2 < word then word - 1 - x / 2 else 0
  }

  /** Zigzag is a bijection on the words. */
  lemma ZigzagRound(x: nat, half: nat)
    requires half > 0 && x < 2 * half
    ensures Zigzag(x, 2 * half) < 2 * half && Unzigzag(Zigzag(x, 2 * half), 2 * half) == x
    ensures Unzigzag(x, 2 * half) < 2 * half && Zigzag(Unzigzag(x, 2 * half), 2 * half) == x
  {
  }

  // ---------- counted bytes ----------

  function RawBytes(b: ByteString): ByteString {
    Varint(|b|) + b
  }

  function SizeRawBytes(b: ByteString): nat {
    SizeVarint(|b|) + |b|
  }

  /** A length whose top bit is set is negative once it is an int. */
  function RawBytesOf(b: ByteString): (p: Parsed<ByteString>)
    ensures p.Got? ==> |p.rest| < |b| && |p.value| < |b| && Suffix(p.rest, b)
  {
    match VarintOf(b)
    case Err(e) => Err(e)
    case Got(n, r) =>
      if n >= TWO63 then Err(BadLength)
      else if n > |r| then Err(Eof)
      else Got(r[..n], r[n..])
  }

  lemma RawBytesReadBack(b: ByteString, rest: ByteString)
    requires |b| < TWO63
    ensures RawBytesOf(RawBytes(b) + rest) == Got(b, rest)
  {
    assert RawBytes(b) + rest == Varint(|b|) + (b + rest);
    VarintReadsBack(|b|, b + rest);
    assert (b + rest)[..|b|] == b && (b + rest)[|b|..] == rest;
  }

  /** A parser that stops inside `p` splits it. */
  lemma Split(p: ByteString, r: ByteString, q: ByteString)
    requires Suffix(q, p + r) && Suffix(r, q)
    ensures p + r == Before(p + r, q) + q && q == Before(q, r) + r
    ensures p == Before(p + r, q) + Before(q, r)
  {
    assert (p + r)[..|p|] == p;
    assert p + r == Before(p + r, q) + (Before(q, r) + r);
    assert (Before(p + r, q) + (Before(q, r) + r))[..|p|] == Before(p + r, q) + Before(q, r);
  }

  lemma Reassociate(a: ByteString, b: ByteString, c: ByteString)
    ensures a + b + c == a + (b + c)
  {
  }

  lemma RawBytesLocal(p: ByteString, r: ByteString, s: ByteString)
    requires RawBytesOf(p + r).Got? && RawBytesOf(p + r).rest == r
    ensures RawBytesOf(p + s) == Got(RawBytesOf(p + r).value, s)
  {
    hide VarintOf;
    var q := VarintOf(p + r);
    var v := q.rest[..q.value];
    assert Suffix(r, q.rest);
    Split(p, r, q.rest);
    var head := Before(p + r, q.rest);
    assert Before(q.rest, r) == v;
    VarintOfLocal(head, v + r, v + s);
    Reassociate(head, v, s);
    assert (v + s)[..|v|] == v && (v + s)[|v|..] == s;
  }

  lemma VarintOfLocal(p: ByteString, r: ByteString, s: ByteString)
    requires VarintOf(p + r).Got? && VarintOf(p + r).rest == r
    ensures VarintOf(p + s) == Got(VarintOf(p + r).value, s)
  {
    VarintLocal(p, r, s, 10);
  }

  // ---------- skipping ----------

  const VARINT: nat := 0
  const FIXED64: nat := 1
  const BYTES: nat := 2
  const STARTGROUP: nat := 3
  const ENDGROUP: nat := 4
  const FIXED32: nat := 5

  /** One item by its wire type. */
  function Skip(b: ByteString, wire: nat): (p: Parsed<()>)
    ensures p.Got? ==> |p.rest| < |b| && Suffix(p.rest, b)
    decreases |b|, 1
  {
    if wire == VARINT then Forget(VarintOf(b))
    else if wire == FIXED64 then Forget(FixedOf(b, 8))
    else if wire == BYTES then Forget(RawBytesOf(b))
    else if wire == FIXED32 then Forget(FixedOf(b, 4))
    else if wire == STARTGROUP then SkipGroup(b)
    else Err(UnknownWire)
  }

  function Forget<T>(p: Parsed<T>): (q: Parsed<()>)
    ensures q.Got? <==> p.Got?
    ensures q.Got? ==> q.rest == p.rest
    ensures q.Err? ==> q.error == p.error
  {
    match p
    case Got(_, rest) => Got((), rest)
    case Err(e) => Err(e)
  }

  /** The items of a group up to its end. */
  function SkipGroup(b: ByteString): (p: Parsed<()>)
    ensures p.Got? ==> |p.rest| < |b| && Suffix(p.rest, b)
    decreases |b|, 0
  {
    match VarintOf(b)
    case Err(e) => Err(e)
    case Got(u, r) =>
      if u % 8 == ENDGROUP then Got((), r)
      else
        match Skip(r, u % 8)
        case Err(e) => Err(e)
        case Got(_, q) =>
          match SkipGroup(q)
          case Err(e) => Err(e)
          case Got(_, q') =>
            SuffixTransitive(q', q, r);
            SuffixTransitive(q', r, b);
            Got((), q')
  }

  /** A skip depends only on the bytes it skips. */
  lemma {:induction false} SkipLocal(p: ByteString, r: ByteString, s: ByteString, wire: nat)
    requires Skip(p + r, wire).Got? && Skip(p + r, wire).rest == r
    ensures Skip(p + s, wire) == Got((), s)
    decreases |p|, 1
  {
    if wire == VARINT {
      VarintLocal(p, r, s, 10);
    } else if wire == FIXED64 {
      FixedLocal(p, r, s, 8);
    } else if wire == BYTES {
      RawBytesLocal(p, r, s);
    } else if wire == FIXED32 {
      FixedLocal(p, r, s, 4);
    } else {
      SkipGroupLocal(p, r, s);
    }
  }

  lemma {:induction false} SkipGroupLocal(p: ByteString, r: ByteString, s: ByteString)
    requires SkipGroup(p + r).Got? && SkipGroup(p + r).rest == r
    ensures SkipGroup(p + s) == Got((), s)
    decreases |p|, 0
  {
    hide VarintOf, Skip;
    var q := VarintOf(p + r);
    GroupRest(p + r);
    Split(p, r, q.rest);
    var head, inner := Before(p + r, q.rest), Before(q.rest, r);
    VarintOfLocal(head, inner + r, inner + s);
    Reassociate(head, inner, s);
    assert VarintOf(p + s) == Got(q.value, inner + s);
    if q.value % 8 == ENDGROUP {
      assert inner == [];
      assert inner + s == s;
    } else {
      GroupInnerLocal(inner, r, s, q.value % 8);
    }
  }

  lemma {:induction false} GroupInnerLocal(inner: ByteString, r: ByteString, s: ByteString, wire: nat)
    requires var p := Skip(inner + r, wire);
             p.Got? && Suffix(r, p.rest) && |r| < |p.rest| && SkipGroup(p.rest) == Got((), r)
    ensures Skip(inner + s, wire).Got? && SkipGroup(Skip(inner + s, wire).rest) == Got((), s)
    decreases |inner|, 2
  {
    hide Skip, SkipGroup;
    var q := Skip(inner + r, wire).rest;
    Split(inner, r, q);
    var item, more := Before(inner + r, q), Before(q, r);
    SkipLocal(item, more + r, more + s, wire);
    Reassociate(item, more, s);
    SkipGroupLocal(more, r, s);
  }

  lemma GroupRest(b: ByteString)
    requires SkipGroup(b).Got?
    ensures var r := SkipGroup(b).rest;
            var q := VarintOf(b);
            && q.Got? && Suffix(r, q.rest)
            && (q.value % 8 == ENDGROUP ==> r == q.rest)
            && (q.value % 8 != ENDGROUP ==>
                  var p := Skip(q.rest, q.value % 8);
                  p.Got? && Suffix(r, p.rest) && |r| < |p.rest| && SkipGroup(p.rest) == Got((), r))
  {
    var q := VarintOf(b);
    if q.value % 8 != ENDGROUP {
      SuffixTransitive(SkipGroup(b).rest, Skip(q.rest, q.value % 8).rest, q.rest);
    }
  }
}
