/** Byte strings and the byte-wise (memcmp) order that Go strings and Redis members share. */
module Bytes {
  newtype byte = x: int | 0 <= x < 0x100

  type ByteString = seq<byte>

  predicate LexLess(a: ByteString, b: ByteString) {
    if a == [] then b != []
    else b != [] && (a[0] < b[0] || (a[0] == b[0] && LexLess(a[1..], b[1..])))
  }

  /** A strict order: nothing precedes itself, and two strings never precede each other. */
  lemma LexAsymmetric(a: ByteString, b: ByteString)
    requires LexLess(a, b)
    ensures !LexLess(b, a) && a != b
  {
    if a != [] && a[0] == b[0] {
      LexAsymmetric(a[1..], b[1..]);
    }
  }

  lemma LexTransitive(a: ByteString, b: ByteString, c: ByteString)
    requires LexLess(a, b) && LexLess(b, c)
    ensures LexLess(a, c)
  {
    if a != [] && a[0] == b[0] == c[0] {
      LexTransitive(a[1..], b[1..], c[1..]);
    }
  }

  lemma LexTotal(a: ByteString, b: ByteString)
    ensures LexLess(a, b) || a == b || LexLess(b, a)
  {
    if a != [] && b != [] && a[0] == b[0] {
      LexTotal(a[1..], b[1..]);
      assert a == [a[0]] + a[1..] && b == [b[0]] + b[1..];
    }
  }

  /** The order is decided at the first byte in which the strings differ; a proper prefix comes before the longer string. */
  lemma {:induction false} LexAtFirstDifference(common: ByteString, a: ByteString, b: ByteString)
    ensures b != [] ==> LexLess(common, common + b) && !LexLess(common + b, common)
    ensures a != [] && b != [] && a[0] != b[0] ==> (LexLess(common + a, common + b) <==> a[0] < b[0])
    ensures !LexLess(common, common)
  {
    if common == [] {
      assert common + a == a && common + b == b;
    } else {
      var c := common[1..];
      assert (common + a)[1..] == c + a && (common + b)[1..] == c + b;
      LexAtFirstDifference(c, a, b);
    }
  }
}
