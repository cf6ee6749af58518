/**
 * Redis sorted sets: a finite map from member to score, ordered by (score, member).
 *
 * A score is an integer: the position of a double in the order of the non-NaN doubles,
 * with 0 standing for zero. Redis compares scores and never adds them.
 */
module SortedSets {
  import opened Bytes

  type Score = int
  type ZSet = map<ByteString, Score>

  datatype Entry = Entry(score: Score, member: ByteString)

  /** x comes strictly before y in descending (score, member) order. */
  predicate Above(x: Entry, y: Entry) {
    x.score > y.score || (x.score == y.score && LexLess(y.member, x.member))
  }

  function At(z: ZSet, m: ByteString): Entry
    requires m in z
  {
    Entry(z[m], m)
  }

  predicate Holds(z: ZSet, e: Entry) {
    e.member in z && z[e.member] == e.score
  }

  lemma AboveOrder(x: Entry, y: Entry)
    ensures !Above(x, x)
    ensures Above(x, y) ==> !Above(y, x)
    ensures Above(x, y) || x == y || Above(y, x)
  {
    LexTotal(x.member, y.member);
    if LexLess(x.member, y.member) { LexAsymmetric(x.member, y.member); }
    if LexLess(y.member, x.member) { LexAsymmetric(y.member, x.member); }
    if LexLess(x.member, x.member) { LexAsymmetric(x.member, x.member); }
  }

  lemma AboveTransitive(x: Entry, y: Entry, w: Entry)
    requires Above(x, y) && Above(y, w)
    ensures Above(x, w)
  {
    if x.score == y.score == w.score {
      LexTransitive(w.member, y.member, x.member);
    }
  }

  /** The higher score ranks above; at equal scores the higher byte where the members first differ, or the longer member. */
  lemma AboveIs(s: Score, t: Score, common: ByteString, a: ByteString, b: ByteString)
    ensures s != t ==> (Above(Entry(s, a), Entry(t, b)) <==> s > t)
    ensures a != [] ==> Above(Entry(s, common + a), Entry(s, common)) && !Above(Entry(s, common), Entry(s, common + a))
    ensures a != [] && b != [] && a[0] != b[0] ==>
      (Above(Entry(s, common + a), Entry(s, common + b)) <==> a[0] > b[0])
  {
    LexAtFirstDifference(common, b, a);
  }

  /** The members of z that rank strictly above e. */
  function MembersAbove(z: ZSet, e: Entry): set<ByteString> {
    set m | m in z && Above(At(z, m), e)
  }

  /** The k highest entries: those with fewer than k entries above them. */
  function TopK(z: ZSet, k: nat): ZSet {
    map m | m in z && |MembersAbove(z, At(z, m))| < k :: z[m]
  }

  predicate IsBottom(z: ZSet, b: ByteString) {
    b in z && forall m | m in z && m != b :: Above(At(z, m), At(z, b))
  }

  lemma BottomExists(z: ZSet) returns (b: ByteString)
    requires z != map[]
    ensures IsBottom(z, b)
    decreases |z|
  {
    var c :| c in z;
    var rest := z - {c};
    if rest == map[] {
      b := c;
      assert z.Keys == {c} + rest.Keys;
    } else {
      RemoveOne(z, c);
      var d := BottomExists(rest);
      AboveOrder(At(z, c), At(z, d));
      b := if Above(At(z, c), At(z, d)) then d else c;
      forall m | m in z && m != b ensures Above(At(z, m), At(z, b)) {
        if m != c && m != d {
          assert m in rest;
          if b == c { AboveTransitive(At(z, m), At(z, d), At(z, c)); }
        }
      }
    }
  }

  /** Removing the lowest entry leaves everyone else's rank from the top unchanged. */
  lemma DropBottom(z: ZSet, b: ByteString, k: nat)
    requires IsBottom(z, b)
    ensures forall m | m in z && m != b :: MembersAbove(z, At(z, m)) == MembersAbove(z - {b}, At(z, m))
    ensures MembersAbove(z, At(z, b)) == z.Keys - {b}
    ensures TopK(z, k) == if |z| <= k then TopK(z - {b}, k)[b := z[b]] else TopK(z - {b}, k)
  {
    var r := z - {b};
    AboveOrder(At(z, b), At(z, b));
    forall m | m in z && m != b
      ensures MembersAbove(z, At(z, m)) == MembersAbove(r, At(z, m))
    {
      AboveOrder(At(z, b), At(z, m));
      assert forall n | n in z :: n in r || n == b;
    }
    assert |MembersAbove(z, At(z, b))| == |z| - 1 by {
      assert MembersAbove(z, At(z, b)) == z.Keys - {b};
    }
    assert forall m | m in r :: r[m] == z[m] && At(r, m) == At(z, m);
  }

  /** Exactly min(k, |z|) entries survive. */
  lemma {:induction false} TopKSize(z: ZSet, k: nat)
    ensures |TopK(z, k)| == if |z| <= k then |z| else k
    ensures |z| <= k ==> TopK(z, k) == z
    decreases |z|
  {
    if z != map[] {
      var b := BottomExists(z);
      var r := z - {b};
      RemoveOne(z, b);
      TopKSize(r, k);
      DropBottom(z, b, k);
      if |z| <= k {
        assert TopK(z, k).Keys == r.Keys + {b};
        assert TopK(z, k) == z;
      }
    }
  }

  /** Whatever ranks above a kept entry is kept, and kept entries rank above dropped ones. */
  lemma TopKUpward(z: ZSet, k: nat, m: ByteString, n: ByteString)
    requires m in TopK(z, k) && n in z
    ensures Above(At(z, n), At(z, m)) ==> n in TopK(z, k)
    ensures n !in TopK(z, k) ==> Above(At(z, m), At(z, n))
  {
    if Above(At(z, n), At(z, m)) {
      var a, b := MembersAbove(z, At(z, n)), MembersAbove(z, At(z, m));
      forall x | x in a ensures x in b { AboveTransitive(At(z, x), At(z, n), At(z, m)); }
      SubsetSize(a, b);
    }
    AboveOrder(At(z, m), At(z, n));
  }

  lemma SubsetSize<T>(a: set<T>, b: set<T>)
    requires a <= b
    ensures |a| <= |b|
    ensures |a| == |b| ==> a == b
  {
    assert b == a + (b - a);
    assert |b| == |a| + |b - a|;
  }

  /**
   * Trimming only looks at the top: a set that has z's top k at their scores, and nothing above
   * z's scores elsewhere, trims to the same set.
   */
  lemma TopKOfPart(part: ZSet, z: ZSet, k: nat)
    requires forall m | m in part :: m in z && part[m] <= z[m]
    requires forall m | m in TopK(z, k) :: m in part && part[m] == z[m]
    ensures TopK(part, k) == TopK(z, k)
  {
    TopKSize(z, k);
    forall m | m in part
      ensures m in TopK(part, k) <==> m in TopK(z, k)
    {
      var above := MembersAbove(part, At(part, m));
      if m in TopK(z, k) {
        forall n | n in above ensures n in MembersAbove(z, At(z, m)) {
          RaiseKeepsAbove(At(z, n), At(part, n), At(part, m));
        }
        SubsetSize(above, MembersAbove(z, At(z, m)));
      } else {
        forall n | n in TopK(z, k) ensures n in above {
          TopKUpward(z, k, n, m);
          if part[m] < z[m] { RaiseKeepsAbove(At(part, n), At(part, n), At(z, m)); }
        }
        SubsetSize(TopK(z, k).Keys, above);
      }
    }
    assert TopK(part, k).Keys == TopK(z, k).Keys;
  }

  lemma RaiseKeepsAbove(high: Entry, low: Entry, y: Entry)
    requires high.member == low.member && low.score <= high.score && Above(low, y)
    ensures Above(high, y)
  {
  }

  /** All entries in descending order, as ZREVRANGE 0 -1 lists them. */
  function Listing(z: ZSet): (s: seq<Entry>)
    ensures |s| == |z|
    decreases |z|
  {
    if z == map[] then [] else
      BottomMember(z);
      var b :| b in z && IsBottom(z, b);
      RemoveOne(z, b);
      Listing(z - {b}) + [At(z, b)]
  }

  lemma RemoveOne(z: ZSet, b: ByteString)
    requires b in z
    ensures |z - {b}| == |z| - 1
  {
    assert z.Keys == (z - {b}).Keys + {b};
  }

  lemma BottomMember(z: ZSet)
    requires z != map[]
    ensures exists b :: b in z && IsBottom(z, b)
    ensures forall b, c | b in z && c in z && IsBottom(z, b) && IsBottom(z, c) :: b == c
  {
    var bottom := BottomExists(z);
    forall b, c | b in z && c in z && IsBottom(z, b) && IsBottom(z, c) ensures b == c {
      AboveOrder(At(z, b), At(z, c));
    }
  }

  predicate Descending(s: seq<Entry>) {
    forall i, j | 0 <= i < j < |s| :: Above(s[i], s[j])
  }

  /** The listing is strictly descending, holds exactly z's entries, and starts with the top k. */
  lemma {:induction false} ListingCorrect(z: ZSet)
    ensures Descending(Listing(z))
    ensures forall e :: e in Listing(z) <==> Holds(z, e)
    decreases |z|
  {
    if z != map[] {
      var b := ListingUnfolds(z);
      ListingCorrect(z - {b});
      forall e ensures e in Listing(z) <==> Holds(z, e) {
        assert e in Listing(z) <==> e in Listing(z - {b}) || e == At(z, b);
      }
      var s := Listing(z);
      forall i, j | 0 <= i < j < |s| ensures Above(s[i], s[j]) {
        if j == |s| - 1 {
          assert s[i] in Listing(z - {b});
          assert Holds(z - {b}, s[i]);
        }
      }
    }
  }

  lemma ListingUnfolds(z: ZSet) returns (b: ByteString)
    requires z != map[]
    ensures IsBottom(z, b) && |z - {b}| == |z| - 1
    ensures Listing(z) == Listing(z - {b}) + [At(z, b)]
  {
    BottomMember(z);
    b :| b in z && IsBottom(z, b) && Listing(z) == Listing(z - {b}) + [At(z, b)];
    RemoveOne(z, b);
  }

  lemma {:induction false} ListingTopK(z: ZSet, k: nat)
    ensures Listing(TopK(z, k)) == Listing(z)[..if |z| <= k then |z| else k]
    decreases |z|
  {
    if |z| <= k {
      TopKSize(z, k);
      assert Listing(z)[..|z|] == Listing(z);
    } else {
      ListingTopKDrop(z, k);
    }
  }

  lemma {:induction false} ListingTopKDrop(z: ZSet, k: nat)
    requires k < |z|
    ensures Listing(TopK(z, k)) == Listing(z)[..k]
    decreases |z|, 0
  {
    var b := ListingUnfolds(z);
    var r := z - {b};
    DropBottom(z, b, k);
    if |r| == k {
      TopKSize(r, k);
    } else {
      ListingTopKDrop(r, k);
    }
    PrefixOfAppend(Listing(r), At(z, b), k);
  }

  lemma PrefixOfAppend<T>(s: seq<T>, x: T, k: nat)
    requires k <= |s|
    ensures (s + [x])[..k] == s[..k]
    ensures k == |s| ==> s[..k] == s
  {
  }

  /** Two strictly descending sequences with the same elements are equal. */
  lemma {:induction false} DescendingUnique(s: seq<Entry>, t: seq<Entry>)
    requires Descending(s) && Descending(t)
    requires forall e :: e in s <==> e in t
    ensures s == t
  {
    var first := if t == [] then Entry(0, []) else t[0];
    assert first in s <==> first in t;
    if s != [] {
      assert s[0] in t;
      assert t[0] in s;
      var i :| 0 <= i < |t| && t[i] == s[0];
      var j :| 0 <= j < |s| && s[j] == t[0];
      AboveOrder(s[0], t[0]);
      assert s[0] == t[0];
      forall e ensures e in s[1..] <==> e in t[1..] {
        AboveOrder(s[0], s[0]);
        if e in s[1..] { assert e != s[0]; assert e in t; }
        if e in t[1..] { assert e != t[0]; assert e in s; }
      }
      DescendingUnique(s[1..], t[1..]);
      assert s == [s[0]] + s[1..] && t == [t[0]] + t[1..];
    }
  }
}
