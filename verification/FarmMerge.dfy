/**
 * The farm's merge of per-cluster answers: union and difference of tuple sets, the score-ordered
 * cut, and why merging each cluster's own top entries gives the scores of the overall top.
 */
module FarmMerge {
  import opened Bytes
  import opened SortedSets

  type Key = ByteString

  datatype KeyMember = KeyMember(key: Key, member: ByteString)

  datatype KeyScoreMember = KeyScoreMember(key: Key, score: Score, member: ByteString) {
    function KM(): KeyMember { KeyMember(key, member) }
  }

  type TupleSet = set<KeyScoreMember>

  // ----- Union and difference -----

  /** Every tuple of every set. */
  function Flatten(sets: seq<TupleSet>): TupleSet {
    if sets == [] then {} else Flatten(sets[..|sets| - 1]) + sets[|sets| - 1]
  }

  /** t has the best score of its key-member among all. */
  predicate BestTuple(all: TupleSet, t: KeyScoreMember) {
    t in all && forall u | u in all && u.KM() == t.KM() :: u.score <= t.score
  }

  /** In how many of the sets t occurs. */
  function Count(sets: seq<TupleSet>, t: KeyScoreMember): (n: nat)
    ensures n <= |sets|
  {
    if sets == [] then 0
    else Count(sets[..|sets| - 1], t) + (if t in sets[|sets| - 1] then 1 else 0)
  }

  /** Union: each key-member at its best score. */
  function UnionOf(sets: seq<TupleSet>): TupleSet {
    set t | t in Flatten(sets) && BestTuple(Flatten(sets), t)
  }

  /** Difference: the key-members of the tuples that some set lacks. */
  function DifferenceOf(sets: seq<TupleSet>): set<KeyMember> {
    set t | t in Flatten(sets) && Missed(sets, t) :: t.KM()
  }

  predicate Missed(sets: seq<TupleSet>, t: KeyScoreMember) {
    exists i | 0 <= i < |sets| :: t !in sets[i]
  }

  lemma {:induction false} FlattenHolds(sets: seq<TupleSet>, t: KeyScoreMember)
    ensures t in Flatten(sets) <==> exists i | 0 <= i < |sets| :: t in sets[i]
    ensures Count(sets, t) < |sets| <==> Missed(sets, t)
  {
    if sets != [] {
      var rest, last := sets[..|sets| - 1], |sets| - 1;
      FlattenHolds(rest, t);
      if i :| 0 <= i < |rest| && t in rest[i] { assert t in sets[i]; }
      if i :| 0 <= i < |rest| && t !in rest[i] { assert t !in sets[i]; }
      assert forall i | 0 <= i < |sets| && i != last :: sets[i] == rest[i];
    }
  }

  ghost predicate BestScores(all: TupleSet, scores: map<KeyMember, Score>) {
    && (forall t | t in all :: t.KM() in scores && t.score <= scores[t.KM()])
    && (forall km | km in scores :: KeyScoreMember(km.key, scores[km], km.member) in all)
  }

  function CountOf(counts: map<KeyScoreMember, nat>, t: KeyScoreMember): nat {
    if t in counts then counts[t] else 0
  }

  /** Count one tuple in: raise its key-member's best score, bump its count. */
  method AddTuple(tuple: KeyScoreMember, scores: map<KeyMember, Score>, counts: map<KeyScoreMember, nat>,
                  ghost seen: TupleSet)
    returns (scores': map<KeyMember, Score>, counts': map<KeyScoreMember, nat>)
    requires BestScores(seen, scores) && counts.Keys == seen
    ensures BestScores(seen + {tuple}, scores') && counts'.Keys == seen + {tuple}
    ensures forall t :: CountOf(counts', t) == CountOf(counts, t) + (if t == tuple then 1 else 0)
  {
    scores', counts' := scores, counts;
    var keyMember := tuple.KM();
    if keyMember !in scores || tuple.score > scores[keyMember] {
      scores' := scores[keyMember := tuple.score];
    }
    counts' := counts[tuple := CountOf(counts, tuple) + 1];
  }

  method AddSet(s: TupleSet, scores: map<KeyMember, Score>, counts: map<KeyScoreMember, nat>, ghost seen: TupleSet)
    returns (scores': map<KeyMember, Score>, counts': map<KeyScoreMember, nat>)
    requires BestScores(seen, scores) && counts.Keys == seen
    ensures BestScores(seen + s, scores') && counts'.Keys == seen + s
    ensures forall t :: CountOf(counts', t) == CountOf(counts, t) + (if t in s then 1 else 0)
  {
    hide CountOf;
    scores', counts' := scores, counts;
    var left := s;
    ghost var done: TupleSet := {};
    while left != {}
      invariant done !! left && done + left == s
      invariant BestScores(seen + done, scores') && counts'.Keys == seen + done
      invariant forall t :: CountOf(counts', t) == CountOf(counts, t) + (if t in done then 1 else 0)
    {
      var tuple :| tuple in left;
      scores', counts' := AddTuple(tuple, scores', counts', seen + done);
      assert seen + done + {tuple} == seen + (done + {tuple});
      left, done := left - {tuple}, done + {tuple};
    }
    assert done == s;
  }

  method UnionDifference(tupleSets: seq<TupleSet>) returns (union: TupleSet, difference: set<KeyMember>)
    ensures union == UnionOf(tupleSets) && difference == DifferenceOf(tupleSets)
  {
    var scores: map<KeyMember, Score>, counts: map<KeyScoreMember, nat> := map[], map[];
    for i := 0 to |tupleSets|
      invariant BestScores(Flatten(tupleSets[..i]), scores) && counts.Keys == Flatten(tupleSets[..i])
      invariant forall t :: CountOf(counts, t) == Count(tupleSets[..i], t)
    {
      assert tupleSets[..i + 1][..i] == tupleSets[..i];
      scores, counts := AddSet(tupleSets[i], scores, counts, Flatten(tupleSets[..i]));
    }
    assert tupleSets[..|tupleSets|] == tupleSets;
    union := set km | km in scores :: KeyScoreMember(km.key, scores[km], km.member);
    difference := set t | t in counts && counts[t] < |tupleSets| :: t.KM();
    UnionIsBest(Flatten(tupleSets), scores, union);
    forall t | t in Flatten(tupleSets) ensures counts[t] < |tupleSets| <==> Missed(tupleSets, t) {
      FlattenHolds(tupleSets, t);
      assert CountOf(counts, t) == counts[t];
    }
  }

  lemma UnionIsBest(all: TupleSet, scores: map<KeyMember, Score>, union: TupleSet)
    requires BestScores(all, scores)
    requires union == set km | km in scores :: KeyScoreMember(km.key, scores[km], km.member)
    ensures union == set t | t in all && BestTuple(all, t)
  {
    forall t ensures t in union <==> BestTuple(all, t) {
      if BestTuple(all, t) {
        assert t.KM() in scores;
        assert KeyScoreMember(t.key, scores[t.KM()], t.member).KM() == t.KM();
      }
    }
  }

  /** No read repair is asked for exactly when all answering clusters returned the same set. */
  lemma NoDifferenceIffEqual(sets: seq<TupleSet>)
    ensures DifferenceOf(sets) == {} <==> forall i, j | 0 <= i < |sets| && 0 <= j < |sets| :: sets[i] == sets[j]
  {
    if DifferenceOf(sets) == {} {
      forall i, j | 0 <= i < |sets| && 0 <= j < |sets| ensures sets[i] <= sets[j] {
        forall t | t in sets[i] ensures t in sets[j] {
          FlattenHolds(sets, t);
          assert t.KM() !in DifferenceOf(sets);
        }
      }
    } else {
      var km :| km in DifferenceOf(sets);
      var t :| t in Flatten(sets) && Missed(sets, t) && t.KM() == km;
      FlattenHolds(sets, t);
    }
  }

  /** A key-member is to be repaired exactly if some set holds it at a score at which another one does not. */
  lemma DifferenceIs(sets: seq<TupleSet>, km: KeyMember)
    ensures km in DifferenceOf(sets) <==> exists score :: Disagree(sets, KeyScoreMember(km.key, score, km.member))
  {
    if km in DifferenceOf(sets) {
      var t :| t in Flatten(sets) && Missed(sets, t) && t.KM() == km;
      FlattenHolds(sets, t);
      assert t == KeyScoreMember(km.key, t.score, km.member);
    }
    if score :| Disagree(sets, KeyScoreMember(km.key, score, km.member)) {
      FlattenHolds(sets, KeyScoreMember(km.key, score, km.member));
    }
  }

  predicate Disagree(sets: seq<TupleSet>, t: KeyScoreMember) {
    (exists i | 0 <= i < |sets| :: t in sets[i]) && exists i | 0 <= i < |sets| :: t !in sets[i]
  }

  /** The union is the tuples that some set holds and whose key-member no set holds at a higher score. */
  lemma UnionIs(sets: seq<TupleSet>, t: KeyScoreMember)
    ensures t in UnionOf(sets) <==>
      && (exists i | 0 <= i < |sets| :: t in sets[i])
      && forall i, u | 0 <= i < |sets| && u in sets[i] && u.key == t.key && u.member == t.member :: u.score <= t.score
  {
    FlattenHolds(sets, t);
    forall u ensures u in Flatten(sets) <==> exists i | 0 <= i < |sets| :: u in sets[i] {
      FlattenHolds(sets, u);
    }
  }

  // ----- The score-ordered cut -----

  ghost predicate ScoreOrdered(a: seq<KeyScoreMember>) {
    forall i, j | 0 <= i < j < |a| :: a[i].score >= a[j].score
  }

  ghost predicate Distinct(a: seq<KeyScoreMember>) {
    forall i, j | 0 <= i < j < |a| :: a[i] != a[j]
  }

  /** a lists |a| different tuples of s, best scores first, and leaves out none that scores higher. */
  ghost predicate TopSelection(s: TupleSet, a: seq<KeyScoreMember>) {
    && Distinct(a) && ScoreOrdered(a)
    && (forall i | 0 <= i < |a| :: a[i] in s)
    && (forall t, i | t in s && t !in a && 0 <= i < |a| :: t.score <= a[i].score)
  }

  /**
   * Sort by score and cut. The sort sees the tuples in no particular order and compares scores
   * only, so tuples with equal scores come in any order.
   */
  method OrderedLimitedSlice(s: TupleSet, limit: nat) returns (a: seq<KeyScoreMember>)
    ensures TopSelection(s, a)
    ensures |a| == if |s| <= limit then |s| else limit
  {
    a := [];
    var left := s;
    while left != {} && |a| < limit
      invariant left <= s && |a| + |left| == |s| && |a| <= limit
      invariant forall t :: t in s <==> t in left || t in a
      invariant forall t | t in a :: t !in left
      invariant Distinct(a) && ScoreOrdered(a)
      invariant forall t, i | t in left && 0 <= i < |a| :: t.score <= a[i].score
    {
      HighestTuple(left);
      var t :| t in left && forall u | u in left :: u.score <= t.score;
      a := a + [t];
      left := left - {t};
    }
    assert forall i | 0 <= i < |a| :: a[i] in a;
  }

  lemma HighestTuple(s: TupleSet)
    requires s != {}
    ensures exists t :: t in s && forall u | u in s :: u.score <= t.score
  {
    var t :| t in s;
    var rest := s - {t};
    if rest == {} {
      assert s == {t};
    } else {
      HighestTuple(rest);
      var h :| h in rest && forall u | u in rest :: u.score <= h.score;
      var best := if h.score < t.score then t else h;
      assert best in s && forall u | u in s :: u in rest || u == t;
    }
  }

  /** However ties were broken, two selections of the same size have the same scores in the same order. */
  lemma SelectionScores(s: TupleSet, a: seq<KeyScoreMember>, b: seq<KeyScoreMember>)
    requires TopSelection(s, a) && TopSelection(s, b) && |a| == |b|
    ensures forall i | 0 <= i < |a| :: a[i].score == b[i].score
  {
    forall i | 0 <= i < |a| ensures a[i].score == b[i].score {
      NotHigher(s, a, b, i);
      NotHigher(s, b, a, i);
    }
  }

  /** If a's i-th score beat b's, a's first i + 1 tuples would all be among b's first i. */
  lemma NotHigher(s: TupleSet, a: seq<KeyScoreMember>, b: seq<KeyScoreMember>, i: nat)
    requires TopSelection(s, a) && TopSelection(s, b) && i < |a| == |b|
    ensures a[i].score <= b[i].score
  {
    if a[i].score > b[i].score {
      PrefixSize(a, i + 1);
      PrefixSize(b, i);
      PrefixAmong(s, a, b, i);
      SubsetSize(Prefix(a, i + 1), Prefix(b, i));
    }
  }

  lemma PrefixAmong(s: TupleSet, a: seq<KeyScoreMember>, b: seq<KeyScoreMember>, i: nat)
    requires TopSelection(s, a) && TopSelection(s, b) && i < |a| == |b|
    requires a[i].score > b[i].score
    ensures Prefix(a, i + 1) <= Prefix(b, i)
  {
    forall t | t in Prefix(a, i + 1) ensures t in Prefix(b, i) {
      var j :| 0 <= j < i + 1 && t == a[j];
      assert t in s && t.score > b[i].score;
      assert t in b;
    }
  }

  function Prefix(a: seq<KeyScoreMember>, n: nat): TupleSet
    requires n <= |a|
  {
    set j | 0 <= j < n :: a[j]
  }

  lemma {:induction false} PrefixSize(a: seq<KeyScoreMember>, n: nat)
    requires Distinct(a) && n <= |a|
    ensures |Prefix(a, n)| == n
  {
    if n > 0 {
      PrefixSize(a, n - 1);
      var rest := Prefix(a, n - 1);
      assert a[n - 1] !in rest;
      assert Prefix(a, n) == rest + {a[n - 1]};
    }
  }

  // ----- Distributed top-k -----

  /** The tuples a cluster returns for a key, given its sorted set. */
  function Tuples(key: Key, z: ZSet): TupleSet {
    set m | m in z :: KeyScoreMember(key, z[m], m)
  }

  /** The per-member maximum over the clusters' sets. */
  function Merge(zs: seq<ZSet>): ZSet {
    if zs == [] then map[] else MergeTwo(Merge(zs[..|zs| - 1]), zs[|zs| - 1])
  }

  function MergeTwo(x: ZSet, y: ZSet): ZSet {
    map m | m in x.Keys + y.Keys ::
      if m !in x || (m in y && x[m] < y[m]) then y[m] else x[m]
  }

  /** Some cluster holds the member at this score. */
  predicate HeldAt(zs: seq<ZSet>, m: ByteString, score: Score) {
    exists i | 0 <= i < |zs| :: Holds(zs[i], Entry(score, m))
  }

  lemma {:induction false} MergeIsMaximum(zs: seq<ZSet>, m: ByteString)
    ensures m in Merge(zs) ==> HeldAt(zs, m, Merge(zs)[m])
    ensures forall score | HeldAt(zs, m, score) :: m in Merge(zs) && score <= Merge(zs)[m]
  {
    if zs != [] {
      var rest, last := zs[..|zs| - 1], |zs| - 1;
      MergeIsMaximum(rest, m);
      forall score ensures HeldAt(zs, m, score) <==> HeldAt(rest, m, score) || Holds(zs[last], Entry(score, m)) {
        if i :| 0 <= i < |rest| && Holds(rest[i], Entry(score, m)) { assert Holds(zs[i], Entry(score, m)); }
        if i :| 0 <= i < |zs| && Holds(zs[i], Entry(score, m)) { assert i < last ==> rest[i] == zs[i]; }
      }
    }
  }

  /** Each cluster's own top k. */
  function Tops(zs: seq<ZSet>, k: nat): (tops: seq<ZSet>)
    ensures |tops| == |zs| && forall i | 0 <= i < |zs| :: tops[i] == TopK(zs[i], k)
  {
    seq(|zs|, i requires 0 <= i < |zs| => TopK(zs[i], k))
  }

  /** An entry in the overall top k is in the top k of the cluster it comes from. */
  lemma TopOfSome(zs: seq<ZSet>, k: nat, i: nat, m: ByteString)
    requires i < |zs| && m in TopK(Merge(zs), k) && Holds(zs[i], At(Merge(zs), m))
    ensures m in TopK(zs[i], k)
  {
    var z := Merge(zs);
    var e := At(z, m);
    forall n | n in MembersAbove(zs[i], e) ensures n in MembersAbove(z, e) {
      MergeIsMaximum(zs, n);
      assert Holds(zs[i], At(zs[i], n)) && HeldAt(zs, n, zs[i][n]);
      RaiseKeepsAbove(At(z, n), At(zs[i], n), e);
    }
    SubsetSize(MembersAbove(zs[i], e), MembersAbove(z, e));
  }

  lemma TopsBelowMerge(zs: seq<ZSet>, k: nat, m: ByteString)
    requires m in Merge(Tops(zs, k))
    ensures m in Merge(zs) && Merge(Tops(zs, k))[m] <= Merge(zs)[m]
  {
    var tops := Tops(zs, k);
    var score := Merge(tops)[m];
    MergeIsMaximum(tops, m);
    var i :| 0 <= i < |tops| && Holds(tops[i], Entry(score, m));
    assert Holds(zs[i], Entry(score, m)) && HeldAt(zs, m, score);
    MergeIsMaximum(zs, m);
  }

  lemma TopsKeepTop(zs: seq<ZSet>, k: nat, m: ByteString)
    requires m in TopK(Merge(zs), k)
    ensures m in Merge(Tops(zs, k)) && Merge(Tops(zs, k))[m] == Merge(zs)[m]
  {
    var tops := Tops(zs, k);
    var score := Merge(zs)[m];
    MergeIsMaximum(zs, m);
    var i :| 0 <= i < |zs| && Holds(zs[i], Entry(score, m));
    TopOfSome(zs, k, i, m);
    assert Holds(tops[i], Entry(score, m)) && HeldAt(tops, m, score);
    MergeIsMaximum(tops, m);
    TopsBelowMerge(zs, k, m);
  }

  /** Merging each cluster's top k and cutting to k is the top k of the merged full sets. */
  lemma MergedTops(zs: seq<ZSet>, k: nat)
    ensures TopK(Merge(Tops(zs, k)), k) == TopK(Merge(zs), k)
  {
    var part, z := Merge(Tops(zs, k)), Merge(zs);
    forall m | m in part ensures m in z && part[m] <= z[m] { TopsBelowMerge(zs, k, m); }
    forall m | m in TopK(z, k) ensures m in part && part[m] == z[m] { TopsKeepTop(zs, k, m); }
    TopKOfPart(part, z, k);
  }

  // ----- The read -----

  /** ZREVRANGE start stop: positions from the top; negative ones count from the bottom. */
  function RevRange(z: ZSet, start: int, stop: int): seq<Entry> {
    var from := if start >= 0 then start else if start + |z| < 0 then 0 else start + |z|;
    var to := if stop < 0 then stop + |z| else if stop >= |z| then |z| - 1 else stop;
    if from > to || from >= |z| then [] else Listing(z)[from..to + 1]
  }

  /** What pipelineRange asks one key for. */
  function SelectOffset(z: ZSet, offset: int, limit: nat): seq<Entry> {
    RevRange(z, offset, offset + limit - 1)
  }

  /** The window a caller means by offset and limit. */
  function Window(z: ZSet, offset: nat, limit: nat): seq<Entry> {
    var from := if offset < |z| then offset else |z|;
    var to := if offset + limit < |z| then offset + limit else |z|;
    Listing(z)[from..to]
  }

  /** Limit 0 at offset 0 asks ZREVRANGE for 0 -1, which is everything; otherwise the window is read. */
  lemma OffsetReadExact(z: ZSet, offset: nat, limit: nat)
    ensures SelectOffset(z, offset, limit) == Window(z, offset, limit) <==> limit > 0 || offset > 0 || z == map[]
  {
  }

  /** Position by position: the i-th entry read has exactly offset + i entries above it. */
  lemma OffsetReadRanks(z: ZSet, offset: nat, limit: nat, i: nat)
    requires limit > 0 && i < |SelectOffset(z, offset, limit)|
    ensures i < limit && offset + i < |z|
    ensures Holds(z, SelectOffset(z, offset, limit)[i])
    ensures |MembersAbove(z, SelectOffset(z, offset, limit)[i])| == offset + i
  {
    var s := Listing(z);
    ListingCorrect(z);
    assert SelectOffset(z, offset, limit)[i] == s[offset + i];
    assert s[offset + i] in s;
    ListingRank(z, offset + i);
  }

  /** And as many are read as there are from the offset on, up to the limit. */
  lemma OffsetReadSize(z: ZSet, offset: nat, limit: nat)
    requires limit > 0
    ensures |SelectOffset(z, offset, limit)| ==
      if offset >= |z| then 0 else if |z| - offset < limit then |z| - offset else limit
  {
  }

  /** The position in the listing is the number of entries above. */
  lemma ListingRank(z: ZSet, j: nat)
    requires j < |z|
    ensures |MembersAbove(z, Listing(z)[j])| == j
  {
    var s := Listing(z);
    ListingCorrect(z);
    hide Listing, MembersAbove;
    forall m ensures m in (set i | 0 <= i < j :: s[i].member) <==> m in MembersAbove(z, s[j]) {
      AboveInListing(z, j, m);
    }
    assert MembersAbove(z, s[j]) == set i | 0 <= i < j :: s[i].member;
    forall i, k | 0 <= i < k < |s| ensures s[i].member != s[k].member {
      MembersApart(z, i, k);
    }
    DistinctMembers(s, j);
  }

  lemma MembersApart(z: ZSet, i: nat, k: nat)
    requires i < k < |z|
    ensures Listing(z)[i].member != Listing(z)[k].member
  {
    ListingCorrect(z);
    var s := Listing(z);
    hide Listing;
    assert s[i] in s && s[k] in s && Above(s[i], s[k]);
    AboveOrder(s[i], s[k]);
  }

  lemma LaterNotAbove(s: seq<Entry>, j: nat, i: nat)
    requires Descending(s) && j < |s| && i < |s|
    ensures j <= i ==> !Above(s[i], s[j])
  {
    AboveOrder(s[i], s[j]);
    if j < i {
      assert Above(s[j], s[i]);
    }
  }

  lemma AboveInListing(z: ZSet, j: nat, m: ByteString)
    requires j < |z|
    ensures m in MembersAbove(z, Listing(z)[j]) <==> exists i :: 0 <= i < j && Listing(z)[i].member == m
  {
    var s := Listing(z);
    ListingCorrect(z);
    hide Listing;
    if m in MembersAbove(z, s[j]) {
      assert At(z, m) in s;
      var i :| 0 <= i < |s| && s[i] == At(z, m);
      LaterNotAbove(s, j, i);
    }
    if i :| 0 <= i < j && s[i].member == m {
      assert s[i] in s && Above(s[i], s[j]);
    }
  }

  lemma {:induction false} DistinctMembers(s: seq<Entry>, j: nat)
    requires j <= |s| && forall i, k | 0 <= i < k < |s| :: s[i].member != s[k].member
    ensures |set i | 0 <= i < j :: s[i].member| == j
  {
    if j > 0 {
      DistinctMembers(s, j - 1);
      var before := set i | 0 <= i < j - 1 :: s[i].member;
      assert (set i | 0 <= i < j :: s[i].member) == before + {s[j - 1].member};
    }
  }

  /** A negative offset counts from the lowest entry, and stops at the highest. */
  lemma NegativeOffset(z: ZSet, start: int, stop: nat)
    requires start < 0
    ensures RevRange(z, start, stop) ==
      RevRange(z, if -start <= |z| then |z| + start else 0, stop)
  {
  }

  /** A cluster's answer to offset 0 and limit k is the tuples of its top k. */
  lemma OffsetReadIsTop(z: ZSet, k: nat)
    requires k > 0
    ensures SelectOffset(z, 0, k) == Listing(TopK(z, k))
  {
    ListingTopK(z, k);
    assert Listing(z)[0..|z|] == Listing(z);
  }

  datatype Element = Element(key: Key, tuples: TupleSet, error: bool)

  /** The answers for one key, in order of arrival; error elements are left out. */
  function Answers(elements: seq<Element>, key: Key): seq<TupleSet> {
    if elements == [] then []
    else
      var e := elements[|elements| - 1];
      Answers(elements[..|elements| - 1], key) + (if e.key == key && !e.error then [e.tuples] else [])
  }

  function AnswersIn(responses: map<Key, seq<TupleSet>>, key: Key): seq<TupleSet> {
    if key in responses then responses[key] else []
  }

  lemma AnswersStep(elements: seq<Element>, i: nat, key: Key)
    requires i < |elements|
    ensures Answers(elements[..i + 1], key) == Answers(elements[..i], key)
      + (if elements[i].key == key && !elements[i].error then [elements[i].tuples] else [])
  {
    assert elements[..i + 1][..i] == elements[..i];
  }

  ghost predicate Gathered(elements: seq<Element>, responses: map<Key, seq<TupleSet>>) {
    forall key :: AnswersIn(responses, key) == Answers(elements, key)
      && (key in responses <==> Answers(elements, key) != [])
  }

  /** Gather every element that arrives, grouped by key. */
  method Gather(elements: seq<Element>) returns (responses: map<Key, seq<TupleSet>>)
    ensures Gathered(elements, responses)
  {
    responses := map[];
    for i := 0 to |elements|
      invariant Gathered(elements[..i], responses)
    {
      var e := elements[i];
      ghost var before := responses;
      if !e.error {
        responses := responses[e.key := AnswersIn(responses, e.key) + [e.tuples]];
      }
      forall key
        ensures AnswersIn(responses, key) == Answers(elements[..i + 1], key)
        ensures key in responses <==> Answers(elements[..i + 1], key) != []
      {
        AnswersStep(elements, i, key);
        assert AnswersIn(before, key) == Answers(elements[..i], key);
      }
    }
    assert elements[..|elements|] == elements;
  }

  /** What the read returns for one key: its answers' union, best scores first, cut to the limit. */
  ghost predicate KeyResult(sets: seq<TupleSet>, limit: nat, a: seq<KeyScoreMember>) {
    TopSelection(UnionOf(sets), a) && |a| == if |UnionOf(sets)| <= limit then |UnionOf(sets)| else limit
  }

  /** sendAllReadAll: merge every key's answers, cut them, and collect what needs repair. */
  method SendAllReadAll(elements: seq<Element>, limit: nat)
    returns (response: map<Key, seq<KeyScoreMember>>, repairs: set<KeyMember>)
    ensures forall key :: key in response <==> Answers(elements, key) != []
    ensures forall key | key in response :: KeyResult(Answers(elements, key), limit, response[key])
    ensures forall key | key in response :: DifferenceOf(Answers(elements, key)) <= repairs
    ensures forall km | km in repairs :: exists key | key in response :: km in DifferenceOf(Answers(elements, key))
  {
    var responses := Gather(elements);
    response, repairs := map[], {};
    var left := responses.Keys;
    while left != {}
      invariant response.Keys == responses.Keys - left && left <= responses.Keys
      invariant forall key | key in response :: KeyResult(responses[key], limit, response[key])
      invariant forall key | key in response :: DifferenceOf(responses[key]) <= repairs
      invariant forall km | km in repairs :: exists key | key in response :: km in DifferenceOf(responses[key])
    {
      var key :| key in left;
      var union, difference := UnionDifference(responses[key]);
      var a := OrderedLimitedSlice(union, limit);
      response := response[key := a];
      repairs := repairs + difference;
      left := left - {key};
    }
    forall key | key in response ensures responses[key] == Answers(elements, key) {
      assert AnswersIn(responses, key) == Answers(elements, key);
    }
  }

  /** The answers are those of all clusters: each cluster's own top entries for the key. */
  ghost predicate AllAnswered(sets: seq<TupleSet>, key: Key, zs: seq<ZSet>, limit: nat) {
    && (forall i | 0 <= i < |zs| :: Tuples(key, TopK(zs[i], limit)) in sets)
    && (forall j | 0 <= j < |sets| :: exists i | 0 <= i < |zs| :: sets[j] == Tuples(key, TopK(zs[i], limit)))
  }

  lemma AnsweredTuples(sets: seq<TupleSet>, key: Key, zs: seq<ZSet>, limit: nat, t: KeyScoreMember)
    requires AllAnswered(sets, key, zs, limit)
    ensures t in Flatten(sets) <==> t.key == key && HeldAt(Tops(zs, limit), t.member, t.score)
  {
    FlattenHolds(sets, t);
    var tops := Tops(zs, limit);
    if t.key == key && HeldAt(tops, t.member, t.score) {
      var i :| 0 <= i < |tops| && Holds(tops[i], Entry(t.score, t.member));
      assert t in Tuples(key, tops[i]) && Tuples(key, TopK(zs[i], limit)) in sets;
    }
    if j :| 0 <= j < |sets| && t in sets[j] {
      var i :| 0 <= i < |zs| && sets[j] == Tuples(key, TopK(zs[i], limit));
      assert Holds(tops[i], Entry(t.score, t.member));
    }
  }

  lemma BestIsMerged(all: TupleSet, key: Key, tops: seq<ZSet>, t: KeyScoreMember)
    requires forall u :: u in all <==> u.key == key && HeldAt(tops, u.member, u.score)
    ensures BestTuple(all, t) <==> t.key == key && Holds(Merge(tops), Entry(t.score, t.member))
  {
    MergeIsMaximum(tops, t.member);
    if BestTuple(all, t) {
      var best := KeyScoreMember(key, Merge(tops)[t.member], t.member);
      assert best in all && best.KM() == t.KM();
    }
  }

  lemma UnionIsMergedTops(sets: seq<TupleSet>, key: Key, zs: seq<ZSet>, limit: nat)
    requires AllAnswered(sets, key, zs, limit)
    ensures UnionOf(sets) == Tuples(key, Merge(Tops(zs, limit)))
  {
    var tops := Tops(zs, limit);
    forall t ensures t in Flatten(sets) <==> t.key == key && HeldAt(tops, t.member, t.score) {
      AnsweredTuples(sets, key, zs, limit, t);
    }
    forall t ensures t in UnionOf(sets) <==> t in Tuples(key, Merge(tops)) {
      BestIsMerged(Flatten(sets), key, tops, t);
    }
  }

  function WithKey(key: Key, s: seq<Entry>): (a: seq<KeyScoreMember>)
    ensures |a| == |s| && forall i | 0 <= i < |s| :: a[i] == KeyScoreMember(key, s[i].score, s[i].member)
  {
    seq(|s|, i requires 0 <= i < |s| => KeyScoreMember(key, s[i].score, s[i].member))
  }

  /** Any prefix of the listing is a top selection of the whole set's tuples. */
  lemma ListingSelects(key: Key, z: ZSet, n: nat)
    requires n <= |z|
    ensures TopSelection(Tuples(key, z), WithKey(key, Listing(z)[..n]))
  {
    var s := Listing(z);
    var a := WithKey(key, s[..n]);
    ListingCorrect(z);
    forall i, j | 0 <= i < j < |a| ensures a[i] != a[j] && a[i].score >= a[j].score {
      assert Above(s[i], s[j]);
      AboveOrder(s[i], s[j]);
    }
    forall i | 0 <= i < |a| ensures a[i] in Tuples(key, z) {
      assert s[i] in s;
      assert Holds(z, s[i]);
    }
    forall t, i | t in Tuples(key, z) && t !in a && 0 <= i < |a| ensures t.score <= a[i].score {
      var e := Entry(t.score, t.member);
      assert e in s;
      var j :| 0 <= j < |s| && s[j] == e;
      assert a[if j < n then j else i] in a;
      assert Above(s[i], s[j]);
    }
  }

  lemma TuplesSize(key: Key, z: ZSet)
    ensures |Tuples(key, z)| == |z|
    decreases |z|
  {
    if z != map[] {
      var m :| m in z;
      RemoveOne(z, m);
      TuplesSize(key, z - {m});
      var rest, t := Tuples(key, z - {m}), KeyScoreMember(key, z[m], m);
      assert t !in rest;
      forall u ensures u in Tuples(key, z) <==> u in rest + {t} {
        if u in Tuples(key, z) && u.member != m { assert u.member in z - {m}; }
      }
      assert Tuples(key, z) == rest + {t};
    }
  }

  /**
   * Distributed top-k: when all clusters answer, the read returns the score sequence of the top
   * limit of the per-member maximum over the full sets, although each cluster sent only its own top.
   */
  lemma DistributedTopK(sets: seq<TupleSet>, key: Key, zs: seq<ZSet>, limit: nat, a: seq<KeyScoreMember>)
    requires AllAnswered(sets, key, zs, limit) && KeyResult(sets, limit, a)
    ensures |a| == if |Merge(zs)| <= limit then |Merge(zs)| else limit
    ensures forall i | 0 <= i < |a| :: a[i].score == Listing(Merge(zs))[i].score
  {
    hide Merge, Tops, TopK, AllAnswered, Tuples, Listing, TopSelection, UnionOf;
    var part, z := Merge(Tops(zs, limit)), Merge(zs);
    UnionIsMergedTops(sets, key, zs, limit);
    TuplesSize(key, part);
    SameTopListing(part, z, limit) by { MergedTops(zs, limit); }
    var n := |a|;
    ListingSelects(key, part, n);
    SelectionScores(Tuples(key, part), a, WithKey(key, Listing(part)[..n]));
    assert forall i | 0 <= i < n :: Listing(part)[..n][i] == Listing(z)[..n][i];
  }

  lemma SameTopListing(x: ZSet, y: ZSet, k: nat)
    requires TopK(x, k) == TopK(y, k)
    ensures (if |x| <= k then |x| else k) == (if |y| <= k then |y| else k)
    ensures Listing(x)[..if |x| <= k then |x| else k] == Listing(y)[..if |y| <= k then |y| else k]
  {
    TopKSize(x, k);
    TopKSize(y, k);
    ListingTopK(x, k);
    ListingTopK(y, k);
  }

  /** And the read asks for no repair of the key exactly when all clusters hold the same top. */
  lemma RepairIffTopsDiffer(sets: seq<TupleSet>, key: Key, zs: seq<ZSet>, limit: nat)
    requires AllAnswered(sets, key, zs, limit)
    ensures DifferenceOf(sets) == {} <==>
      forall i, j | 0 <= i < |zs| && 0 <= j < |zs| :: TopK(zs[i], limit) == TopK(zs[j], limit)
  {
    NoDifferenceIffEqual(sets);
    forall x: ZSet, y: ZSet | Tuples(key, x) == Tuples(key, y) ensures x == y {
      TuplesInjective(key, x, y);
    }
    if DifferenceOf(sets) == {} {
      forall i, j | 0 <= i < |zs| && 0 <= j < |zs| ensures TopK(zs[i], limit) == TopK(zs[j], limit) {
        assert Tuples(key, TopK(zs[i], limit)) in sets && Tuples(key, TopK(zs[j], limit)) in sets;
      }
    }
  }

  lemma TuplesInjective(key: Key, x: ZSet, y: ZSet)
    requires Tuples(key, x) == Tuples(key, y)
    ensures x == y
  {
    forall m | m in x ensures m in y && y[m] == x[m] { assert KeyScoreMember(key, x[m], m) in Tuples(key, y); }
    forall m | m in y ensures m in x { assert KeyScoreMember(key, y[m], m) in Tuples(key, x); }
  }
}
