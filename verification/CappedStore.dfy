/**
 * Convergence at any cap: exactly which sets of inserts and deletes leave the store in one state in
 * every order and with every duplication, also when members are evicted.
 */
module CappedStore {
  import opened Bytes
  import opened SortedSets
  import opened LwwStore

  // ----- The best scores of a set of operations -----

  ghost predicate Seeks(ops: set<Op>, insert: bool, m: ByteString) {
    exists s :: Op(insert, s, m) in ops
  }

  predicate TopOf(ops: set<Op>, insert: bool, m: ByteString, s: Score) {
    && Op(insert, s, m) in ops
    && forall o | o in ops && o.insert == insert && o.member == m :: o.score <= s
  }

  lemma {:induction false} TopExists(ops: set<Op>, insert: bool, m: ByteString)
    requires Seeks(ops, insert, m)
    ensures exists s :: TopOf(ops, insert, m, s)
    decreases ops
  {
    var s :| Op(insert, s, m) in ops;
    var rest := ops - {Op(insert, s, m)};
    if Seeks(rest, insert, m) {
      TopExists(rest, insert, m);
      var t :| TopOf(rest, insert, m, t);
      assert TopOf(ops, insert, m, if t > s then t else s);
    } else {
      forall o | o in ops && o.insert == insert && o.member == m ensures o.score <= s {
        assert o == Op(insert, o.score, m);
      }
      assert TopOf(ops, insert, m, s);
    }
  }

  /** The best score of each member among the inserts, or among the deletes. */
  ghost function Bests(ops: set<Op>, insert: bool): (z: ZSet)
    ensures forall m :: m in z <==> Seeks(ops, insert, m)
    ensures forall m | m in z :: TopOf(ops, insert, m, z[m])
  {
    var ms := Members(ops);
    assert forall m, s | Op(insert, s, m) in ops :: Op(insert, s, m).member in ms;
    map m | m in ms && Seeks(ops, insert, m) :: TopScore(ops, insert, m)
  }

  ghost function TopScore(ops: set<Op>, insert: bool, m: ByteString): (s: Score)
    requires Seeks(ops, insert, m)
    ensures TopOf(ops, insert, m, s)
  {
    TopExists(ops, insert, m);
    var s :| TopOf(ops, insert, m, s);
    s
  }

  lemma TopUnique(ops: set<Op>, insert: bool, m: ByteString, s: Score, t: Score)
    requires TopOf(ops, insert, m, s) && TopOf(ops, insert, m, t)
    ensures s == t
  {
    assert Op(insert, s, m) in ops && Op(insert, t, m) in ops;
  }

  // ----- The condition -----

  /** The entries that no higher score in the other side's top overrules. */
  function Remaining(z: ZSet, other: ZSet): ZSet {
    map m | m in z && !(m in other && other[m] > z[m]) :: z[m]
  }

  /** A member with both an insert and a delete in play is on top in one side, at the higher score. */
  predicate Decided(i: ZSet, d: ZSet, ti: ZSet, td: ZSet) {
    forall m | m in i && m in d ::
      || (m !in ti && m !in td)
      || (m in ti && i[m] > d[m])
      || (m in td && d[m] > i[m])
  }

  /** Taking the overruled entries out lets nobody new into the top. */
  predicate NoneMovesUp(k: nat, z: ZSet, other: ZSet) {
    TopK(Remaining(z, TopK(other, k)), k).Keys <= TopK(z, k).Keys
  }

  ghost predicate OrderFree(k: nat, ops: set<Op>) {
    var i, d := Bests(ops, true), Bests(ops, false);
    Decided(i, d, TopK(i, k), TopK(d, k)) && NoneMovesUp(k, i, d) && NoneMovesUp(k, d, i)
  }

  /** The state such operations end in: each side's top without the overruled. */
  ghost function Settled(k: nat, ops: set<Op>): State {
    var i, d := Bests(ops, true), Bests(ops, false);
    State(Remaining(TopK(i, k), d), Remaining(TopK(d, k), i))
  }

  // ----- The two sides are alike -----

  function Flip(op: Op): Op {
    op.(insert := !op.insert)
  }

  function FlipState(s: State): State {
    State(s.minus, s.plus)
  }

  function FlipAll(history: seq<Op>): (r: seq<Op>)
    ensures |r| == |history| && forall j | 0 <= j < |history| :: r[j] == Flip(history[j])
  {
    seq(|history|, j requires 0 <= j < |history| => Flip(history[j]))
  }

  function FlipOps(ops: set<Op>): set<Op> {
    set op | op in ops :: Flip(op)
  }

  lemma FlipApply(k: nat, s: State, op: Op)
    ensures Apply(k, FlipState(s), Flip(op)) == FlipState(Apply(k, s, op))
  {
  }

  lemma {:induction false} FlipRun(k: nat, history: seq<Op>)
    ensures Run(k, FlipAll(history)) == FlipState(Run(k, history))
  {
    if history != [] {
      var n := |history| - 1;
      FlipRun(k, history[..n]);
      assert FlipAll(history)[..n] == FlipAll(history[..n]);
      FlipApply(k, Run(k, history[..n]), history[n]);
    }
  }

  lemma FlipBack(ops: set<Op>, op: Op)
    ensures op in FlipOps(ops) <==> Flip(op) in ops
  {
    assert Flip(Flip(op)) == op;
  }

  lemma FlipHistory(history: seq<Op>)
    ensures Ops(FlipAll(history)) == FlipOps(Ops(history))
    ensures FlipAll(FlipAll(history)) == history
  {
    var h := FlipAll(history);
    forall op ensures op in Ops(h) <==> op in FlipOps(Ops(history)) {
      FlipBack(Ops(history), op);
      if op in h {
        var j :| 0 <= j < |h| && h[j] == op;
        assert Flip(op) == history[j];
      }
      if Flip(op) in history {
        var j :| 0 <= j < |history| && history[j] == Flip(op);
        assert h[j] == op;
      }
    }
  }

  lemma FlipTwice(ops: set<Op>)
    ensures FlipOps(FlipOps(ops)) == ops
  {
    forall op ensures op in FlipOps(FlipOps(ops)) <==> op in ops {
      FlipBack(FlipOps(ops), op);
      FlipBack(ops, Flip(op));
      assert Flip(Flip(op)) == op;
    }
  }

  lemma FlipBests(ops: set<Op>, insert: bool)
    ensures Bests(FlipOps(ops), insert) == Bests(ops, !insert)
  {
    var z, w := Bests(FlipOps(ops), insert), Bests(ops, !insert);
    forall m
      ensures m in z <==> m in w
      ensures m in z ==> z[m] == w[m]
    {
      forall s ensures Op(insert, s, m) in FlipOps(ops) <==> Op(!insert, s, m) in ops {
        FlipBack(ops, Op(insert, s, m));
      }
      if m in z {
        assert TopOf(ops, !insert, m, z[m]) by {
          forall o | o in ops && o.insert == !insert && o.member == m ensures o.score <= z[m] {
            assert o == Op(!insert, o.score, m);
          }
        }
        TopUnique(ops, !insert, m, z[m], w[m]);
      }
    }
  }

  lemma FlipOrderFree(k: nat, ops: set<Op>)
    ensures OrderFree(k, FlipOps(ops)) <==> OrderFree(k, ops)
    ensures Settled(k, FlipOps(ops)) == FlipState(Settled(k, ops))
  {
    FlipBests(ops, true);
    FlipBests(ops, false);
  }

  lemma FlipConfluent(k: nat, ops: set<Op>)
    requires Confluent(k, ops)
    ensures Confluent(k, FlipOps(ops))
  {
    forall h1, h2 | Ops(h1) == FlipOps(ops) && Ops(h2) == FlipOps(ops)
      ensures Run(k, h1) == Run(k, h2)
    {
      FlipHistory(h1);
      FlipHistory(h2);
      FlipTwice(ops);
      FlipRun(k, h1);
      FlipRun(k, h2);
      assert Run(k, FlipAll(h1)) == Run(k, FlipAll(h2));
    }
  }

  // ----- A member that is on top and not overruled stays -----

  /** Every score held is one that was asked for. */
  lemma {:induction false} RunRecorded(k: nat, history: seq<Op>)
    ensures forall m | m in Run(k, history).plus :: Op(true, Run(k, history).plus[m], m) in history
    ensures forall m | m in Run(k, history).minus :: Op(false, Run(k, history).minus[m], m) in history
  {
    if history != [] {
      var n := |history| - 1;
      RunRecorded(k, history[..n]);
      assert history == history[..n] + [history[n]];
    }
  }

  /** z holds no more than the best scores. */
  predicate Within(z: ZSet, best: ZSet) {
    forall m | m in z :: m in best && z[m] <= best[m]
  }

  lemma RunWithin(k: nat, ops: set<Op>, history: seq<Op>)
    requires Ops(history) <= ops
    ensures Within(Run(k, history).plus, Bests(ops, true)) && Within(Run(k, history).minus, Bests(ops, false))
  {
    RunRecorded(k, history);
    var s := Run(k, history);
    forall m | m in s.plus ensures m in Bests(ops, true) && s.plus[m] <= Bests(ops, true)[m] {
      OpWithin(ops, Op(true, s.plus[m], m));
    }
    forall m | m in s.minus ensures m in Bests(ops, false) && s.minus[m] <= Bests(ops, false)[m] {
      OpWithin(ops, Op(false, s.minus[m], m));
    }
  }

  lemma OpWithin(ops: set<Op>, op: Op)
    requires op in ops
    ensures op.member in Bests(ops, op.insert) && op.score <= Bests(ops, op.insert)[op.member]
  {
    assert op == Op(op.insert, op.score, op.member);
    assert Seeks(ops, op.insert, op.member);
    assert TopOf(ops, op.insert, op.member, Bests(ops, op.insert)[op.member]);
  }

  /** An entry at its best score, among the k best of all, is among the k best of any set within them. */
  lemma BestSurvives(k: nat, z: ZSet, best: ZSet, m: ByteString)
    requires Within(z, best) && m in z && z[m] == best[m] && m in TopK(best, k)
    ensures m in TopK(z, k)
  {
    var e := At(z, m);
    forall n | n in MembersAbove(z, e) ensures n in MembersAbove(best, e) {
      RaiseKeepsAbove(At(best, n), At(z, n), e);
    }
    SubsetSize(MembersAbove(z, e), MembersAbove(best, e));
  }

  /** Nor is it turned away at capacity. */
  lemma BestEnters(k: nat, z: ZSet, best: ZSet, m: ByteString)
    requires Within(z, best) && m in TopK(best, k) && |z| >= k
    ensures !BelowAll(z, best[m])
  {
    if BelowAll(z, best[m]) {
      forall n | n in z ensures n in MembersAbove(best, At(best, m)) {
        assert best[m] < z[n] <= best[n];
      }
      SubsetSize(z.Keys, MembersAbove(best, At(best, m)));
    }
  }

  ghost predicate Sure(k: nat, i: ZSet, d: ZSet, m: ByteString) {
    m in TopK(i, k) && (m in d ==> d[m] < i[m])
  }

  lemma SureStep(k: nat, i: ZSet, d: ZSet, s: State, op: Op, m: ByteString)
    requires Within(s.plus, i) && Within(s.minus, d) && Sure(k, i, d, m)
    requires var best := if op.insert then i else d; op.member in best && op.score <= best[op.member]
    requires op == Op(true, i[m], m) || (m in s.plus && s.plus[m] == i[m])
    ensures m in Apply(k, s, op).plus && Apply(k, s, op).plus[m] == i[m]
  {
    hide TopK;
    if op == Op(true, i[m], m) && |s.plus| >= k {
      BestEnters(k, s.plus, i, m);
    }
    if op.insert && !Rejected(k, s, op) {
      BestSurvives(k, s.plus[op.member := op.score], i, m);
    }
    TopKMap(s.plus[op.member := op.score], k);
  }

  lemma TopKMap(z: ZSet, k: nat)
    ensures forall m | m in TopK(z, k) :: m in z && TopK(z, k)[m] == z[m]
  {
  }

  lemma {:induction false} SureStays(k: nat, ops: set<Op>, history: seq<Op>, m: ByteString)
    requires Ops(history) <= ops && Sure(k, Bests(ops, true), Bests(ops, false), m)
    requires Op(true, Bests(ops, true)[m], m) in history
    ensures m in Run(k, history).plus && Run(k, history).plus[m] == Bests(ops, true)[m]
  {
    hide Bests, TopK, Apply;
    var n := |history| - 1;
    var before, op := history[..n], history[n];
    assert history == before + [op];
    assert op in Ops(history);
    assert Ops(before) <= Ops(history);
    RunWithin(k, ops, before);
    OpWithin(ops, op);
    if op != Op(true, Bests(ops, true)[m], m) {
      SureStays(k, ops, before, m);
    }
    SureStep(k, Bests(ops, true), Bests(ops, false), Run(k, before), op, m);
  }

  // ----- Order-free operations settle -----

  lemma SettledHeld(k: nat, ops: set<Op>, history: seq<Op>)
    requires OrderFree(k, ops) && Ops(history) == ops
    ensures forall m | m in Settled(k, ops).plus ::
      m in Run(k, history).plus && Run(k, history).plus[m] == Settled(k, ops).plus[m]
  {
    hide TopK, Run;
    var i, d := Bests(ops, true), Bests(ops, false);
    TopKMap(i, k);
    forall m | m in Settled(k, ops).plus
      ensures m in Run(k, history).plus && Run(k, history).plus[m] == Settled(k, ops).plus[m]
    {
      assert TopOf(ops, true, m, i[m]);
      assert Op(true, i[m], m) in Ops(history);
      SureStays(k, ops, history, m);
    }
  }

  lemma SettledBoth(k: nat, ops: set<Op>, history: seq<Op>)
    requires OrderFree(k, ops) && Ops(history) == ops
    ensures var s, t := Run(k, history), Settled(k, ops);
            && (forall m | m in t.plus :: m in s.plus && s.plus[m] == t.plus[m])
            && (forall m | m in t.minus :: m in s.minus && s.minus[m] == t.minus[m])
  {
    hide OrderFree, Settled, Run;
    SettledHeld(k, ops, history);
    FlipHistory(history);
    FlipRun(k, history);
    FlipOrderFree(k, ops);
    SettledHeld(k, FlipOps(ops), FlipAll(history));
  }

  /** The entries the others would have to make room for fill the cap. */
  lemma SettledFills(k: nat, i: ZSet, d: ZSet, n: ByteString)
    requires Decided(i, d, TopK(i, k), TopK(d, k)) && NoneMovesUp(k, i, d)
    requires n in Remaining(i, TopK(d, k)) && n !in TopK(i, k)
    ensures |TopK(Remaining(i, TopK(d, k)), k)| == k
    ensures TopK(Remaining(i, TopK(d, k)), k).Keys <= Remaining(TopK(i, k), d).Keys
  {
    var ti, td := TopK(i, k), TopK(d, k);
    var r := Remaining(i, td);
    TopKSize(r, k);
    TopKMap(r, k);
    TopKMap(d, k);
    TopKMap(i, k);
    hide TopK;
    assert n !in TopK(r, k);
    assert TopK(r, k) != r;
    forall m | m in TopK(r, k)
      ensures m in Remaining(ti, d)
    {
      assert m in r && m in ti;
    }
  }

  /** An entry settled on neither side is not in the top, but not overruled either. */
  lemma UnsettledIsLeft(k: nat, i: ZSet, d: ZSet, n: ByteString)
    requires Decided(i, d, TopK(i, k), TopK(d, k)) && n in i
    requires n !in Remaining(TopK(i, k), d) && n !in Remaining(TopK(d, k), i)
    ensures n in Remaining(i, TopK(d, k)) && n !in TopK(i, k)
  {
    TopKMap(i, k);
    TopKMap(d, k);
    hide TopK;
  }

  lemma NoOthers(k: nat, ops: set<Op>, history: seq<Op>)
    requires OrderFree(k, ops) && Ops(history) == ops
    ensures Run(k, history).plus.Keys <= Settled(k, ops).plus.Keys
  {
    var i, d := Bests(ops, true), Bests(ops, false);
    var s, t := Run(k, history), Settled(k, ops);
    SettledBoth(k, ops, history);
    RunWithin(k, ops, history);
    AlwaysDisjoint(k, history);
    hide TopK, Run, Bests, Remaining, Decided, NoneMovesUp, Above;
    forall n | n in s.plus
      ensures n in t.plus
    {
      assert n !in t.minus;
      if n !in t.plus {
        UnsettledIsLeft(k, i, d, n);
        SettledFills(k, i, d, n);
        TooMany(TopK(Remaining(i, TopK(d, k)), k).Keys, t.plus.Keys, s.plus.Keys, n);
      }
    }
  }

  lemma TooMany<T>(full: set<T>, settled: set<T>, held: set<T>, n: T)
    requires full <= settled <= held && n in held && n !in settled
    ensures |held| > |full|
  {
    SubsetSize(full + {n}, held);
  }

  /** Order-free operations end in one and the same state, however they are ordered and repeated. */
  lemma OrderFreeSettles(k: nat, history: seq<Op>)
    requires OrderFree(k, Ops(history))
    ensures Run(k, history) == Settled(k, Ops(history))
  {
    hide OrderFree, Settled, Run;
    var ops := Ops(history);
    SettledBoth(k, ops, history);
    NoOthers(k, ops, history);
    FlipHistory(history);
    FlipRun(k, history);
    FlipOrderFree(k, ops);
    NoOthers(k, FlipOps(ops), FlipAll(history));
    var s, t := Run(k, history), Settled(k, ops);
    assert s.plus.Keys == t.plus.Keys && s.minus.Keys == t.minus.Keys;
    assert s.plus == t.plus && s.minus == t.minus;
  }

  // ----- Other operations do not -----

  /** Inserts after deletes: each insert that the deletes do not overrule counts. */
  predicate Standing(td: ZSet, op: Op) {
    !(op.member in td && td[op.member] > op.score)
  }

  function Kept(td: ZSet, inserts: seq<Op>): (r: seq<Op>)
    ensures InsertOnly(inserts) ==> InsertOnly(r)
    ensures forall op :: op in r <==> op in inserts && Standing(td, op)
  {
    if inserts == [] then []
    else
      var n := |inserts| - 1;
      assert inserts == inserts[..n] + [inserts[n]];
      Kept(td, inserts[..n]) + if Standing(td, inserts[n]) then [inserts[n]] else []
  }

  /** The deletes' members that no insert has overruled yet are still held, or have a better insert. */
  predicate Overtaken(minus: ZSet, td: ZSet, z: ZSet) {
    && (forall m | m in minus :: m in td && minus[m] == td[m])
    && (forall m | m in td :: m in minus || (m in z && z[m] >= td[m]))
  }

  lemma {:induction false} InsertsAfter(k: nat, deletes: seq<Op>, inserts: seq<Op>, td: ZSet)
    requires k > 0 && InsertOnly(inserts) && Run(k, deletes) == State(map[], td)
    ensures var s, z := Run(k, deletes + inserts), Best(Kept(td, inserts));
            s.plus == TopK(z, k) && Overtaken(s.minus, td, z)
  {
    hide Best, Kept, TopK, Run, Apply;
    if inserts == [] {
      assert deletes + inserts == deletes;
      NothingAfter(k, td, inserts);
    } else {
      var n := |inserts| - 1;
      var before, op := inserts[..n], inserts[n];
      assert op in inserts && forall o | o in before :: o in inserts;
      InsertsAfter(k, deletes, before, td);
      assert deletes + inserts == (deletes + before) + [op];
      RunLast(k, deletes + before, op);
      var s, z := Run(k, deletes + before), Best(Kept(td, before));
      BestLast(Kept(td, before), op);
      KeptLast(td, inserts);
      OneInsertAfter(k, s, td, z, op);
    }
  }

  lemma NothingAfter(k: nat, td: ZSet, inserts: seq<Op>)
    requires inserts == []
    ensures TopK(Best(Kept(td, inserts)), k) == map[] && Overtaken(td, td, Best(Kept(td, inserts)))
  {
    TopKSize(map[], k);
  }

  lemma KeptLast(td: ZSet, inserts: seq<Op>)
    requires inserts != []
    ensures var n := |inserts| - 1;
            Kept(td, inserts) ==
            if Standing(td, inserts[n]) then Kept(td, inserts[..n]) + [inserts[n]] else Kept(td, inserts[..n])
  {
  }

  function Raised(z: ZSet, op: Op): ZSet {
    if op.member in z && op.score <= z[op.member] then z else z[op.member := op.score]
  }

  /** A standing insert is not stale for the deletes, and the inserts' side does as if there were none. */
  lemma MinusIdle(k: nat, s: State, td: ZSet, op: Op)
    requires op.insert && Standing(td, op) && forall m | m in s.minus :: m in td && s.minus[m] == td[m]
    ensures Rejected(k, s, op) <==> Rejected(k, State(s.plus, map[]), op)
    ensures Apply(k, s, op).plus == Apply(k, State(s.plus, map[]), op).plus
  {
    hide TopK;
  }

  lemma StandingInsert(k: nat, s: State, td: ZSet, z: ZSet, op: Op)
    requires op.insert && s.plus == TopK(z, k) && Overtaken(s.minus, td, z) && Standing(td, op)
    ensures var s', z' := Apply(k, s, op), Raised(z, op);
            s'.plus == TopK(z', k) && Overtaken(s'.minus, td, z')
  {
    hide TopK, Rejected;
    MinusIdle(k, s, td, op);
    BoundedStep(k, z, Raised(z, op), op);
    assert Apply(k, s, op).minus == s.minus || Apply(k, s, op).minus == s.minus - {op.member};
  }

  lemma OneInsertAfter(k: nat, s: State, td: ZSet, z: ZSet, op: Op)
    requires k > 0 && op.insert && s.plus == TopK(z, k) && Overtaken(s.minus, td, z)
    ensures var s', z' := Apply(k, s, op), if Standing(td, op) then Raised(z, op) else z;
            s'.plus == TopK(z', k) && Overtaken(s'.minus, td, z')
  {
    if Standing(td, op) {
      StandingInsert(k, s, td, z, op);
    } else {
      OverruledInsert(k, s, td, z, op);
    }
  }

  lemma OverruledInsert(k: nat, s: State, td: ZSet, z: ZSet, op: Op)
    requires k > 0 && op.insert && s.plus == TopK(z, k) && Overtaken(s.minus, td, z) && !Standing(td, op)
    ensures Apply(k, s, op) == s
  {
    hide TopK;
    if op.member !in s.minus {
      LowerScoreRejected(k, z, op);
      TopKMap(z, k);
    }
  }

  lemma BestsOfInserts(ops: set<Op>, history: seq<Op>)
    requires InsertOnly(history) && forall op :: op in history <==> op in ops && op.insert
    ensures Best(history) == Bests(ops, true)
  {
    var b, z := Best(history), Bests(ops, true);
    BestIsMaximum(history);
    hide Best;
    forall m
      ensures m in b <==> m in z
      ensures m in b ==> b[m] == z[m]
    {
      if m in z {
        assert TopOf(ops, true, m, z[m]);
        assert Op(true, z[m], m) in history;
      }
      if m in b {
        assert Seen(history, m, b[m]);
        assert Op(true, b[m], m) in ops;
      }
    }
  }

  lemma BestKept(ops: set<Op>, kept: seq<Op>, td: ZSet, m: ByteString)
    requires InsertOnly(kept) && forall op :: op in kept <==> op in ops && op.insert && Standing(td, op)
    ensures var b, r := Best(kept), Remaining(Bests(ops, true), td);
            (m in b <==> m in r) && (m in b ==> b[m] == r[m])
  {
    BestIsMaximum(kept);
    hide Best, Bests;
    var b, z := Best(kept), Bests(ops, true);
    if m in b {
      assert Seen(kept, m, b[m]);
      assert Op(true, b[m], m) in ops;
      assert Seeks(ops, true, m);
    }
    if m in z {
      assert TopOf(ops, true, m, z[m]);
      assert Op(true, z[m], m) in ops;
      if Standing(td, Op(true, z[m], m)) {
        assert Op(true, z[m], m) in kept;
      }
    }
  }

  lemma BestsKept(ops: set<Op>, inserts: seq<Op>, td: ZSet)
    requires InsertOnly(inserts) && forall op :: op in inserts <==> op in ops && op.insert
    ensures Best(Kept(td, inserts)) == Remaining(Bests(ops, true), td)
  {
    var b, r := Best(Kept(td, inserts)), Remaining(Bests(ops, true), td);
    hide Best, Kept, Remaining, Bests;
    forall m
      ensures m in b <==> m in r
      ensures m in b ==> b[m] == r[m]
    {
      BestKept(ops, Kept(td, inserts), td, m);
    }
  }

  /** All inserts of the operations, each once. */
  lemma InsertsOf(ops: set<Op>) returns (inserts: seq<Op>)
    ensures InsertOnly(inserts) && forall op :: op in inserts <==> op in ops && op.insert
  {
    inserts := Enumerate(set op | op in ops && op.insert);
    assert forall op :: op in inserts <==> op in Ops(inserts);
  }

  /** Deletes first and then inserts: "+" ends with the top of what the deletes' top does not overrule. */
  lemma DeletesThenInserts(k: nat, ops: set<Op>) returns (history: seq<Op>)
    requires k > 0
    ensures Ops(history) == ops
    ensures Run(k, history).plus == TopK(Remaining(Bests(ops, true), TopK(Bests(ops, false), k)), k)
  {
    hide Bests, TopK, Run, Best, Kept, Remaining;
    var inserts := InsertsOf(ops);
    var others := InsertsOf(FlipOps(ops));
    var deletes := FlipAll(others);
    BestsOfInserts(FlipOps(ops), others);
    BoundedStoreKeepsTop(k, others);
    FlipBests(ops, true);
    FlipRun(k, others);
    var td := TopK(Bests(ops, false), k);
    assert Run(k, deletes) == State(map[], td);
    InsertsAfter(k, deletes, inserts, td);
    BestsKept(ops, inserts, td);
    history := deletes + inserts;
    FlipHistory(others);
    forall op ensures op in Ops(history) <==> op in ops {
      FlipBack(Ops(others), op);
      FlipBack(ops, Flip(op));
      assert op in deletes <==> op in Ops(deletes);
      assert Flip(op) in others <==> Flip(op) in Ops(others);
      assert Flip(Flip(op)) == op;
    }
  }

  /** Inserts first and then deletes: nothing gets into "+" any more. */
  lemma InsertsThenDeletes(k: nat, ops: set<Op>) returns (history: seq<Op>)
    ensures Ops(history) == ops
    ensures Run(k, history).plus.Keys <= TopK(Bests(ops, true), k).Keys
  {
    hide Bests, TopK, Run, Best;
    var inserts := InsertsOf(ops);
    var deletes := Enumerate(set op | op in ops && !op.insert);
    history := inserts + deletes;
    BestsOfInserts(ops, inserts);
    BoundedStoreKeepsTop(k, inserts);
    assert forall op :: op in deletes <==> op in Ops(deletes);
    assert forall op :: op in Ops(history) <==> op in ops;
    DeletesOnlyRemove(k, inserts, deletes);
  }

  lemma DeleteOnlyRemoves(k: nat, s: State, op: Op)
    requires !op.insert
    ensures Apply(k, s, op).plus.Keys <= s.plus.Keys
  {
  }

  lemma {:induction false} DeletesOnlyRemove(k: nat, before: seq<Op>, deletes: seq<Op>)
    requires forall op | op in deletes :: !op.insert
    ensures Run(k, before + deletes).plus.Keys <= Run(k, before).plus.Keys
  {
    hide Run, Apply;
    if deletes == [] {
      assert before + deletes == before;
    } else {
      var n := |deletes| - 1;
      assert deletes[n] in deletes && forall op | op in deletes[..n] :: op in deletes;
      DeletesOnlyRemove(k, before, deletes[..n]);
      assert before + deletes == (before + deletes[..n]) + [deletes[n]];
      RunLast(k, before + deletes[..n], deletes[n]);
      DeleteOnlyRemoves(k, Run(k, before + deletes[..n]), deletes[n]);
    }
  }

  /** A member's own operations first, its best delete last: "+" ends without the member. */
  lemma MemberFirst(k: nat, ops: set<Op>, m: ByteString) returns (history: seq<Op>)
    requires k > 0 && m in Bests(ops, true) && m in Bests(ops, false)
    requires Bests(ops, false)[m] >= Bests(ops, true)[m]
    ensures Ops(history) == ops && m !in Run(k, history).plus
  {
    var d := Op(false, Bests(ops, false)[m], m);
    var own := set op | op in ops && op.member == m;
    assert TopOf(ops, false, m, d.score) && d in own;
    forall o | o in own ensures o.score <= d.score { OpWithin(ops, o); }
    hide Bests, Run;
    forall x | x in Members(own) ensures x == m { }
    SubsetSize(Members(own), {m});
    var first := Enumerate(own);
    first := LastTopWins(k, own, first, d);
    AlwaysDisjoint(k, first);
    var others := Enumerate(ops - own);
    history := first + others;
    assert forall op :: (op in first <==> op in Ops(first)) && (op in others <==> op in Ops(others));
    assert forall op :: op in Ops(history) <==> op in ops;
    OthersKeepOut(k, first, others, m);
  }

  lemma OtherKeepsOut(k: nat, s: State, op: Op, m: ByteString)
    requires m !in s.plus && op.member != m
    ensures m !in Apply(k, s, op).plus
  {
    TopKMap(s.plus[op.member := op.score], k);
    hide TopK;
  }

  lemma {:induction false} OthersKeepOut(k: nat, before: seq<Op>, others: seq<Op>, m: ByteString)
    requires m !in Run(k, before).plus && forall op | op in others :: op.member != m
    ensures m !in Run(k, before + others).plus
  {
    hide Run, Apply;
    if others == [] {
      assert before + others == before;
    } else {
      var n := |others| - 1;
      assert others[n] in others && forall op | op in others[..n] :: op in others;
      OthersKeepOut(k, before, others[..n], m);
      assert before + others == (before + others[..n]) + [others[n]];
      RunLast(k, before + others[..n], others[n]);
      OtherKeepsOut(k, Run(k, before + others[..n]), others[n], m);
    }
  }

  lemma ConfluentMovesNobodyUp(k: nat, ops: set<Op>)
    requires k > 0 && Confluent(k, ops)
    ensures NoneMovesUp(k, Bests(ops, true), Bests(ops, false))
  {
    hide Bests, TopK, Run, Remaining;
    var h1 := DeletesThenInserts(k, ops);
    var h2 := InsertsThenDeletes(k, ops);
    assert Run(k, h1) == Run(k, h2);
  }

  /** A top insert that a delete matches or beats, without overruling it, is there in one order only. */
  lemma UndecidedDiffers(k: nat, ops: set<Op>, m: ByteString)
    requires k > 0
    requires var i, d := Bests(ops, true), Bests(ops, false);
             m in d && m in TopK(i, k) && d[m] >= i[m] && !(m in TopK(d, k) && d[m] > i[m])
    ensures !Confluent(k, ops)
  {
    var i, d := Bests(ops, true), Bests(ops, false);
    TopKMap(i, k);
    TopKMap(d, k);
    var r := Remaining(i, TopK(d, k));
    hide TopK, Bests, Run;
    assert m in r && r[m] == i[m];
    BestSurvives(k, r, i, m);
    var h1 := DeletesThenInserts(k, ops);
    var h2 := MemberFirst(k, ops, m);
    assert Run(k, h1) != Run(k, h2);
  }

  lemma ConfluentIsOrderFree(k: nat, ops: set<Op>)
    requires k > 0 && Confluent(k, ops)
    ensures OrderFree(k, ops)
  {
    var i, d := Bests(ops, true), Bests(ops, false);
    ConfluentMovesNobodyUp(k, ops);
    FlipConfluent(k, ops);
    FlipBests(ops, true);
    FlipBests(ops, false);
    ConfluentMovesNobodyUp(k, FlipOps(ops));
    hide Bests, TopK, Confluent, NoneMovesUp;
    forall m | m in i && m in d
      ensures (m !in TopK(i, k) && m !in TopK(d, k)) || (m in TopK(i, k) && i[m] > d[m]) || (m in TopK(d, k) && d[m] > i[m])
    {
      if m in TopK(i, k) && d[m] >= i[m] && !(m in TopK(d, k) && d[m] > i[m]) {
        UndecidedDiffers(k, ops, m);
      } else if m in TopK(d, k) && i[m] >= d[m] && !(m in TopK(i, k) && i[m] > d[m]) {
        UndecidedDiffers(k, FlipOps(ops), m);
      }
    }
  }

  lemma {:induction false} NothingHeld(history: seq<Op>)
    ensures Run(0, history) == EMPTY
  {
    if history != [] {
      NothingHeld(history[..|history| - 1]);
      var op := history[|history| - 1];
      TopKSize(EMPTY.plus[op.member := op.score], 0);
      TopKSize(EMPTY.minus[op.member := op.score], 0);
    }
  }

  /**
   * At every cap: a set of operations leads to one state in every order and with every duplication
   * exactly when it is order-free, or nothing can be held at all.
   */
  lemma ConvergesIffOrderFree(k: nat, ops: set<Op>)
    ensures Confluent(k, ops) <==> k == 0 || OrderFree(k, ops)
  {
    hide OrderFree, Run;
    if k == 0 {
      forall h1, h2 | Ops(h1) == ops && Ops(h2) == ops ensures Run(k, h1) == Run(k, h2) {
        NothingHeld(h1);
        NothingHeld(h2);
      }
    } else if OrderFree(k, ops) {
      forall h1, h2 | Ops(h1) == ops && Ops(h2) == ops ensures Run(k, h1) == Run(k, h2) {
        OrderFreeSettles(k, h1);
        OrderFreeSettles(k, h2);
      }
    }
    if k > 0 && Confluent(k, ops) {
      ConfluentIsOrderFree(k, ops);
    }
  }

  /** Where the cap does not bind the condition is that no member has a tie at the top. */
  lemma OrderFreeBelowCap(k: nat, ops: set<Op>)
    requires k > 0 && |Members(ops)| <= k
    ensures OrderFree(k, ops) <==> !TopTie(ops)
  {
    ConvergesIffOrderFree(k, ops);
    ConvergesIffNoTopTie(k, ops);
  }
}
