/**
 * One key of the store: the "+" and "-" sorted sets that the insert and delete scripts update,
 * and what a history of scripts leaves in them.
 */
module LwwStore {
  import opened Bytes
  import opened SortedSets

  datatype State = State(plus: ZSet, minus: ZSet)

  /** One script invocation: an insert or a delete of a member at a score. */
  datatype Op = Op(insert: bool, score: Score, member: ByteString)

  datatype Presence = Absent | Present(inserted: bool, score: Score)

  const EMPTY := State(map[], map[])

  /** The set the script adds to at capacity: is the score below every score in it? */
  predicate BelowAll(z: ZSet, score: Score) {
    z != map[] && forall m | m in z :: score < z[m]
  }

  predicate Rejected(maxSize: nat, s: State, op: Op) {
    var add := if op.insert then s.plus else s.minus;
    || (|add| >= maxSize && BelowAll(add, op.score))
    || (op.member in s.plus && op.score < s.plus[op.member])
    || (op.member in s.minus && op.score < s.minus[op.member])
  }

  /** The effect of one script on the two sets. */
  function Apply(maxSize: nat, s: State, op: Op): State {
    if Rejected(maxSize, s, op) then s
    else if op.insert then
      State(TopK(s.plus[op.member := op.score], maxSize), s.minus - {op.member})
    else
      State(s.plus - {op.member}, TopK(s.minus[op.member := op.score], maxSize))
  }

  function Run(maxSize: nat, history: seq<Op>): State {
    if history == [] then EMPTY
    else Apply(maxSize, Run(maxSize, history[..|history| - 1]), history[|history| - 1])
  }

  /** The key's two sorted sets, updated in place by the scripts. */
  class KeyStore {
    const maxSize: nat
    var plus: ZSet
    var minus: ZSet

    constructor (maxSize: nat)
      ensures this.maxSize == maxSize && plus == map[] && minus == map[]
    {
      this.maxSize := maxSize;
      plus, minus := map[], map[];
    }

    ghost function Contents(): State
      reads this
    {
      State(plus, minus)
    }

    /**
     * The script body shared by insert (adds to "+", removes from "-") and delete (the reverse).
     * n is the script's return value: -1 when rejected, else the number of members newly added.
     */
    method Script(add: ZSet, rem: ZSet, score: Score, member: ByteString)
      returns (n: int, add': ZSet, rem': ZSet)
      ensures var capacity := |add| >= maxSize && BelowAll(add, score);
              var stale := || (member in plus && score < plus[member])
                           || (member in minus && score < minus[member]);
              if capacity || stale then n == -1 && add' == add && rem' == rem
              else && n == (if member in add then 0 else 1)
                   && add' == TopK(add[member := score], maxSize)
                   && rem' == rem - {member}
    {
      n, add', rem' := -1, add, rem;
      if |add| >= maxSize {
        if add != map[] {
          LowestScore(add);
          var oldest :| oldest in add && forall m | m in add :: add[oldest] <= add[m];
          if score < add[oldest] {
            return;
          }
        }
      }
      if member in plus && score < plus[member] {
        return;
      } else if member in minus && score < minus[member] {
        return;
      }
      rem' := rem - {member};
      n := if member in add then 0 else 1;
      add' := add[member := score];
      add' := TopK(add', maxSize);
    }

    method Insert(score: Score, member: ByteString) returns (n: int)
      modifies this
      ensures Contents() == Apply(maxSize, old(Contents()), Op(true, score, member))
      ensures n == -1 <==> Rejected(maxSize, old(Contents()), Op(true, score, member))
      ensures n == 1 ==> member !in old(plus)
      ensures n == 0 ==> member in old(plus)
      ensures n in {-1, 0, 1}
    {
      n, plus, minus := Script(plus, minus, score, member);
    }

    method Delete(score: Score, member: ByteString) returns (n: int)
      modifies this
      ensures Contents() == Apply(maxSize, old(Contents()), Op(false, score, member))
      ensures n == -1 <==> Rejected(maxSize, old(Contents()), Op(false, score, member))
      ensures n == 1 ==> member !in old(minus)
      ensures n == 0 ==> member in old(minus)
      ensures n in {-1, 0, 1}
    {
      n, minus, plus := Script(minus, plus, score, member);
    }
  }

  lemma LowestScore(z: ZSet)
    requires z != map[]
    ensures exists low :: low in z && forall m | m in z :: z[low] <= z[m]
  {
    var b := BottomExists(z);
    assert forall m | m in z && m != b :: Above(At(z, m), At(z, b));
  }

  // ----- Every reachable state -----

  ghost predicate Disjoint(s: State) {
    s.plus.Keys !! s.minus.Keys
  }

  /** Whatever ran, in whatever order and at whatever cap, no member is in both sets. */
  lemma {:induction false} AlwaysDisjoint(maxSize: nat, history: seq<Op>)
    ensures Disjoint(Run(maxSize, history))
    ensures |Run(maxSize, history).plus| <= maxSize && |Run(maxSize, history).minus| <= maxSize
  {
    if history != [] {
      var before, op := history[..|history| - 1], history[|history| - 1];
      AlwaysDisjoint(maxSize, before);
      var s := Run(maxSize, before);
      TopKSize(s.plus[op.member := op.score], maxSize);
      TopKSize(s.minus[op.member := op.score], maxSize);
      SubsetSize((s.plus - {op.member}).Keys, s.plus.Keys);
      SubsetSize((s.minus - {op.member}).Keys, s.minus.Keys);
    }
  }

  /** The two ZSCORE replies for a member, classified as pipelineScore does; None is its error case. */
  datatype ScoreReply = Reply(presence: Presence) | BadState

  function ReadScore(s: State, m: ByteString): ScoreReply {
    if m in s.plus && m !in s.minus then Reply(Present(true, s.plus[m]))
    else if m !in s.plus && m in s.minus then Reply(Present(false, s.minus[m]))
    else if m !in s.plus && m !in s.minus then Reply(Absent)
    else BadState
  }

  /** A score read of one reachable state never reports a bad state. */
  lemma ScoreReadNeverBad(maxSize: nat, history: seq<Op>, m: ByteString)
    ensures ReadScore(Run(maxSize, history), m).Reply?
  {
    AlwaysDisjoint(maxSize, history);
  }

  // ----- Last-writer-wins convergence -----

  function Ops(history: seq<Op>): set<Op> {
    set op | op in history
  }

  function Members(ops: set<Op>): set<ByteString> {
    set op | op in ops :: op.member
  }

  /** op has the top score among the operations on its member. */
  predicate Wins(ops: set<Op>, op: Op) {
    op in ops && forall o | o in ops && o.member == op.member :: o.score <= op.score
  }

  /** Some member's top score is shared by an insert and a delete. */
  ghost predicate TopTie(ops: set<Op>) {
    exists op | op in ops :: op.insert && Wins(ops, op) && Wins(ops, op.(insert := false))
  }

  ghost predicate HoldsWinners(ops: set<Op>, s: State) {
    && Disjoint(s)
    && (forall op | op in ops :: op.member in s.plus || op.member in s.minus)
    && (forall m | m in s.plus :: Wins(ops, Op(true, s.plus[m], m)))
    && (forall m | m in s.minus :: Wins(ops, Op(false, s.minus[m], m)))
  }

  predicate Stale(s: State, op: Op) {
    || (op.member in s.plus && op.score < s.plus[op.member])
    || (op.member in s.minus && op.score < s.minus[op.member])
  }

  function Accept(s: State, op: Op): State {
    if op.insert then State(s.plus[op.member := op.score], s.minus - {op.member})
    else State(s.plus - {op.member}, s.minus[op.member := op.score])
  }

  /** With no more members than the cap, trimming and the capacity check never matter. */
  lemma ApplyBelowCap(maxSize: nat, s: State, op: Op, members: set<ByteString>)
    requires s.plus.Keys <= members && s.minus.Keys <= members && op.member in members
    requires |members| <= maxSize
    ensures Apply(maxSize, s, op) == if Stale(s, op) then s else Accept(s, op)
  {
    var add := if op.insert then s.plus else s.minus;
    SubsetSize(add.Keys, members);
    var grown := add[op.member := op.score];
    SubsetSize(grown.Keys, members);
    TopKSize(grown, maxSize);
  }

  /** While the cap does not bind, every member sits at its top score, in the set of a top operation. */
  lemma {:induction false} RunHoldsWinners(maxSize: nat, history: seq<Op>)
    requires |Members(Ops(history))| <= maxSize
    ensures HoldsWinners(Ops(history), Run(maxSize, history))
  {
    if history != [] {
      var before, op := history[..|history| - 1], history[|history| - 1];
      var ops, ops' := Ops(before), Ops(history);
      assert history == before + [op];
      assert ops' == ops + {op};
      SubsetSize(Members(ops), Members(ops'));
      RunHoldsWinners(maxSize, before);
      StepHoldsWinners(maxSize, ops, Run(maxSize, before), op);
    }
  }

  lemma WinnersAreMembers(ops: set<Op>, s: State)
    requires HoldsWinners(ops, s)
    ensures s.plus.Keys <= Members(ops) && s.minus.Keys <= Members(ops)
  {
    forall m | m in s.plus ensures m in Members(ops) { assert Op(true, s.plus[m], m).member == m; }
    forall m | m in s.minus ensures m in Members(ops) { assert Op(false, s.minus[m], m).member == m; }
  }

  lemma StepHoldsWinners(maxSize: nat, ops: set<Op>, s: State, op: Op)
    requires |Members(ops + {op})| <= maxSize
    requires HoldsWinners(ops, s)
    ensures HoldsWinners(ops + {op}, Apply(maxSize, s, op))
  {
    WinnersAreMembers(ops, s);
    assert Members(ops) <= Members(ops + {op});
    ApplyBelowCap(maxSize, s, op, Members(ops + {op}));
    if Stale(s, op) {
      StaleHoldsWinners(ops, s, op);
    } else {
      AcceptHoldsWinners(ops, s, op);
    }
  }

  lemma StaleHoldsWinners(ops: set<Op>, s: State, op: Op)
    requires HoldsWinners(ops, s) && Stale(s, op)
    ensures HoldsWinners(ops + {op}, s)
  {
    forall m | m in s.plus ensures Wins(ops + {op}, Op(true, s.plus[m], m)) {
      assert Wins(ops, Op(true, s.plus[m], m));
    }
    forall m | m in s.minus ensures Wins(ops + {op}, Op(false, s.minus[m], m)) {
      assert Wins(ops, Op(false, s.minus[m], m));
    }
  }

  lemma AcceptHoldsWinners(ops: set<Op>, s: State, op: Op)
    requires HoldsWinners(ops, s) && !Stale(s, op)
    ensures HoldsWinners(ops + {op}, Accept(s, op))
  {
    var s' := Accept(s, op);
    assert Wins(ops + {op}, op) by {
      forall o | o in ops && o.member == op.member ensures o.score <= op.score {
        if o.member in s.plus {
          assert Wins(ops, Op(true, s.plus[o.member], o.member));
        } else {
          assert Wins(ops, Op(false, s.minus[o.member], o.member));
        }
      }
    }
    forall m | m in s'.plus ensures Wins(ops + {op}, Op(true, s'.plus[m], m)) {
      if m != op.member { assert Wins(ops, Op(true, s.plus[m], m)); }
    }
    forall m | m in s'.minus ensures Wins(ops + {op}, Op(false, s'.minus[m], m)) {
      if m != op.member { assert Wins(ops, Op(false, s.minus[m], m)); }
    }
  }

  // ----- What a score read tells -----

  /** Over histories, while the cap leaves room: the read of a member gives a top operation on it, and absent if there was none. */
  lemma ScoreReadTells(maxSize: nat, history: seq<Op>, m: ByteString)
    requires |Members(Ops(history))| <= maxSize
    ensures var r := ReadScore(Run(maxSize, history), m);
            && r.Reply?
            && (r.presence.Absent? <==> m !in Members(Ops(history)))
            && (r.presence.Present? ==> Wins(Ops(history), Op(r.presence.inserted, r.presence.score, m)))
  {
    RunHoldsWinners(maxSize, history);
    WinnersAreMembers(Ops(history), Run(maxSize, history));
    hide Run;
  }

  /** Fewer than maxSize members of the set the script adds to rank above the written one. */
  predicate HasPlace(maxSize: nat, s: State, op: Op) {
    var add := if op.insert then s.plus else s.minus;
    |MembersAbove(add - {op.member}, Entry(op.score, op.member))| < maxSize
  }

  lemma PlaceInGrown(add: ZSet, m: ByteString, score: Score)
    ensures var grown := add[m := score];
            MembersAbove(grown, At(grown, m)) == MembersAbove(add - {m}, Entry(score, m))
  {
    AboveOrder(Entry(score, m), Entry(score, m));
  }

  lemma RejectedHasNoPlace(maxSize: nat, s: State, op: Op)
    requires !Stale(s, op)
    requires var add := if op.insert then s.plus else s.minus;
             |add| >= maxSize && BelowAll(add, op.score)
    ensures !HasPlace(maxSize, s, op)
  {
    var add := if op.insert then s.plus else s.minus;
    assert op.member !in add;
    assert add - {op.member} == add;
    assert MembersAbove(add, Entry(op.score, op.member)) == add.Keys;
  }

  lemma ReadAfterApply(maxSize: nat, s: State, op: Op)
    requires Disjoint(s)
    ensures ReadScore(Apply(maxSize, s, op), op.member) == Reply(Present(op.insert, op.score))
      <==> !Stale(s, op) && HasPlace(maxSize, s, op)
  {
    hide TopK, HasPlace;
    if Stale(s, op) {
      assert Apply(maxSize, s, op) == s;
    } else if Rejected(maxSize, s, op) {
      RejectedHasNoPlace(maxSize, s, op);
    } else {
      KeptIffPlace(maxSize, s, op);
    }
  }

  lemma KeptIffPlace(maxSize: nat, s: State, op: Op)
    ensures var kept := TopK((if op.insert then s.plus else s.minus)[op.member := op.score], maxSize);
            && (op.member in kept <==> HasPlace(maxSize, s, op))
            && (op.member in kept ==> kept[op.member] == op.score)
  {
    PlaceInGrown(if op.insert then s.plus else s.minus, op.member, op.score);
    hide MembersAbove;
  }

  /**
   * At any cap: the read straight after an operation gives its kind and score exactly if the
   * operation was not outdated and has a place below the cap.
   */
  lemma ScoreReadAfter(maxSize: nat, history: seq<Op>, op: Op)
    ensures ReadScore(Run(maxSize, history + [op]), op.member) == Reply(Present(op.insert, op.score))
      <==> !Stale(Run(maxSize, history), op) && HasPlace(maxSize, Run(maxSize, history), op)
  {
    AlwaysDisjoint(maxSize, history);
    RunLast(maxSize, history, op);
    hide *;
    ReadAfterApply(maxSize, Run(maxSize, history), op);
  }

  /** Two states that hold the winners of the same tie-free operations are the same state. */
  lemma WinnersDetermineState(ops: set<Op>, s: State, t: State)
    requires HoldsWinners(ops, s) && HoldsWinners(ops, t) && !TopTie(ops)
    ensures s == t
  {
    forall m
      ensures m in s.plus <==> m in t.plus
      ensures m in s.minus <==> m in t.minus
    {
      SameSide(ops, s, t, m);
      SameSide(ops, t, s, m);
    }
    assert s.plus.Keys == t.plus.Keys && s.minus.Keys == t.minus.Keys;
    forall m | m in s.plus ensures s.plus[m] == t.plus[m] {
      assert Wins(ops, Op(true, s.plus[m], m)) && Wins(ops, Op(true, t.plus[m], m));
    }
    forall m | m in s.minus ensures s.minus[m] == t.minus[m] {
      assert Wins(ops, Op(false, s.minus[m], m)) && Wins(ops, Op(false, t.minus[m], m));
    }
  }

  lemma SameSide(ops: set<Op>, s: State, t: State, m: ByteString)
    requires HoldsWinners(ops, s) && HoldsWinners(ops, t) && !TopTie(ops)
    ensures m in s.plus ==> m in t.plus
    ensures m in s.minus ==> m in t.minus
  {
    if m in s.plus && m in t.minus {
      BothWin(ops, s.plus[m], t.minus[m], m);
    }
    if m in s.minus && m in t.plus {
      BothWin(ops, t.plus[m], s.minus[m], m);
    }
    if m in s.plus { assert Wins(ops, Op(true, s.plus[m], m)); }
    if m in s.minus { assert Wins(ops, Op(false, s.minus[m], m)); }
  }

  lemma BothWin(ops: set<Op>, i: Score, d: Score, m: ByteString)
    requires Wins(ops, Op(true, i, m)) && Wins(ops, Op(false, d, m))
    ensures TopTie(ops)
  {
    assert Op(true, i, m).(insert := false) == Op(false, d, m);
  }

  ghost predicate Confluent(maxSize: nat, ops: set<Op>) {
    forall h1, h2 :: Ops(h1) == ops && Ops(h2) == ops ==> Run(maxSize, h1) == Run(maxSize, h2)
  }

  lemma Enumerate(ops: set<Op>) returns (history: seq<Op>)
    ensures Ops(history) == ops
  {
    if ops == {} {
      history := [];
    } else {
      var op :| op in ops;
      var rest := Enumerate(ops - {op});
      history := rest + [op];
      assert Ops(history) == Ops(rest) + {op};
    }
  }

  /**
   * While the cap does not bind, a set of operations leads to one state in every order and with
   * every duplication exactly when no member's top score is shared by an insert and a delete.
   */
  lemma ConvergesIffNoTopTie(maxSize: nat, ops: set<Op>)
    requires |Members(ops)| <= maxSize
    ensures Confluent(maxSize, ops) <==> !TopTie(ops)
  {
    if TopTie(ops) {
      var op :| op in ops && op.insert && Wins(ops, op) && Wins(ops, op.(insert := false));
      var base := Enumerate(ops);
      var h1 := LastTopWins(maxSize, ops, base, op);
      var h2 := LastTopWins(maxSize, ops, base, op.(insert := false));
      RunHoldsWinners(maxSize, h1);
      assert Run(maxSize, h1) != Run(maxSize, h2);
    } else {
      forall h1, h2 | Ops(h1) == ops && Ops(h2) == ops
        ensures Run(maxSize, h1) == Run(maxSize, h2)
      {
        RunHoldsWinners(maxSize, h1);
        RunHoldsWinners(maxSize, h2);
        WinnersDetermineState(ops, Run(maxSize, h1), Run(maxSize, h2));
      }
    }
  }

  /** Among operations with the top score, the one that arrives last decides the member's set. */
  lemma LastTopWins(maxSize: nat, ops: set<Op>, base: seq<Op>, op: Op) returns (history: seq<Op>)
    requires |Members(ops)| <= maxSize
    requires Ops(base) == ops && Wins(ops, op)
    ensures history == base + [op] && Ops(history) == ops
    ensures op.member in (if op.insert then Run(maxSize, history).plus else Run(maxSize, history).minus)
  {
    history := base + [op];
    assert history[..|history| - 1] == base;
    var s := Run(maxSize, base);
    RunHoldsWinners(maxSize, base);
    WinnersAreMembers(ops, s);
    ApplyBelowCap(maxSize, s, op, Members(ops));
    assert !Stale(s, op);
  }

  /** A tie at the top: the same two operations end in different sets. */
  lemma TieExample()
    ensures var ins, del := Op(true, 5, [1]), Op(false, 5, [1]);
            Run(10, [ins, del]) == State(map[], map[[1] := 5])
            && Run(10, [del, ins]) == State(map[[1] := 5], map[])
  {
    var ins, del := Op(true, 5, [1]), Op(false, 5, [1]);
    var one: ZSet := map[[1] := 5];
    TopKSize(one, 10);
    assert [ins, del][..1] == [ins] && [del, ins][..1] == [del];
    assert [ins][..0] == [] && [del][..0] == [];
    assert Apply(10, EMPTY, ins) == State(one, map[]) by { assert EMPTY.plus[[1] := 5] == one; }
    assert Apply(10, EMPTY, del) == State(map[], one) by { assert EMPTY.minus[[1] := 5] == one; }
    assert Run(10, [ins]) == State(one, map[]);
    assert Run(10, [del]) == State(map[], one);
    assert Apply(10, State(one, map[]), del) == State(map[], one) by {
      assert map[][[1] := 5] == one && one - {[1]} == map[];
    }
    assert Apply(10, State(map[], one), ins) == State(one, map[]) by {
      assert map[][[1] := 5] == one && one - {[1]} == map[];
    }
  }

  /** When the cap binds, a delete can forget an eviction: the order of a mixed history then matters. */
  lemma CapExample()
    ensures var insA, insB, delB := Op(true, 1, [1]), Op(true, 2, [2]), Op(false, 3, [2]);
            !TopTie({insA, insB, delB})
            && Run(1, [insA, insB, delB]).plus == map[]
            && [1] in Run(1, [insB, delB, insA]).plus
  {
    var insA, insB, delB := Op(true, 1, [1]), Op(true, 2, [2]), Op(false, 3, [2]);
    CapFirst(insA, insB, delB);
    CapSecond(insA, insB, delB);
  }

  lemma RunLast(maxSize: nat, history: seq<Op>, op: Op)
    ensures Run(maxSize, history + [op]) == Apply(maxSize, Run(maxSize, history), op)
  {
    assert (history + [op])[..|history|] == history;
  }

  lemma CapFirst(insA: Op, insB: Op, delB: Op)
    requires insA == Op(true, 1, [1]) && insB == Op(true, 2, [2]) && delB == Op(false, 3, [2])
    ensures Run(1, [insA, insB, delB]).plus == map[]
  {
    var s := CapInserts(insA, insB);
    LastDeleteClears(s, delB);
    RunLast(1, [insA, insB], delB);
    assert [insA, insB] + [delB] == [insA, insB, delB];
  }

  lemma CapInserts(insA: Op, insB: Op) returns (s: State)
    requires insA == Op(true, 1, [1]) && insB == Op(true, 2, [2])
    ensures s == Run(1, [insA, insB]) && s.minus == map[]
    ensures forall m | m in s.plus :: m == [2] && s.plus[m] == 2
  {
    BestLast([], insA);
    BestLast([insA], insB);
    assert [] + [insA] == [insA] && [insA] + [insB] == [insA, insB];
    TwoKeepsHigher(Best([insA, insB]));
    BoundedStoreKeepsTop(1, [insA, insB]);
    s := State(TopK(Best([insA, insB]), 1), map[]);
  }

  lemma BestLast(history: seq<Op>, op: Op)
    ensures var z := Best(history);
            Best(history + [op]) ==
            if op.member in z && op.score <= z[op.member] then z else z[op.member := op.score]
  {
    assert (history + [op])[..|history|] == history;
  }

  lemma TwoKeepsHigher(z: ZSet)
    requires z == map[[1] := 1, [2] := 2]
    ensures forall m | m in TopK(z, 1) :: m == [2] && TopK(z, 1)[m] == 2
  {
    assert [2] in MembersAbove(z, At(z, [1]));
  }

  lemma LastDeleteClears(s: State, del: Op)
    requires !del.insert && s.plus.Keys <= {del.member} && s.minus == map[]
    requires forall m | m in s.plus :: s.plus[m] < del.score
    ensures Apply(1, s, del).plus == map[]
  {
  }

  lemma CapSecond(insA: Op, insB: Op, delB: Op)
    requires insA == Op(true, 1, [1]) && insB == Op(true, 2, [2]) && delB == Op(false, 3, [2])
    ensures [1] in Run(1, [insB, delB, insA]).plus
  {
    RunLast(1, [], insB);
    RunLast(1, [insB], delB);
    RunLast(1, [insB, delB], insA);
    assert [] + [insB] == [insB] && [insB] + [delB] == [insB, delB];
    assert [insB, delB] + [insA] == [insB, delB, insA];
    ApplyBelowCap(1, EMPTY, insB, {[2]});
    ApplyBelowCap(1, Accept(EMPTY, insB), delB, {[2]});
    FirstInsertKept(Accept(Accept(EMPTY, insB), delB), insA);
  }

  lemma FirstInsertKept(s: State, ins: Op)
    requires ins.insert && s.plus == map[] && ins.member !in s.minus
    ensures ins.member in Apply(1, s, ins).plus
  {
    TopKSize(s.plus[ins.member := ins.score], 1);
  }

  // ----- The bounded store -----

  predicate InsertOnly(history: seq<Op>) {
    forall op | op in history :: op.insert
  }

  /** The highest score seen for each member. */
  function Best(history: seq<Op>): ZSet {
    if history == [] then map[]
    else
      var z, op := Best(history[..|history| - 1]), history[|history| - 1];
      if op.member in z && op.score <= z[op.member] then z else z[op.member := op.score]
  }

  predicate Seen(history: seq<Op>, m: ByteString, score: Score) {
    Op(true, score, m) in history || Op(false, score, m) in history
  }

  /** Best is the per-member maximum: every recorded score was seen, and none seen is higher. */
  lemma {:induction false} BestIsMaximum(history: seq<Op>)
    ensures forall m | m in Best(history) :: Seen(history, m, Best(history)[m])
    ensures forall op | op in history :: op.member in Best(history) && op.score <= Best(history)[op.member]
  {
    if history != [] {
      var before, op := history[..|history| - 1], history[|history| - 1];
      BestIsMaximum(before);
      assert forall o :: o in history <==> o in before || o == op by { assert history == before + [op]; }
      forall m | m in Best(history) ensures Seen(history, m, Best(history)[m]) {
        if m in Best(before) { assert Seen(before, m, Best(before)[m]); }
      }
    }
  }

  /**
   * However small the cap, an insert-only history leaves exactly the top maxSize members by their
   * best score: evictions and the script's early return at capacity lose nothing.
   */
  lemma {:induction false} BoundedStoreKeepsTop(maxSize: nat, history: seq<Op>)
    requires InsertOnly(history)
    ensures Run(maxSize, history) == State(TopK(Best(history), maxSize), map[])
  {
    if history != [] {
      var before, op := history[..|history| - 1], history[|history| - 1];
      assert op in history && forall o | o in before :: o in history;
      BoundedStoreKeepsTop(maxSize, before);
      BoundedStep(maxSize, Best(before), Best(history), op);
    }
  }

  lemma BoundedStep(maxSize: nat, z: ZSet, z': ZSet, op: Op)
    requires op.insert
    requires z' == if op.member in z && op.score <= z[op.member] then z else z[op.member := op.score]
    ensures Apply(maxSize, State(TopK(z, maxSize), map[]), op) == State(TopK(z', maxSize), map[])
  {
    var top := TopK(z, maxSize);
    if Rejected(maxSize, State(top, map[]), op) {
      if z' != z { RejectedBelowTop(maxSize, z, z', op); }
    } else if op.member in z && op.score < z[op.member] {
      if maxSize > 0 { LowerScoreRejected(maxSize, z, op); }
    } else {
      TopKAfterRaise(maxSize, z, z', op.member);
      TopKOfPart(top[op.member := op.score], z', maxSize);
    }
  }

  /** A new best that is rejected at capacity ranks below the whole of a full top set. */
  lemma RejectedBelowTop(maxSize: nat, z: ZSet, z': ZSet, op: Op)
    requires op.insert && z' == z[op.member := op.score] && (op.member in z ==> z[op.member] < op.score)
    requires Rejected(maxSize, State(TopK(z, maxSize), map[]), op)
    ensures TopK(z', maxSize) == TopK(z, maxSize)
  {
    var top := TopK(z, maxSize);
    TopKSize(z, maxSize);
    var e := At(z', op.member);
    forall m | m in top ensures m in MembersAbove(z', e) { }
    SubsetSize(top.Keys, MembersAbove(z', e));
    var rest := z' - {op.member};
    TopKOfPart(rest, z', maxSize);
    TopKOfPart(rest, z, maxSize);
  }

  /** Raising or adding one member only brings that member into the top. */
  lemma TopKAfterRaise(k: nat, z: ZSet, z': ZSet, m: ByteString)
    requires m in z' && z' == z[m := z'[m]] && (m in z ==> z[m] <= z'[m])
    ensures forall n | n in TopK(z', k) && n != m :: n in TopK(z, k)
  {
    forall n | n in TopK(z', k) && n != m
      ensures n in TopK(z, k)
    {
      var e := At(z', n);
      forall x | x in MembersAbove(z, e) ensures x in MembersAbove(z', e) { }
      SubsetSize(MembersAbove(z, e), MembersAbove(z', e));
    }
  }

  /** A score below the member's best is rejected, even when the member itself was evicted. */
  lemma LowerScoreRejected(maxSize: nat, z: ZSet, op: Op)
    requires op.insert && op.member in z && op.score < z[op.member] && maxSize > 0
    ensures Rejected(maxSize, State(TopK(z, maxSize), map[]), op)
  {
    var top := TopK(z, maxSize);
    TopKSize(z, maxSize);
    if op.member !in top {
      forall m | m in top ensures op.score < top[m] {
        TopKUpward(z, maxSize, m, op.member);
      }
    }
  }

  lemma BestMonotone(h1: seq<Op>, h2: seq<Op>)
    requires Ops(h1) <= Ops(h2)
    ensures forall m | m in Best(h1) :: m in Best(h2) && Best(h1)[m] <= Best(h2)[m]
  {
    BestIsMaximum(h1);
    BestIsMaximum(h2);
    forall m | m in Best(h1) ensures m in Best(h2) && Best(h1)[m] <= Best(h2)[m] {
      var score := Best(h1)[m];
      assert Seen(h1, m, score);
      assert Op(true, score, m) in Ops(h1) || Op(false, score, m) in Ops(h1);
    }
  }

  /** So a bounded insert-only store converges: only the set of operations matters. */
  lemma BoundedStoreConverges(maxSize: nat, h1: seq<Op>, h2: seq<Op>)
    requires InsertOnly(h1) && InsertOnly(h2) && Ops(h1) == Ops(h2)
    ensures Run(maxSize, h1) == Run(maxSize, h2)
  {
    BestMonotone(h1, h2);
    BestMonotone(h2, h1);
    assert Best(h1).Keys == Best(h2).Keys;
    assert Best(h1) == Best(h2);
    BoundedStoreKeepsTop(maxSize, h1);
    BoundedStoreKeepsTop(maxSize, h2);
  }
}
