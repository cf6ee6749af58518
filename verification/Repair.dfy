/**
 * Read repair: score the disagreeing key-members in every cluster, decide each one's correct
 * state, and write it wherever it is missing, lower, or in the wrong set.
 */
module Repair {
  import opened Bytes
  import opened SortedSets
  import opened LwwStore
  import opened FarmMerge

  /** One cluster: the two sorted sets of every key. */
  type Cluster = map<Key, State>

  function StateOf(c: Cluster, key: Key): State {
    if key in c then c[key] else EMPTY
  }

  /** What the score read says; a key-member it reports as bad stays unread. */
  function PresenceAt(s: State, m: ByteString): Presence {
    match ReadScore(s, m)
    case Reply(presence) => presence
    case BadState => Absent
  }

  function PresenceIn(c: Cluster, km: KeyMember): Presence {
    PresenceAt(StateOf(c, km.key), km.member)
  }

  /** One script on one key. */
  function Write(maxSize: nat, c: Cluster, insert: bool, t: KeyScoreMember): Cluster {
    c[t.key := Apply(maxSize, StateOf(c, t.key), Op(insert, t.score, t.member))]
  }

  // ----- The decision -----

  datatype Decision = NotFound | Correct(inserted: bool, score: Score)

  /** The presence is at or above zero and every score before it: the walk takes its score. */
  predicate Record(ps: seq<Presence>, i: nat)
    requires i < |ps|
  {
    && ps[i].Present? && ps[i].score >= 0
    && forall j | 0 <= j < i && ps[j].Present? :: ps[j].score <= ps[i].score
  }

  predicate InsertedRecord(ps: seq<Presence>) {
    exists i | 0 <= i < |ps| :: Record(ps, i) && ps[i].inserted
  }

  predicate TopScore(ps: seq<Presence>, score: Score) {
    && (exists i | 0 <= i < |ps| :: ps[i].Present? && ps[i].score == score)
    && forall i | 0 <= i < |ps| && ps[i].Present? :: ps[i].score <= score
  }

  /** What the walk over the clusters' presences concludes. */
  predicate Decides(ps: seq<Presence>, d: Decision) {
    match d
    case NotFound => forall i | 0 <= i < |ps| && ps[i].Present? :: ps[i].score < 0
    case Correct(inserted, score) => score >= 0 && TopScore(ps, score) && inserted == InsertedRecord(ps)
  }

  method Decide(ps: seq<Presence>) returns (d: Decision)
    ensures Decides(ps, d)
  {
    var found, highestScore, wasInserted := false, 0, false;
    for i := 0 to |ps|
      invariant highestScore >= 0
      invariant !found ==> highestScore == 0 && !wasInserted && Decides(ps[..i], NotFound)
      invariant found ==> Decides(ps[..i], Correct(wasInserted, highestScore))
    {
      var presence := ps[i];
      WalkStep(ps, i, found, highestScore, wasInserted);
      if presence.Present? && presence.score >= highestScore {
        found := true;
        highestScore := presence.score;
        wasInserted := wasInserted || presence.inserted;
      }
    }
    assert ps[..|ps|] == ps;
    d := if found then Correct(wasInserted, highestScore) else NotFound;
  }

  lemma WalkStep(ps: seq<Presence>, i: nat, found: bool, highest: Score, inserted: bool)
    requires i < |ps| && highest >= 0
    requires Decides(ps[..i], if found then Correct(inserted, highest) else NotFound)
    requires !found ==> highest == 0 && !inserted
    ensures var p := ps[i];
            var take := p.Present? && p.score >= highest;
            Decides(ps[..i + 1], if take then Correct(inserted || p.inserted, p.score)
                                 else if found then Correct(inserted, highest) else NotFound)
  {
    var before, after := ps[..i], ps[..i + 1];
    var p := ps[i];
    assert forall j | 0 <= j < i :: after[j] == before[j];
    assert forall j | 0 <= j < i :: Record(after, j) <==> Record(before, j);
    assert Record(after, i) <==> p.Present? && p.score >= highest;
    assert InsertedRecord(after) <==> InsertedRecord(before) || (Record(after, i) && p.inserted);
    if found && !(p.Present? && p.score >= highest) {
      var j :| 0 <= j < |before| && before[j].Present? && before[j].score == highest;
      assert after[j] == before[j];
    }
  }

  /** The decision is a function of the presences. */
  lemma DecisionUnique(ps: seq<Presence>, d: Decision, e: Decision)
    requires Decides(ps, d) && Decides(ps, e)
    ensures d == e
  {
    if d.Correct? { assert TopScore(ps, d.score); }
    if e.Correct? { assert TopScore(ps, e.score); }
  }

  /** An insert at the top score always survives. */
  lemma TopInsertSurvives(ps: seq<Presence>, d: Decision, i: nat)
    requires Decides(ps, d) && d.Correct? && i < |ps|
    requires ps[i] == Present(true, d.score)
    ensures d.inserted
  {
    assert Record(ps, i);
  }

  /** The last-writer-wins answer: inserted iff some cluster holds an insert at the top score. */
  predicate LwwInserted(ps: seq<Presence>, top: Score) {
    exists i | 0 <= i < |ps| :: ps[i] == Present(true, top)
  }

  /**
   * The sticky flag: the repair departs from last-writer-wins exactly when only deletes hold the
   * top score and an insert at a lower score was a record when the walk met it.
   */
  lemma StickyIff(ps: seq<Presence>, d: Decision)
    requires Decides(ps, d) && d.Correct?
    ensures d.inserted != LwwInserted(ps, d.score) <==>
      !LwwInserted(ps, d.score)
      && exists i | 0 <= i < |ps| :: Record(ps, i) && ps[i].inserted && ps[i].score < d.score
  {
    if LwwInserted(ps, d.score) {
      var i :| 0 <= i < |ps| && ps[i] == Present(true, d.score);
      TopInsertSurvives(ps, d, i);
    } else if d.inserted {
      var i :| 0 <= i < |ps| && Record(ps, i) && ps[i].inserted;
      assert ps[i] == Present(true, ps[i].score);
    }
  }

  /** An insert at 1 met before a delete at 2 is repaired into an insert at 2. */
  lemma StickyExample()
    ensures var ps := [Present(true, 1), Present(false, 2)];
            Decides(ps, Correct(true, 2)) && !LwwInserted(ps, 2)
  {
    var ps := [Present(true, 1), Present(false, 2)];
    assert Record(ps, 0);
    assert ps[1].score == 2;
  }

  // ----- The writes -----

  /** The cluster lacks the decided state. */
  predicate Needs(p: Presence, d: Decision) {
    d.Correct? && (p.Absent? || p.score < d.score || p.inserted != d.inserted)
  }

  /** What a script at the decided state does to a member's presence while the cap does not bind. */
  function Effect(p: Presence, d: Decision): Presence
    requires d.Correct?
  {
    if p.Present? && d.score < p.score then p else Present(d.inserted, d.score)
  }

  /** At any cap: a script has its effect on its member exactly if it is outdated or has a place below the cap. */
  lemma TakesEffectIff(maxSize: nat, s: State, op: Op, d: Decision)
    requires Disjoint(s) && d == Correct(op.insert, op.score)
    ensures PresenceAt(Apply(maxSize, s, op), op.member) == Effect(PresenceAt(s, op.member), d)
      <==> Stale(s, op) || HasPlace(maxSize, s, op)
  {
    var add := if op.insert then s.plus else s.minus;
    var grown := add[op.member := op.score];
    PlaceInGrown(add, op.member, op.score);
    if !Stale(s, op) && |add| >= maxSize && BelowAll(add, op.score) {
      RejectedHasNoPlace(maxSize, s, op);
    }
    hide MembersAbove;
  }

  /** The key's sets are disjoint, and all their members are among at most maxSize members. */
  ghost predicate KeyFits(maxSize: nat, s: State, members: set<ByteString>) {
    Disjoint(s) && s.plus.Keys <= members && s.minus.Keys <= members && |members| <= maxSize
  }

  lemma ApplyEffect(maxSize: nat, s: State, op: Op, members: set<ByteString>, d: Decision)
    requires KeyFits(maxSize, s, members) && op.member in members && d == Correct(op.insert, op.score)
    ensures KeyFits(maxSize, Apply(maxSize, s, op), members)
    ensures PresenceAt(Apply(maxSize, s, op), op.member) == Effect(PresenceAt(s, op.member), d)
    ensures forall m | m != op.member :: PresenceAt(Apply(maxSize, s, op), m) == PresenceAt(s, m)
  {
    ApplyBelowCap(maxSize, s, op, members);
    AcceptEffect(s, op, d);
  }

  lemma AcceptEffect(s: State, op: Op, d: Decision)
    requires Disjoint(s) && d == Correct(op.insert, op.score)
    ensures var s' := if Stale(s, op) then s else Accept(s, op);
            && Disjoint(s')
            && PresenceAt(s', op.member) == Effect(PresenceAt(s, op.member), d)
            && forall m | m != op.member :: PresenceAt(s', m) == PresenceAt(s, m)
  {
  }

  /** Room for a key's members: what the cluster holds and what the repair may write. */
  type Room = map<Key, set<ByteString>>

  function RoomAt(room: Room, key: Key): set<ByteString> {
    if key in room then room[key] else {}
  }

  /** The cap does not bind on any key of the cluster. */
  ghost predicate Sound(maxSize: nat, c: Cluster, room: Room) {
    forall key :: KeyFits(maxSize, StateOf(c, key), RoomAt(room, key))
  }

  predicate HasRoom(room: Room, km: KeyMember) {
    km.member in RoomAt(room, km.key)
  }

  /** While the cap does not bind, a write has its effect on its own member and on no other. */
  lemma WriteEffect(maxSize: nat, c: Cluster, room: Room, d: Decision, t: KeyScoreMember)
    requires Sound(maxSize, c, room) && HasRoom(room, t.KM())
    requires d.Correct? && d.score == t.score
    ensures Sound(maxSize, Write(maxSize, c, d.inserted, t), room)
    ensures WrittenOne(c, Write(maxSize, c, d.inserted, t), d, t.KM())
  {
    var op := Op(d.inserted, t.score, t.member);
    ApplyEffect(maxSize, StateOf(c, t.key), op, RoomAt(room, t.key), d);
    var c' := Write(maxSize, c, d.inserted, t);
    forall key ensures KeyFits(maxSize, StateOf(c', key), RoomAt(room, key)) {
      assert KeyFits(maxSize, StateOf(c, key), RoomAt(room, key));
    }
  }

  ghost predicate WrittenOne(c: Cluster, c': Cluster, d: Decision, km: KeyMember) {
    && d.Correct? && PresenceIn(c', km) == Effect(PresenceIn(c, km), d)
    && forall other | other != km :: PresenceIn(c', other) == PresenceIn(c, other)
  }

  /** A presence at a stored score, or a higher one. */
  predicate NotLowered(before: Presence, after: Presence) {
    before.Present? ==> after.Present? && after.score >= before.score
  }

  function RunFrom(maxSize: nat, s: State, ops: seq<Op>): State {
    if ops == [] then s else Apply(maxSize, RunFrom(maxSize, s, ops[..|ops| - 1]), ops[|ops| - 1])
  }

  /** At any cap, a script keeps the sets disjoint and lowers no score of a member that is still held after it. */
  lemma StepNeverLowers(maxSize: nat, s: State, op: Op, m: ByteString)
    requires Disjoint(s)
    ensures Disjoint(Apply(maxSize, s, op))
    ensures var after := PresenceAt(Apply(maxSize, s, op), m);
            after.Present? ==> NotLowered(PresenceAt(s, m), after)
  {
    hide MembersAbove;
  }

  /** The member is held in every state of the run. */
  predicate HeldThroughout(maxSize: nat, s: State, ops: seq<Op>, m: ByteString) {
    && PresenceAt(RunFrom(maxSize, s, ops), m).Present?
    && (ops != [] ==> HeldThroughout(maxSize, s, ops[..|ops| - 1], m))
  }

  /** At any cap, repairs and client writes in any order never lower a score as long as its member is held. */
  lemma {:induction false} NeverLoweredWhileHeld(maxSize: nat, s: State, ops: seq<Op>, m: ByteString)
    requires Disjoint(s) && HeldThroughout(maxSize, s, ops, m)
    ensures Disjoint(RunFrom(maxSize, s, ops))
    ensures NotLowered(PresenceAt(s, m), PresenceAt(RunFrom(maxSize, s, ops), m))
  {
    if ops != [] {
      var before := ops[..|ops| - 1];
      NeverLoweredWhileHeld(maxSize, s, before, m);
      StepNeverLowers(maxSize, RunFrom(maxSize, s, before), ops[|ops| - 1], m);
    }
  }

  /**
   * Once its member was lost to the cap, a score can come back lower: with a cap of 1, A at 5 is
   * evicted by B at 6, B is deleted, and A is inserted at 1.
   */
  lemma LostThenLower()
    ensures var a: ByteString, b: ByteString := [1], [2];
            var ops := [Op(true, 6, b), Op(false, 7, b), Op(true, 1, a)];
            PresenceAt(RunFrom(1, State(map[a := 5], map[]), ops), a) == Present(true, 1)
  {
    var a: ByteString, b: ByteString := [1], [2];
    assert a != b by { assert a[0] != b[0]; }
    var s := State(map[a := 5], map[]);
    var ops := [Op(true, 6, b), Op(false, 7, b), Op(true, 1, a)];
    var s1, s2 := State(map[b := 6], map[]), State(map[], map[b := 7]);
    HigherStays(a, 5, b, 6);
    SingleStays(b, 7);
    SingleStays(a, 1);
    hide TopK;
    assert s.minus - {b} == map[] && s1.plus - {b} == map[];
    assert Apply(1, s, ops[0]) == s1;
    assert Apply(1, s1, ops[1]) == s2;
    assert Apply(1, s2, ops[2]) == State(map[a := 1], map[b := 7] - {a});
    assert PresenceAt(State(map[a := 1], map[b := 7] - {a}), a) == Present(true, 1);
    hide Apply, PresenceAt;
    assert ops[..2][..1] == ops[..1] && ops[..1][..0] == [];
    assert RunFrom(1, s, ops[..1]) == s1;
    assert RunFrom(1, s, ops[..2]) == s2;
  }

  lemma SingleStays(m: ByteString, score: Score)
    ensures TopK(map[m := score], 1) == map[m := score]
  {
    TopKSize(map[m := score], 1);
  }

  lemma HigherStays(low: ByteString, l: Score, high: ByteString, h: Score)
    requires low != high && l < h
    ensures TopK(map[low := l, high := h], 1) == map[high := h]
    ensures map[low := l][high := h] == map[low := l, high := h]
  {
    var z := map[low := l, high := h];
    assert Above(SortedSets.At(z, high), SortedSets.At(z, low));
    assert z - {low} == map[high := h];
    RemoveOne(z, low);
    DropBottom(z, low, 1);
    SingleStays(high, h);
  }

  /** Repairs and client writes in any order never lower a stored score while the cap does not bind. */
  lemma {:induction false} NeverLowered(maxSize: nat, s: State, ops: seq<Op>, members: set<ByteString>, m: ByteString)
    requires KeyFits(maxSize, s, members) && forall op | op in ops :: op.member in members
    ensures KeyFits(maxSize, RunFrom(maxSize, s, ops), members)
    ensures NotLowered(PresenceAt(s, m), PresenceAt(RunFrom(maxSize, s, ops), m))
  {
    if ops != [] {
      var before, op := ops[..|ops| - 1], ops[|ops| - 1];
      assert op in ops;
      NeverLowered(maxSize, s, before, members, m);
      ApplyEffect(maxSize, RunFrom(maxSize, s, before), op, members, Correct(op.insert, op.score));
    }
  }

  // ----- One pass -----

  /** The presences of one key-member in every cluster; an unanswered score request leaves Absent. */
  function Presences(clusters: seq<Cluster>, km: KeyMember, unread: set<(nat, KeyMember)>): (ps: seq<Presence>)
    ensures |ps| == |clusters|
  {
    seq(|clusters|, i requires 0 <= i < |clusters| =>
      if (i, km) in unread then Absent else PresenceIn(clusters[i], km))
  }

  function SetOf(keyMembers: seq<KeyMember>): set<KeyMember> {
    set km | km in keyMembers
  }

  method ReadPresences(clusters: seq<Cluster>, keyMembers: seq<KeyMember>, unread: set<(nat, KeyMember)>)
    returns (presenceMap: map<KeyMember, seq<Presence>>)
    ensures presenceMap.Keys == SetOf(keyMembers)
    ensures forall km | km in presenceMap :: presenceMap[km] == Presences(clusters, km, unread)
  {
    presenceMap := map km | km in keyMembers :: seq(|clusters|, _ => Absent);
    for index := 0 to |clusters|
      invariant presenceMap.Keys == SetOf(keyMembers)
      invariant forall km | km in presenceMap :: |presenceMap[km]| == |clusters|
      invariant forall km, i | km in presenceMap && 0 <= i < index ::
        presenceMap[km][i] == Presences(clusters, km, unread)[i]
      invariant forall km, i | km in presenceMap && index <= i < |clusters| :: presenceMap[km][i] == Absent
    {
      presenceMap := ReadCluster(clusters[index], index, unread, presenceMap);
    }
  }

  /** Ask one cluster and copy what it answered. */
  method ReadCluster(c: Cluster, index: nat, unread: set<(nat, KeyMember)>, presenceMap: map<KeyMember, seq<Presence>>)
    returns (m: map<KeyMember, seq<Presence>>)
    requires forall km | km in presenceMap :: index < |presenceMap[km]| && presenceMap[km][index] == Absent
    ensures m.Keys == presenceMap.Keys
    ensures forall km | km in m :: m[km] == presenceMap[km][index :=
      if (index, km) in unread then Absent else PresenceIn(c, km)]
  {
    var asked := set km | km in presenceMap && (index, km) !in unread;
    var response := Score(c, asked);
    m := CopyScores(response, index, presenceMap);
    forall km | km in m
      ensures m[km] == presenceMap[km][index := if (index, km) in unread then Absent else PresenceIn(c, km)]
    {
      assert km in response ==> response[km] == PresenceIn(c, km);
    }
  }

  /** The score request of one cluster: the two ZSCORE replies for each key-member asked. */
  method Score(c: Cluster, asked: set<KeyMember>) returns (response: map<KeyMember, Presence>)
    ensures forall km :: km in response <==>
      km in asked && !(km.member in StateOf(c, km.key).plus && km.member in StateOf(c, km.key).minus)
    ensures forall km | km in response && km.member in StateOf(c, km.key).plus ::
      response[km] == Present(true, StateOf(c, km.key).plus[km.member])
    ensures forall km | km in response && km.member in StateOf(c, km.key).minus ::
      response[km] == Present(false, StateOf(c, km.key).minus[km.member])
    ensures forall km | km in response ::
      km.member !in StateOf(c, km.key).plus && km.member !in StateOf(c, km.key).minus <==> response[km] == Absent
  {
    response := map[];
    var left := asked;
    while left != {}
      invariant left <= asked
      invariant forall km :: km in response <==> km in asked && km !in left && ReadScore(StateOf(c, km.key), km.member).Reply?
      invariant forall km | km in response :: Reply(response[km]) == ReadScore(StateOf(c, km.key), km.member)
    {
      var km :| km in left;
      match ReadScore(StateOf(c, km.key), km.member) {
        case Reply(presence) => response := response[km := presence];
        case BadState =>
      }
      left := left - {km};
    }
  }

  /** Copy one cluster's score response into the map. */
  method CopyScores(response: map<KeyMember, Presence>, index: nat, presenceMap: map<KeyMember, seq<Presence>>)
    returns (m: map<KeyMember, seq<Presence>>)
    requires forall km | km in presenceMap :: index < |presenceMap[km]|
    requires response.Keys <= presenceMap.Keys
    ensures m.Keys == presenceMap.Keys
    ensures forall km | km in m ::
      m[km] == if km in response then presenceMap[km][index := response[km]] else presenceMap[km]
  {
    m := presenceMap;
    var left := response.Keys;
    while left != {}
      invariant m.Keys == presenceMap.Keys && left <= response.Keys
      invariant forall km | km in m ::
        m[km] == if km in response && km !in left then presenceMap[km][index := response[km]] else presenceMap[km]
    {
      var keyMember :| keyMember in left;
      m := m[keyMember := m[keyMember][index := response[keyMember]]];
      left := left - {keyMember};
    }
  }

  type Writes = map<nat, seq<KeyScoreMember>>

  function At(writes: Writes, index: nat): seq<KeyScoreMember> {
    if index in writes then writes[index] else []
  }

  /** The decisions ds call for writing t, as an insert or a delete, to the cluster at index. */
  predicate Called(pm: map<KeyMember, seq<Presence>>, ds: map<KeyMember, Decision>, index: nat,
                   insert: bool, t: KeyScoreMember) {
    var km := t.KM();
    && km in ds && km in pm && index < |pm[km]|
    && ds[km] == Correct(insert, t.score) && Needs(pm[km][index], ds[km])
  }

  ghost predicate Scheduled(pm: map<KeyMember, seq<Presence>>, ds: map<KeyMember, Decision>,
                            insert: bool, writes: Writes) {
    forall i: nat, t :: t in At(writes, i) <==> Called(pm, ds, i, insert, t)
  }

  /** Walk the presences again and schedule t wherever it is needed. */
  method ScheduleOne(ps: seq<Presence>, d: Decision, t: KeyScoreMember, writes: Writes) returns (writes': Writes)
    requires d.Correct?
    ensures forall i: nat, u :: u in At(writes', i) <==>
      u in At(writes, i) || (i < |ps| && Needs(ps[i], d) && u == t)
  {
    writes' := writes;
    for index := 0 to |ps|
      invariant forall i: nat, u :: u in At(writes', i) <==>
        u in At(writes, i) || (i < index && Needs(ps[i], d) && u == t)
    {
      var presence := ps[index];
      var notThere := presence.Absent?;
      var lowScore := !notThere && presence.score < d.score;
      var wrongSet := !notThere && presence.inserted != d.inserted;
      if notThere || lowScore || wrongSet {
        ghost var before := writes';
        writes' := writes'[index := At(writes', index) + [t]];
        assert forall i: nat :: At(writes', i) == At(before, i) + if i == index then [t] else [];
      }
    }
  }

  /** Decide every key-member and schedule its writes. */
  method Schedule(pm: map<KeyMember, seq<Presence>>)
    returns (inserts: Writes, deletes: Writes, ghost ds: map<KeyMember, Decision>)
    ensures ds.Keys == pm.Keys && forall km | km in pm :: Decides(pm[km], ds[km])
    ensures Scheduled(pm, ds, true, inserts) && Scheduled(pm, ds, false, deletes)
  {
    inserts, deletes, ds := map[], map[], map[];
    var left := pm.Keys;
    while left != {}
      invariant left <= pm.Keys && ds.Keys == pm.Keys - left
      invariant forall km | km in ds :: Decides(pm[km], ds[km])
      invariant Scheduled(pm, ds, true, inserts) && Scheduled(pm, ds, false, deletes)
    {
      var km :| km in left;
      var d := Decide(pm[km]);
      left := left - {km};
      ghost var ds' := ds[km := d];
      if d.Correct? {
        var t := KeyScoreMember(km.key, d.score, km.member);
        if d.inserted {
          inserts := ScheduleOne(pm[km], d, t, inserts);
        } else {
          deletes := ScheduleOne(pm[km], d, t, deletes);
        }
      }
      forall i: nat, t, insert
        ensures Called(pm, ds', i, insert, t) <==>
          Called(pm, ds, i, insert, t)
          || (t.KM() == km && d == Correct(insert, t.score) && i < |pm[km]| && Needs(pm[km][i], d))
      {
      }
      ds := ds';
    }
  }

  // ----- Carrying the writes out -----

  predicate Targets(ts: seq<KeyScoreMember>, km: KeyMember) {
    exists i | 0 <= i < |ts| :: ts[i].KM() == km
  }

  /** Every write is at the decided state, of the given kind. */
  predicate Decided(ds: map<KeyMember, Decision>, insert: bool, t: KeyScoreMember) {
    t.KM() in ds && ds[t.KM()] == Correct(insert, t.score)
  }

  /** The writes had their effect on the key-members they target, and on no others. */
  ghost predicate Written(c: Cluster, c': Cluster, ds: map<KeyMember, Decision>, ts: seq<KeyScoreMember>) {
    forall km :: PresenceIn(c', km) ==
      if Targets(ts, km) && km in ds && ds[km].Correct? then Effect(PresenceIn(c, km), ds[km]) else PresenceIn(c, km)
  }

  lemma WrittenStep(c: Cluster, mid: Cluster, c': Cluster, ds: map<KeyMember, Decision>,
                    ts: seq<KeyScoreMember>, t: KeyScoreMember)
    requires Written(c, mid, ds, ts) && t.KM() in ds
    requires WrittenOne(mid, c', ds[t.KM()], t.KM())
    ensures Written(c, c', ds, ts + [t])
  {
    forall km ensures Targets(ts + [t], km) <==> Targets(ts, km) || km == t.KM() {
      if Targets(ts, km) {
        var i :| 0 <= i < |ts| && ts[i].KM() == km;
        assert (ts + [t])[i].KM() == km;
      }
      assert (ts + [t])[|ts|] == t;
    }
  }

  /** The writes of one kind for one cluster are at decided states and within the room. */
  predicate Writable(ds: map<KeyMember, Decision>, insert: bool, ts: seq<KeyScoreMember>, room: Room) {
    forall i | 0 <= i < |ts| :: Decided(ds, insert, ts[i]) && HasRoom(room, ts[i].KM())
  }

  /** Scripts of one kind on one cluster, in order. */
  function WriteAll(maxSize: nat, c: Cluster, insert: bool, ts: seq<KeyScoreMember>): Cluster {
    if ts == [] then c else Write(maxSize, WriteAll(maxSize, c, insert, ts[..|ts| - 1]), insert, ts[|ts| - 1])
  }

  /** While the cap does not bind, scripts at decided states have their effects and no others. */
  lemma {:induction false} WriteAllEffect(maxSize: nat, c: Cluster, insert: bool, ts: seq<KeyScoreMember>,
                                          room: Room, ds: map<KeyMember, Decision>)
    requires Sound(maxSize, c, room) && Writable(ds, insert, ts, room)
    ensures Sound(maxSize, WriteAll(maxSize, c, insert, ts), room)
    ensures Written(c, WriteAll(maxSize, c, insert, ts), ds, ts)
  {
    hide Sound, Write, Written, WrittenOne;
    if ts == [] {
      NothingWritten(c, ds);
    } else {
      var before, t := ts[..|ts| - 1], ts[|ts| - 1];
      assert Decided(ds, insert, t) && HasRoom(room, t.KM());
      WriteAllEffect(maxSize, c, insert, before, room, ds);
      var mid := WriteAll(maxSize, c, insert, before);
      WriteEffect(maxSize, mid, room, Correct(insert, t.score), t);
      WrittenStep(c, mid, Write(maxSize, mid, insert, t), ds, before, t);
      assert before + [t] == ts;
    }
  }

  lemma NothingWritten(c: Cluster, ds: map<KeyMember, Decision>)
    ensures Written(c, c, ds, [])
  {
  }

  /** A pipeline of scripts of one kind on one cluster. */
  method RunPipeline(maxSize: nat, c: Cluster, insert: bool, ts: seq<KeyScoreMember>) returns (c': Cluster)
    ensures c' == WriteAll(maxSize, c, insert, ts)
  {
    c' := c;
    for i := 0 to |ts|
      invariant c' == WriteAll(maxSize, c, insert, ts[..i])
    {
      assert ts[..i + 1][..i] == ts[..i];
      c' := Write(maxSize, c', insert, ts[i]);
    }
    assert ts[..|ts|] == ts;
  }

  method CarryOut(maxSize: nat, clusters: array<Cluster>, insert: bool, writes: Writes)
    modifies clusters
    ensures forall i | 0 <= i < clusters.Length ::
      clusters[i] == WriteAll(maxSize, old(clusters[i]), insert, At(writes, i))
  {
    var left := writes.Keys;
    while left != {}
      invariant left <= writes.Keys
      invariant forall i | 0 <= i < clusters.Length && i in left :: clusters[i] == old(clusters[i])
      invariant forall i | 0 <= i < clusters.Length && i !in left ::
        clusters[i] == WriteAll(maxSize, old(clusters[i]), insert, At(writes, i))
    {
      var index :| index in left;
      if index < clusters.Length {
        clusters[index] := RunPipeline(maxSize, clusters[index], insert, writes[index]);
      }
      left := left - {index};
    }
  }

  /** What a pass leaves of one key-member in one cluster. */
  function Repaired(actual: Presence, read: Presence, d: Decision): Presence {
    if Needs(read, d) then Effect(actual, d) else actual
  }

  /** What a pass leaves of a key-member in a cluster, given the decisions and the presences read. */
  function Outcome(c: Cluster, i: nat, pm: map<KeyMember, seq<Presence>>, ds: map<KeyMember, Decision>, km: KeyMember): Presence {
    if km in ds && km in pm && i < |pm[km]| then Repaired(PresenceIn(c, km), pm[km][i], ds[km])
    else PresenceIn(c, km)
  }

  /** The cap binds on no cluster, neither before the pass nor with the key-members in it. */
  ghost predicate Roomy(maxSize: nat, clusters: seq<Cluster>, keyMembers: seq<KeyMember>, room: Room) {
    && (forall i | 0 <= i < |clusters| :: Sound(maxSize, clusters[i], room))
    && (forall km | km in keyMembers :: HasRoom(room, km))
  }

  /** One cluster after a pass: the inserts called for it, then the deletes. */
  function Passed(maxSize: nat, c: Cluster, i: nat, inserts: Writes, deletes: Writes): Cluster {
    WriteAll(maxSize, WriteAll(maxSize, c, true, At(inserts, i)), false, At(deletes, i))
  }

  /**
   * AllRepairs, with writes that succeed: the scripts run are exactly those called for by the
   * decisions about the presences read. While the cap does not bind, every cluster's presence of a
   * repaired key-member so becomes what the decision says; no other key-member's presence changes.
   */
  method AllRepairs(maxSize: nat, clusters: array<Cluster>, keyMembers: seq<KeyMember>,
                    unread: set<(nat, KeyMember)>, ghost room: Room)
    returns (inserts: Writes, deletes: Writes, ghost pm: map<KeyMember, seq<Presence>>, ghost ds: map<KeyMember, Decision>)
    modifies clusters
    ensures pm.Keys == ds.Keys == SetOf(keyMembers)
    ensures forall km | km in ds :: pm[km] == Presences(old(clusters[..]), km, unread) && Decides(pm[km], ds[km])
    ensures Scheduled(pm, ds, true, inserts) && Scheduled(pm, ds, false, deletes)
    ensures forall i | 0 <= i < clusters.Length :: clusters[i] == Passed(maxSize, old(clusters[i]), i, inserts, deletes)
    ensures Roomy(maxSize, old(clusters[..]), keyMembers, room) ==>
      Roomy(maxSize, clusters[..], keyMembers, room)
      && forall i, km | 0 <= i < clusters.Length :: PresenceIn(clusters[i], km) == Outcome(old(clusters[i]), i, pm, ds, km)
  {
    ghost var before := clusters[..];
    var presenceMap := ReadPresences(clusters[..], keyMembers, unread);
    pm := presenceMap;
    inserts, deletes, ds := Schedule(presenceMap);
    CarryOut(maxSize, clusters, true, inserts);
    CarryOut(maxSize, clusters, false, deletes);
    hide Sound, WriteAll;
    if Roomy(maxSize, before, keyMembers, room) {
      forall i | 0 <= i < clusters.Length
        ensures Sound(maxSize, clusters[i], room)
        ensures forall km :: PresenceIn(clusters[i], km) == Outcome(before[i], i, pm, ds, km)
      {
        assert Sound(maxSize, before[i], room);
        PassEffect(maxSize, before[i], i, room, pm, ds, inserts, deletes);
      }
    }
  }

  lemma PassEffect(maxSize: nat, c: Cluster, i: nat, room: Room, pm: map<KeyMember, seq<Presence>>,
                   ds: map<KeyMember, Decision>, inserts: Writes, deletes: Writes)
    requires Sound(maxSize, c, room) && ds.Keys == pm.Keys && forall km | km in ds :: HasRoom(room, km)
    requires CalledExactly(pm, ds, i, true, At(inserts, i)) && CalledExactly(pm, ds, i, false, At(deletes, i))
    ensures Sound(maxSize, Passed(maxSize, c, i, inserts, deletes), room)
    ensures forall km :: PresenceIn(Passed(maxSize, c, i, inserts, deletes), km) == Outcome(c, i, pm, ds, km)
  {
    hide Sound, WriteAll, Written, CalledExactly, HasRoom, Outcome, PresenceIn, Writable;
    CalledWritable(pm, ds, i, true, At(inserts, i), room);
    CalledWritable(pm, ds, i, false, At(deletes, i), room);
    WriteAllEffect(maxSize, c, true, At(inserts, i), room, ds);
    var mid := WriteAll(maxSize, c, true, At(inserts, i));
    WriteAllEffect(maxSize, mid, false, At(deletes, i), room, ds);
    var end := WriteAll(maxSize, mid, false, At(deletes, i));
    forall km
      ensures PresenceIn(end, km) == Outcome(c, i, pm, ds, km)
    {
      ClusterRepaired(c, mid, end, i, pm, ds, At(inserts, i), At(deletes, i), km);
    }
  }

  ghost predicate CalledExactly(pm: map<KeyMember, seq<Presence>>, ds: map<KeyMember, Decision>, i: nat,
                                insert: bool, ts: seq<KeyScoreMember>) {
    forall t :: t in ts <==> Called(pm, ds, i, insert, t)
  }

  lemma TargetsCalled(pm: map<KeyMember, seq<Presence>>, ds: map<KeyMember, Decision>, i: nat, insert: bool,
                      ts: seq<KeyScoreMember>, km: KeyMember)
    requires CalledExactly(pm, ds, i, insert, ts)
    ensures Targets(ts, km) <==> km in ds && km in pm && i < |pm[km]| && Needs(pm[km][i], ds[km]) && ds[km].inserted == insert
  {
    if km in ds && ds[km].Correct? {
      var t := KeyScoreMember(km.key, ds[km].score, km.member);
      assert t.KM() == km;
      assert t in ts <==> Called(pm, ds, i, insert, t);
    }
    if Targets(ts, km) {
      var j :| 0 <= j < |ts| && ts[j].KM() == km;
      assert ts[j] in ts;
    }
  }

  lemma CalledWritable(pm: map<KeyMember, seq<Presence>>, ds: map<KeyMember, Decision>, i: nat, insert: bool,
                       ts: seq<KeyScoreMember>, room: Room)
    requires CalledExactly(pm, ds, i, insert, ts) && forall km | km in ds :: HasRoom(room, km)
    ensures Writable(ds, insert, ts, room)
  {
    forall j | 0 <= j < |ts| ensures Decided(ds, insert, ts[j]) && HasRoom(room, ts[j].KM()) {
      assert ts[j] in ts;
    }
  }

  lemma ClusterRepaired(c: Cluster, mid: Cluster, c': Cluster, i: nat,
                        pm: map<KeyMember, seq<Presence>>, ds: map<KeyMember, Decision>,
                        inserts: seq<KeyScoreMember>, deletes: seq<KeyScoreMember>, km: KeyMember)
    requires ds.Keys == pm.Keys
    requires CalledExactly(pm, ds, i, true, inserts) && CalledExactly(pm, ds, i, false, deletes)
    requires Written(c, mid, ds, inserts) && Written(mid, c', ds, deletes)
    ensures PresenceIn(c', km) == Outcome(c, i, pm, ds, km)
  {
    TargetsCalled(pm, ds, i, true, inserts, km);
    TargetsCalled(pm, ds, i, false, deletes, km);
  }

  // ----- What a pass achieves -----

  /** An error-free pass leaves every cluster with the decided state of every key-member it found. */
  lemma RepairedEverywhere(ps: seq<Presence>, d: Decision, i: nat)
    requires Decides(ps, d) && d.Correct? && i < |ps|
    ensures Repaired(ps[i], ps[i], d) == Present(d.inserted, d.score)
  {
  }

  function AfterPass(ps: seq<Presence>, d: Decision): (after: seq<Presence>)
    ensures |after| == |ps| && forall i | 0 <= i < |ps| :: after[i] == Repaired(ps[i], ps[i], d)
  {
    seq(|ps|, i requires 0 <= i < |ps| => Repaired(ps[i], ps[i], d))
  }

  predicate AllEqual(ps: seq<Presence>) {
    forall i, j | 0 <= i < |ps| && 0 <= j < |ps| :: ps[i] == ps[j]
  }

  /**
   * An error-free pass makes the clusters agree exactly when some cluster holds the key-member at
   * a score of at least zero, or they agreed already: the walk starts its maximum at zero.
   */
  lemma ConvergesIff(ps: seq<Presence>, d: Decision)
    requires Decides(ps, d)
    ensures AllEqual(AfterPass(ps, d)) <==>
      (exists i | 0 <= i < |ps| :: ps[i].Present? && ps[i].score >= 0) || AllEqual(ps)
  {
    if d.NotFound? {
      assert AfterPass(ps, d) == ps;
    } else {
      assert TopScore(ps, d.score);
    }
  }

  /** A second error-free pass finds nothing to write. */
  lemma SecondPassIdle(ps: seq<Presence>, d: Decision, d': Decision, i: nat)
    requires Decides(ps, d) && Decides(AfterPass(ps, d), d') && i < |ps|
    ensures !Needs(AfterPass(ps, d)[i], d')
  {
    var after := AfterPass(ps, d);
    if d.Correct? {
      assert forall j | 0 <= j < |after| :: after[j] == Present(d.inserted, d.score);
      assert Record(after, i);
    } else {
      assert after == ps;
    }
  }

  /**
   * Two error-free passes in a row, while the cap does not bind: the first leaves every found
   * key-member in the same state in every cluster, and the second schedules no write at all and
   * changes nothing.
   */
  method RepairTwice(maxSize: nat, clusters: array<Cluster>, keyMembers: seq<KeyMember>, ghost room: Room)
    returns (ghost ds: map<KeyMember, Decision>, inserts: Writes, deletes: Writes)
    modifies clusters
    ensures forall km | km in keyMembers :: km in ds && Decides(Presences(old(clusters[..]), km, {}), ds[km])
    ensures Roomy(maxSize, old(clusters[..]), keyMembers, room) ==>
      && (forall i, km | 0 <= i < clusters.Length && km in keyMembers && ds[km].Correct? ::
           PresenceIn(clusters[i], km) == Present(ds[km].inserted, ds[km].score))
      && (forall i, km | 0 <= i < clusters.Length && km !in keyMembers ::
           PresenceIn(clusters[i], km) == PresenceIn(old(clusters[i]), km))
      && (forall i: nat :: At(inserts, i) == [] && At(deletes, i) == [])
  {
    ghost var pm, pm2, ds2;
    ghost var before := clusters[..];
    inserts, deletes, pm, ds := AllRepairs(maxSize, clusters, keyMembers, {}, room);
    ghost var middle := clusters[..];
    inserts, deletes, pm2, ds2 := AllRepairs(maxSize, clusters, keyMembers, {}, room);
    if Roomy(maxSize, before, keyMembers, room) {
      SecondPass(before, middle, keyMembers, pm, ds, pm2, ds2, inserts, deletes);
      forall i, km | 0 <= i < clusters.Length
        ensures PresenceIn(clusters[i], km) == PresenceIn(middle[i], km)
      {
        assert PresenceIn(clusters[i], km) == Outcome(middle[i], i, pm2, ds2, km);
      }
    }
  }

  lemma SecondPass(before: seq<Cluster>, middle: seq<Cluster>, keyMembers: seq<KeyMember>,
                   pm: map<KeyMember, seq<Presence>>, ds: map<KeyMember, Decision>,
                   pm2: map<KeyMember, seq<Presence>>, ds2: map<KeyMember, Decision>, inserts: Writes, deletes: Writes)
    requires pm.Keys == ds.Keys == pm2.Keys == ds2.Keys == SetOf(keyMembers) && |middle| == |before|
    requires forall km | km in ds :: pm[km] == Presences(before, km, {}) && Decides(pm[km], ds[km])
    requires forall km | km in ds2 :: pm2[km] == Presences(middle, km, {}) && Decides(pm2[km], ds2[km])
    requires forall i, km | 0 <= i < |middle| :: PresenceIn(middle[i], km) == Outcome(before[i], i, pm, ds, km)
    requires Scheduled(pm2, ds2, true, inserts) && Scheduled(pm2, ds2, false, deletes)
    ensures forall i: nat :: At(inserts, i) == [] && At(deletes, i) == []
    ensures forall i, km | 0 <= i < |middle| :: Outcome(middle[i], i, pm2, ds2, km) == PresenceIn(middle[i], km)
    ensures forall i, km | 0 <= i < |middle| && km in keyMembers && ds[km].Correct? ::
      PresenceIn(middle[i], km) == Present(ds[km].inserted, ds[km].score)
    ensures forall i, km | 0 <= i < |middle| && km !in keyMembers :: PresenceIn(middle[i], km) == PresenceIn(before[i], km)
  {
    hide PresenceIn, Decides, Needs;
    forall km | km in keyMembers ensures Presences(middle, km, {}) == AfterPass(pm[km], ds[km]) {
      forall i | 0 <= i < |middle| ensures Presences(middle, km, {})[i] == AfterPass(pm[km], ds[km])[i] {
        assert PresenceIn(middle[i], km) == Outcome(before[i], i, pm, ds, km);
      }
    }
    NothingCalled(keyMembers, pm, ds, pm2, ds2);
    forall i: nat ensures At(inserts, i) == [] && At(deletes, i) == [] {
      NothingScheduled(pm2, ds2, i, true, At(inserts, i));
      NothingScheduled(pm2, ds2, i, false, At(deletes, i));
    }
    forall i, km | 0 <= i < |middle| && km in keyMembers && ds[km].Correct?
      ensures PresenceIn(middle[i], km) == Present(ds[km].inserted, ds[km].score)
    {
      assert PresenceIn(middle[i], km) == Outcome(before[i], i, pm, ds, km);
      RepairedEverywhere(pm[km], ds[km], i);
    }
  }

  lemma NothingCalled(keyMembers: seq<KeyMember>, pm: map<KeyMember, seq<Presence>>, ds: map<KeyMember, Decision>,
                      pm2: map<KeyMember, seq<Presence>>, ds2: map<KeyMember, Decision>)
    requires pm.Keys == ds.Keys == pm2.Keys == ds2.Keys == SetOf(keyMembers)
    requires forall km | km in ds :: Decides(pm[km], ds[km])
    requires forall km | km in ds2 :: pm2[km] == AfterPass(pm[km], ds[km]) && Decides(pm2[km], ds2[km])
    ensures forall km, i | km in ds2 && 0 <= i < |pm2[km]| :: !Needs(pm2[km][i], ds2[km])
  {
    forall km, i | km in ds2 && 0 <= i < |pm2[km]| ensures !Needs(pm2[km][i], ds2[km]) {
      SecondPassIdle(pm[km], ds[km], ds2[km], i);
    }
  }

  lemma NothingScheduled(pm: map<KeyMember, seq<Presence>>, ds: map<KeyMember, Decision>, i: nat, insert: bool,
                         ts: seq<KeyScoreMember>)
    requires CalledExactly(pm, ds, i, insert, ts)
    requires forall km, j | km in ds && km in pm && 0 <= j < |pm[km]| :: !Needs(pm[km][j], ds[km])
    ensures ts == []
  {
    var first := if ts == [] then KeyScoreMember([], 0, []) else ts[0];
    assert ts == [] || first in ts;
  }
}
